/** The settings the batch script reads from its configuration file.
    The file has already been parsed into a map from key to string value;
    every setting is looked up with an empty-string fallback. */
module Config {

  /** The seven settings main reads, one field per recognised key. */
  datatype Settings = Settings(
    datasetId: string,
    apiKey: string,
    apiKeyId: string,
    partId: string,
    orgId: string,
    locationId: string,
    imageDirectory: string)

  /** The keys main looks up, in the order it looks them up. */
  const RecognizedKeys: seq<string> :=
    ["dataset_id", "app_api_key", "app_api_key_id", "part_id", "org_id", "location_id", "image_directory"]

  /** A dictionary lookup with a default: the value under `key`, or "" when the key is absent. */
  function Get(config: map<string, string>, key: string): (value: string)
    ensures key in config ==> value == config[key]
    ensures key !in config ==> value == ""
  {
    if key in config then config[key] else ""
  }

  /** Reads every setting with the empty-string fallback. */
  function Load(config: map<string, string>): Settings
  {
    Settings(
      Get(config, "dataset_id"),
      Get(config, "app_api_key"),
      Get(config, "app_api_key_id"),
      Get(config, "part_id"),
      Get(config, "org_id"),
      Get(config, "location_id"),
      Get(config, "image_directory"))
  }

  /** The configuration file that holds exactly the given settings. */
  function ToConfig(s: Settings): (config: map<string, string>)
    ensures config.Keys == set k | k in RecognizedKeys
  {
    map[
      "dataset_id" := s.datasetId,
      "app_api_key" := s.apiKey,
      "app_api_key_id" := s.apiKeyId,
      "part_id" := s.partId,
      "org_id" := s.orgId,
      "location_id" := s.locationId,
      "image_directory" := s.imageDirectory]
  }

  /** Every setting is read from its own key: writing settings out and reading
      them back gives the same settings, so no two settings share a key. */
  lemma LoadToConfig(s: Settings)
    ensures Load(ToConfig(s)) == s
  {
  }

  /** With no configuration at all, every setting is the empty string. */
  lemma LoadEmpty()
    ensures Load(map[]) == Settings("", "", "", "", "", "", "")
  {
  }

  /** Keys other than the seven recognised ones have no effect. */
  lemma LoadIgnoresOtherKeys(config: map<string, string>, key: string, value: string)
    requires key !in RecognizedKeys
    ensures Load(config[key := value]) == Load(config)
  {
  }

  /** The fallback cannot be told apart from an explicit empty value: a
      recognised key that is missing reads the same as one set to "". */
  lemma MissingReadsAsEmpty(config: map<string, string>, key: string)
    requires key in RecognizedKeys
    ensures Load(config - {key}) == Load(config[key := ""])
  {
  }
}
