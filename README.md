# Batch upload of a directory of images to a dataset

A Dafny model of `uploadToViamDataset.py`, a script that reads a
configuration file, opens a session with the remote data service, uploads
every image file of one directory, collects one binary id per upload, and
finally adds all collected ids to a dataset with a single call.

The model has four modules:

- `Config` (config.dfy): the seven settings, each read from the parsed
  configuration with an empty-string fallback.
- `ImageFilter` (image_filter.dfy): the case-insensitive suffix test that
  decides which directory entries are images, and the selection of those
  entries from a listing, in listing order.
- `RemoteService` (remote_service.dfy): the data client of the session as a
  class that records every call made through it. The answers of the service
  to an upload (a file id or a refusal) and to a dataset association (added
  or a refusal) are functions of the calls made so far, so the same file may
  get a different id each time it is uploaded. A refusal surfaces as an
  upload or association error carrying the service's reason, kept apart
  from the decode error of an image that cannot be opened.
- `BatchUpload` (batch_upload.dfy): `upload_image` (`UploadImage`) and the
  loop of `main` (`Run`), proved against the specification functions
  `UploadImageStep`, `UploadAll` and `RunSpec`, and the lemmas stating what
  a run does: which files are uploaded and with which arguments, how the
  ids are formed and ordered, what happens at the first failure, and when
  the association call is made.

The directory listing is an input sequence of entry names. Whether the image
library can open a file is an input predicate on paths. The JPEG bytes sent
for an image are represented by the image's path (`JpegOf`).

## Model

| member | source | states |
|---|---|---|
| `Config.Get` | uploadToViamDataset.py:50-56 | definition: `config.get(key, "")` — the value stored under the key when it is present, otherwise the empty string |
| `Config.Load` | uploadToViamDataset.py:50-56 | definition: the seven settings, each read with `Get` from its own key ("dataset_id", "app_api_key", "app_api_key_id", "part_id", "org_id", "location_id", "image_directory") |
| `Config.LoadToConfig` | uploadToViamDataset.py:50-56 | each setting is read from its own key: a configuration holding given settings reads back as exactly those settings |
| `Config.LoadEmpty` | uploadToViamDataset.py:50-56 | with no keys at all every setting is the empty string |
| `Config.LoadIgnoresOtherKeys` | uploadToViamDataset.py:50-56 | keys other than the seven recognised ones do not affect any setting |
| `Config.MissingReadsAsEmpty` | uploadToViamDataset.py:50-56 | a missing recognised key reads exactly as that key set to "" |
| `ImageFilter.Lower` | uploadToViamDataset.py:65 | definition: `filename.lower()`, character-wise `LowerChar`; the result has the name's length and no upper-case ASCII letter |
| `ImageFilter.IsImageName` | uploadToViamDataset.py:65 | definition: the test of line 65 — the lower-cased name ends with one of ".png", ".jpg", ".jpeg"; characterised both ways by ImageNameWithSuffix and ImageNameSplits |
| `ImageFilter.LowerChar` | uploadToViamDataset.py:65 | an upper-case ASCII letter becomes the letter at the same place in the lower-case alphabet; every other character is kept; the result is never an upper-case ASCII letter |
| `ImageFilter.LowerKeepsLowerCase` | uploadToViamDataset.py:65 | a name without upper-case ASCII letters is its own lower-cased form |
| `ImageFilter.ImageNameWithSuffix` | uploadToViamDataset.py:65 | any stem followed by ".png", ".jpg" or ".jpeg" in any mix of cases is selected |
| `ImageFilter.ImageNameSplits` | uploadToViamDataset.py:65 | every selected name is a stem followed by a suffix whose lower-cased form is ".png", ".jpg" or ".jpeg" (the converse of ImageNameWithSuffix) |
| `ImageFilter.UpperCasePngSelected` | uploadToViamDataset.py:65 | "A.PNG" is selected |
| `ImageFilter.MixedCaseJpegSelected` | uploadToViamDataset.py:65 | "b.JpEg" is selected |
| `ImageFilter.TextFileRejected` | uploadToViamDataset.py:65 | "notes.txt" is not selected |
| `ImageFilter.BackupOfImageRejected` | uploadToViamDataset.py:65 | "x.png.bak" is not selected: only the end of the name counts |
| `ImageFilter.BareExtensionRejected` | uploadToViamDataset.py:65 | "jpeg" is not selected: the suffix includes the dot |
| `ImageFilter.SelectImages` | uploadToViamDataset.py:64-65 | a name is in the selection iff it is in the listing and passes the suffix test; the selection is no longer than the listing |
| `ImageFilter.SelectImagesAppend` | uploadToViamDataset.py:64-65 | selecting from two listings one after the other gives the two selections one after the other |
| `ImageFilter.SelectedPosition` | uploadToViamDataset.py:64-65 | the image at listing position i is at selection position "number of images before i" |
| `ImageFilter.SelectedPositionsIncrease` | uploadToViamDataset.py:64-65 | an image earlier in the listing comes earlier in the selection, so scan order is kept |
| `RemoteService.UploadResult` | uploadToViamDataset.py:33 | definition: the service's answer to `file_upload` as the script sees it — a file id is returned, a refusal is raised as an upload error carrying the service's reason (never a decode error) |
| `RemoteService.AssociationOutcome` | uploadToViamDataset.py:74 | definition: the answer to `add_binary_data_to_dataset_by_ids` — success, or the refusal raised as an association error carrying the service's reason |
| `RemoteService.DataClient.FileUpload` | uploadToViamDataset.py:33 | records one upload call with exactly its arguments and returns the file id the service answers, or an upload error carrying the service's reason |
| `RemoteService.DataClient.AddBinaryDataToDatasetByIds` | uploadToViamDataset.py:74 | records one dataset call with exactly the ids and dataset id given and returns success, or an association error carrying the service's reason |
| `BatchUpload.UploadImageStep` | uploadToViamDataset.py:26-40 | definition: `upload_image` on values — an image that cannot be opened or re-encoded fails with its decode error and no call; otherwise one upload of its JPEG with the part id and ".jpg", whose file id is paired with the organization and location ids, or whose refusal is the error |
| `BatchUpload.UploadAll` | uploadToViamDataset.py:63-71 | definition: the loop over the selected names in order, starting from an empty id list, appending one id per successful upload and stopping at the first failure (the raised exception) |
| `BatchUpload.RunSpec` | uploadToViamDataset.py:63-74 | definition: the loop over the images `SelectImages` keeps from the listing with the settings `Load` reads, followed, only when no upload failed, by one association of the collected ids with the configured dataset id |
| `BatchUpload.UploadImage` | uploadToViamDataset.py:26-40 | an image that cannot be opened fails with a decode error and makes no call; otherwise one upload with the part id, ".jpg" and the image's JPEG, and the id returned is paired unchanged with the organization and location ids, or the upload's error is returned |
| `BatchUpload.UploadAllShape` | uploadToViamDataset.py:63-71 | when no upload fails there are as many ids as selected names and the calls are their uploads in order; the i-th id carries exactly the file id answered to the i-th name's upload and the configured organization and location ids |
| `BatchUpload.UploadAllAbort` | uploadToViamDataset.py:63-71 | every failing loop satisfies `StoppedAtFirstFailure`: on a failure at the n-th selected name, names before it were all uploaded and gave the ids collected, no later name is touched, an unopenable image is not uploaded, and the run's error is a decode error exactly when that image could not be opened, otherwise the upload error with the service's reason |
| `BatchUpload.UploadAllAfterFailure` | uploadToViamDataset.py:64-71 | once an upload has failed, further names change nothing |
| `BatchUpload.UploadAllPlanned` | uploadToViamDataset.py:63-71 | the calls of the loop are the uploads of the first m selected names, for some m |
| `BatchUpload.FailureEndsScan` | uploadToViamDataset.py:64-71 | a failure while scanning a prefix of the listing is the result of the whole scan |
| `BatchUpload.RunUploadsOnlySelectedImages` | uploadToViamDataset.py:64-69 | every upload of a run is of a selected image of the listing in the configured directory, with the configured part id and ".jpg" whatever its own suffix; earlier calls are kept |
| `BatchUpload.RunAssociatesOnceAtEnd` | uploadToViamDataset.py:63-74 | the association call is made at most once, only as the last call and exactly when every upload passed, with the collected ids and the configured dataset id; an upload failure is the run's outcome |
| `BatchUpload.RunFailureKinds` | uploadToViamDataset.py:63-74 | a decode error names an unopenable selected image of the listing in the configured directory; an upload error carries the reason of the refused upload, which is the last call; an association error follows the association call, which is the last call |
| `BatchUpload.SelectThree` | uploadToViamDataset.py:64-65 | from two images and one other name, the selection is the two images in order |
| `BatchUpload.TwoImagesUploadedAndAssociated` | uploadToViamDataset.py:63-74 | two images and one other file, uploads answered id1 and id2: the calls are the two uploads then one association with [id1, id2] |
| `BatchUpload.UnreadableImageAbortsRun` | uploadToViamDataset.py:63-74 | when the second image cannot be opened, only the first is uploaded, the run fails with the second's decode error and no association call is made |
| `BatchUpload.Run` | uploadToViamDataset.py:42-75 | the loop and the final call of main leave the call log and return the outcome that RunSpec gives |

## Left out

- Connecting and closing the session (`viam_connect`, `ViamClient`
  creation, `app_client.close()`): network session handling in a library not
  part of this model. `Run` starts from an open client's data client. The
  session is closed only on the success path in the script; this is not
  modelled.
- The RPCs themselves: `file_upload` and `add_binary_data_to_dataset_by_ids`
  are the recorded calls of `DataClient`, answered by functions given with
  the client.
- Opening, RGBA-to-RGB conversion and JPEG encoding of images: the image
  library is not part of this model. Whether an image opens (and can be
  re-encoded) is an input predicate; the bytes sent are represented by the
  source path. The script converts RGBA images with `convert('RGB')`, which
  drops the alpha channel rather than compositing it over a background;
  either way the pixels are outside this model.
- `load_configuration`: JSON parsing and file reading. The configuration is
  taken as an already parsed `map<string, string>`; JSON values that are not
  strings, and a missing or malformed file, are not modelled.
- `os.listdir` and `os.path.join`: the listing is an input sequence (a
  missing directory, which would fail before any upload, is not modelled);
  the path join is the opaque pair `Join(directory, name)`.
- `print` of the client and of the id list: diagnostic output only.
- `asyncio`: the awaits run one after another and are modelled as ordinary
  calls.
- `ImageFilter.LowerChar`: ASCII lower-casing only; `str.lower` also folds
  non-ASCII letters, which is not modelled.
