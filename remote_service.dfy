/** The remote data service as the batch script sees it: a client whose two
    data-plane calls are recorded in order, and whose answers come from the
    service (given here as functions of the calls made so far). */
module RemoteService {

  /** An image file: the configured directory joined with a directory entry
      name. How the two are joined into a path string is not modelled. */
  datatype ImagePath = Join(directory: string, name: string)

  /** The JPEG bytes made from the image at `source` (opened, flattened from
      RGBA to RGB when needed, re-encoded as JPEG). */
  datatype JpegData = JpegOf(source: ImagePath)

  /** The arguments of one file upload. */
  datatype UploadRequest = UploadRequest(partId: string, fileExtension: string, data: JpegData)

  /** The composite reference to an uploaded file. */
  datatype BinaryId = BinaryId(fileId: string, organizationId: string, locationId: string)

  /** One call made to the service's data client. */
  datatype Call =
    | UploadCall(request: UploadRequest)
    | DatasetCall(binaryIds: seq<BinaryId>, datasetId: string)

  /** The ways a run can fail. */
  datatype Error =
    | ImageDecodeError(path: ImagePath)
    | UploadError(reason: string)
    | AssociationError(reason: string)

  datatype Result<T> = Ok(value: T) | Err(error: Error)

  datatype Outcome = Pass | Fail(error: Error)

  /** What the service answers to an upload: the new file's id, or a refusal. */
  datatype UploadAnswer = FileId(id: string) | Rejected(reason: string)

  /** What the service answers to a dataset association. */
  datatype DatasetAnswer = Added | Refused(reason: string)

  /** The service's answer to an upload, given the calls made before it. */
  type UploadService = (seq<Call>, UploadRequest) -> UploadAnswer

  /** The service's answer to a dataset association, given the calls made before it. */
  type DatasetService = (seq<Call>, seq<BinaryId>, string) -> DatasetAnswer

  /** A refused upload surfaces as an upload error carrying the service's reason. */
  function UploadResult(answer: UploadAnswer): (r: Result<string>)
    ensures r.Ok? <==> answer.FileId?
    ensures r.Ok? ==> r.value == answer.id
    ensures r.Err? ==> r.error == UploadError(answer.reason)
  {
    match answer
    case FileId(id) => Ok(id)
    case Rejected(reason) => Err(UploadError(reason))
  }

  /** A refused association surfaces as an association error carrying the service's reason. */
  function AssociationOutcome(answer: DatasetAnswer): (r: Outcome)
    ensures r.Pass? <==> answer.Added?
    ensures r.Fail? ==> r.error == AssociationError(answer.reason)
  {
    match answer
    case Added => Pass
    case Refused(reason) => Fail(AssociationError(reason))
  }

  /** The data client of an open session. */
  class DataClient {
    const uploadAnswer: UploadService
    const datasetAnswer: DatasetService
    /** Every call made through this client, oldest first. */
    var calls: seq<Call>

    constructor (uploadAnswer: UploadService, datasetAnswer: DatasetService)
      ensures this.uploadAnswer == uploadAnswer && this.datasetAnswer == datasetAnswer
      ensures calls == []
    {
      this.uploadAnswer := uploadAnswer;
      this.datasetAnswer := datasetAnswer;
      calls := [];
    }

    /** Uploads one file and returns the file id the service assigns to it. */
    method FileUpload(partId: string, fileExtension: string, data: JpegData) returns (fileId: Result<string>)
      modifies this
      ensures calls == old(calls) + [UploadCall(UploadRequest(partId, fileExtension, data))]
      ensures fileId == UploadResult(uploadAnswer(old(calls), UploadRequest(partId, fileExtension, data)))
    {
      var request := UploadRequest(partId, fileExtension, data);
      fileId := UploadResult(uploadAnswer(calls, request));
      calls := calls + [UploadCall(request)];
    }

    /** Adds the given uploaded files to a dataset, all in one call. */
    method AddBinaryDataToDatasetByIds(binaryIds: seq<BinaryId>, datasetId: string) returns (r: Outcome)
      modifies this
      ensures calls == old(calls) + [DatasetCall(binaryIds, datasetId)]
      ensures r == AssociationOutcome(datasetAnswer(old(calls), binaryIds, datasetId))
    {
      r := AssociationOutcome(datasetAnswer(calls, binaryIds, datasetId));
      calls := calls + [DatasetCall(binaryIds, datasetId)];
    }
  }
}
