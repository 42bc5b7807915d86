/** The batch uploader: main walks the directory listing, uploads every image
    it selects, collects one binary id per upload and hands the collected ids
    to one dataset association call. Any failure ends the run at once. */
module BatchUpload {
  import opened Config
  import opened ImageFilter
  import opened RemoteService

  /** Whether the image library can open the file at a path and re-encode it as JPEG. */
  type Opener = ImagePath -> bool

  /** The service's call log after uploading one image, and what upload_image returned. */
  datatype Attempt = Attempt(calls: seq<Call>, result: Result<BinaryId>)

  /** upload_image: open the image (no call is made if it cannot be opened),
      upload its JPEG encoding with the fixed ".jpg" extension, and pair the
      returned file id with the organization and location ids. */
  function UploadImageStep(calls: seq<Call>, imagePath: ImagePath, partId: string, orgId: string,
                           locationId: string, opens: Opener, answer: UploadService): Attempt
  {
    if !opens(imagePath) then Attempt(calls, Err(ImageDecodeError(imagePath)))
    else
      var request := UploadRequest(partId, ".jpg", JpegOf(imagePath));
      match UploadResult(answer(calls, request))
      case Ok(fileId) => Attempt(calls + [UploadCall(request)], Ok(BinaryId(fileId, orgId, locationId)))
      case Err(e) => Attempt(calls + [UploadCall(request)], Err(e))
  }

  /** The upload main makes for the directory entry `name`. */
  function RequestFor(s: Settings, name: string): UploadRequest
  {
    UploadRequest(s.partId, ".jpg", JpegOf(Join(s.imageDirectory, name)))
  }

  /** The uploads main makes for `names` when none of them fails. */
  function UploadCalls(s: Settings, names: seq<string>): seq<Call>
  {
    seq(|names|, i requires 0 <= i < |names| => UploadCall(RequestFor(s, names[i])))
  }

  /** The state of the loop: the ids collected, the service's call log, and
      whether an upload has failed. */
  datatype Progress = Progress(binaryIds: seq<BinaryId>, calls: seq<Call>, status: Outcome)

  /** The loop of main over the selected names, starting from the call log
      `calls`; it stops at the first failure. */
  function UploadAll(names: seq<string>, s: Settings, calls: seq<Call>, opens: Opener, answer: UploadService): Progress
    decreases |names|
  {
    if names == [] then Progress([], calls, Pass)
    else
      var before := UploadAll(names[..|names| - 1], s, calls, opens, answer);
      if before.status.Fail? then before
      else
        var attempt := UploadImageStep(before.calls, Join(s.imageDirectory, names[|names| - 1]),
                                       s.partId, s.orgId, s.locationId, opens, answer);
        match attempt.result
        case Ok(id) => Progress(before.binaryIds + [id], attempt.calls, Pass)
        case Err(e) => Progress(before.binaryIds, attempt.calls, Fail(e))
  }

  /** The whole of main after the session is open: the service's call log at
      the end, and how the run ended. */
  datatype RunResult = RunResult(calls: seq<Call>, outcome: Outcome)

  /** main from its loop onwards: upload the selected images, then, only if
      none failed, associate the collected ids with the configured dataset. */
  function RunSpec(config: map<string, string>, listing: seq<string>, calls: seq<Call>, opens: Opener,
                   uploadAnswer: UploadService, datasetAnswer: DatasetService): RunResult
  {
    var s := Load(config);
    var p := UploadAll(SelectImages(listing), s, calls, opens, uploadAnswer);
    match p.status
    case Fail(e) => RunResult(p.calls, Fail(e))
    case Pass =>
      RunResult(p.calls + [DatasetCall(p.binaryIds, s.datasetId)],
                AssociationOutcome(datasetAnswer(p.calls, p.binaryIds, s.datasetId)))
  }

  /** When every upload succeeds there is one id per name, made in order; in
      any case the i-th id carries exactly the file id the service returned
      for the i-th name's upload (made after the uploads of the names before
      it), together with the configured organization and location ids. */
  lemma {:induction false} UploadAllShape(names: seq<string>, s: Settings, calls: seq<Call>, opens: Opener,
                                          answer: UploadService)
    ensures var p := UploadAll(names, s, calls, opens, answer);
      && |p.binaryIds| <= |names|
      && (p.status.Pass? ==> |p.binaryIds| == |names| && p.calls == calls + UploadCalls(s, names))
      && (forall i | 0 <= i < |p.binaryIds| ::
            && answer(calls + UploadCalls(s, names[..i]), RequestFor(s, names[i])) == FileId(p.binaryIds[i].fileId)
            && p.binaryIds[i].organizationId == s.orgId
            && p.binaryIds[i].locationId == s.locationId)
    decreases |names|
  {
    if names != [] {
      var init, last := names[..|names| - 1], names[|names| - 1];
      UploadAllShape(init, s, calls, opens, answer);
      var before := UploadAll(init, s, calls, opens, answer);
      assert forall i | 0 <= i < |init| :: names[..i] == init[..i];
      if before.status.Pass? {
        assert names[..|init|] == init;
        assert UploadCalls(s, names) == UploadCalls(s, init) + [UploadCall(RequestFor(s, last))];
        var attempt := UploadImageStep(before.calls, Join(s.imageDirectory, last), s.partId, s.orgId, s.locationId,
                                       opens, answer);
        if attempt.result.Ok? {
          assert UploadAll(names, s, calls, opens, answer).binaryIds == before.binaryIds + [attempt.result.value];
        }
      }
    }
  }

  /** The loop over `names` stopped at its first failure, with n the number
      of ids collected: the first n names were all uploaded successfully and
      gave those ids, the failure belongs to name n, and no later name was
      touched. The failure is a decode error exactly when name n's image
      cannot be opened, and then that image is not uploaded; otherwise its
      upload, the last call made, was refused and the error carries the
      service's reason. */
  ghost predicate StoppedAtFirstFailure(names: seq<string>, s: Settings, calls: seq<Call>, opens: Opener,
                                        answer: UploadService)
  {
    var p := UploadAll(names, s, calls, opens, answer);
    var n := |p.binaryIds|;
    && p.status.Fail?
    && n < |names|
    && UploadAll(names[..n], s, calls, opens, answer) == Progress(p.binaryIds, calls + UploadCalls(s, names[..n]), Pass)
    && var path := Join(s.imageDirectory, names[n]);
       && (p.status.error.ImageDecodeError? <==> !opens(path))
       && if opens(path) then
         && p.calls == calls + UploadCalls(s, names[..n + 1])
         && answer(calls + UploadCalls(s, names[..n]), RequestFor(s, names[n])).Rejected?
         && p.status.error == UploadError(answer(calls + UploadCalls(s, names[..n]), RequestFor(s, names[n])).reason)
       else
         && p.calls == calls + UploadCalls(s, names[..n])
         && p.status.error == ImageDecodeError(path)
  }

  /** Whenever the loop fails, it stopped at its first failure. */
  lemma {:induction false} UploadAllAbort(names: seq<string>, s: Settings, calls: seq<Call>, opens: Opener,
                                          answer: UploadService)
    requires UploadAll(names, s, calls, opens, answer).status.Fail?
    ensures StoppedAtFirstFailure(names, s, calls, opens, answer)
    decreases |names|, 1
  {
    if UploadAll(names[..|names| - 1], s, calls, opens, answer).status.Fail? {
      AbortBeforeLast(names, s, calls, opens, answer);
    } else {
      AbortAtLast(names, s, calls, opens, answer);
    }
  }

  /** A failure among all but the last name is the failure of the whole loop. */
  lemma {:induction false} AbortBeforeLast(names: seq<string>, s: Settings, calls: seq<Call>, opens: Opener,
                                           answer: UploadService)
    requires names != []
    requires UploadAll(names[..|names| - 1], s, calls, opens, answer).status.Fail?
    ensures StoppedAtFirstFailure(names, s, calls, opens, answer)
    decreases |names|, 0
  {
    var init := names[..|names| - 1];
    var p := UploadAll(names, s, calls, opens, answer);
    assert p == UploadAll(init, s, calls, opens, answer);
    UploadAllAbort(init, s, calls, opens, answer);
    var n := |p.binaryIds|;
    assert names[..n] == init[..n];
    assert names[n] == init[n];
    assert names[..n + 1] == init[..n + 1];
    var prior := calls + UploadCalls(s, names[..n]);
    assert prior == calls + UploadCalls(s, init[..n]);
    assert UploadAll(names[..n], s, calls, opens, answer) == Progress(p.binaryIds, prior, Pass);
    if opens(Join(s.imageDirectory, names[n])) {
      assert p.calls == calls + UploadCalls(s, names[..n + 1]);
      assert answer(prior, RequestFor(s, names[n])) == answer(calls + UploadCalls(s, init[..n]), RequestFor(s, init[n]));
    }
  }

  /** A loop in which no upload failed collected one id per name and made exactly their uploads. */
  lemma UploadAllPassed(names: seq<string>, s: Settings, calls: seq<Call>, opens: Opener, answer: UploadService)
    requires UploadAll(names, s, calls, opens, answer).status.Pass?
    ensures |UploadAll(names, s, calls, opens, answer).binaryIds| == |names|
    ensures UploadAll(names, s, calls, opens, answer).calls == calls + UploadCalls(s, names)
  {
    UploadAllShape(names, s, calls, opens, answer);
  }

  /** When all but the last name pass and the loop fails, the last name failed. */
  lemma AbortAtLast(names: seq<string>, s: Settings, calls: seq<Call>, opens: Opener, answer: UploadService)
    requires names != []
    requires UploadAll(names[..|names| - 1], s, calls, opens, answer).status.Pass?
    requires UploadAll(names, s, calls, opens, answer).status.Fail?
    ensures StoppedAtFirstFailure(names, s, calls, opens, answer)
  {
    var init, last := names[..|names| - 1], names[|names| - 1];
    var before := UploadAll(init, s, calls, opens, answer);
    var p := UploadAll(names, s, calls, opens, answer);
    UploadAllPassed(init, s, calls, opens, answer);
    var path := Join(s.imageDirectory, last);
    var attempt := UploadImageStep(before.calls, path, s.partId, s.orgId, s.locationId, opens, answer);
    assert attempt.result.Err?;
    assert p == Progress(before.binaryIds, attempt.calls, Fail(attempt.result.error));
    assert |p.binaryIds| == |init|;
    assert names[..|init|] == init;
    assert names[..|init| + 1] == names;
    assert UploadCalls(s, names) == UploadCalls(s, init) + [UploadCall(RequestFor(s, last))];
  }

  /** Once an upload has failed, later names change nothing. */
  lemma {:induction false} UploadAllAfterFailure(a: seq<string>, b: seq<string>, s: Settings, calls: seq<Call>,
                                                 opens: Opener, answer: UploadService)
    requires UploadAll(a, s, calls, opens, answer).status.Fail?
    ensures UploadAll(a + b, s, calls, opens, answer) == UploadAll(a, s, calls, opens, answer)
    decreases |b|
  {
    if b == [] {
      assert a + b == a;
    } else {
      assert (a + b)[..|a + b| - 1] == a + b[..|b| - 1];
      UploadAllAfterFailure(a, b[..|b| - 1], s, calls, opens, answer);
    }
  }

  /** The calls main makes are an extension of the earlier log by uploads of
      the first m selected names, for some m. */
  lemma UploadAllPlanned(names: seq<string>, s: Settings, calls: seq<Call>, opens: Opener, answer: UploadService)
    returns (m: nat)
    ensures m <= |names|
    ensures UploadAll(names, s, calls, opens, answer).calls == calls + UploadCalls(s, names[..m])
  {
    var p := UploadAll(names, s, calls, opens, answer);
    if p.status.Pass? {
      UploadAllShape(names, s, calls, opens, answer);
      m := |names|;
      assert names[..m] == names;
    } else {
      UploadAllAbort(names, s, calls, opens, answer);
      var n := |p.binaryIds|;
      m := if opens(Join(s.imageDirectory, names[n])) then n + 1 else n;
    }
  }

  /** Every upload a run makes is for a selected image of the listing, in the
      configured directory, with the configured part id and the fixed ".jpg"
      extension whatever the file's own suffix; earlier calls are untouched. */
  lemma RunUploadsOnlySelectedImages(config: map<string, string>, listing: seq<string>, calls: seq<Call>,
                                     opens: Opener, uploadAnswer: UploadService, datasetAnswer: DatasetService)
    ensures var r := RunSpec(config, listing, calls, opens, uploadAnswer, datasetAnswer);
      && |calls| <= |r.calls| && r.calls[..|calls|] == calls
      && forall k | |calls| <= k < |r.calls| && r.calls[k].UploadCall? ::
           var request := r.calls[k].request;
           && request.partId == Get(config, "part_id")
           && request.fileExtension == ".jpg"
           && request.data.source.directory == Get(config, "image_directory")
           && request.data.source.name in listing
           && IsImageName(request.data.source.name)
  {
    var s := Load(config);
    var selected := SelectImages(listing);
    var m := UploadAllPlanned(selected, s, calls, opens, uploadAnswer);
    var planned := calls + UploadCalls(s, selected[..m]);
    var r := RunSpec(config, listing, calls, opens, uploadAnswer, datasetAnswer);
    assert r.calls == planned || r.calls[..|planned|] == planned;
    forall k | |calls| <= k < |r.calls| && r.calls[k].UploadCall?
      ensures r.calls[k] == UploadCall(RequestFor(s, selected[k - |calls|]))
    {
      assert k < |planned|;
      assert r.calls[k] == planned[k];
    }
  }

  /** A run calls the dataset association at most once, as its very last
      call, and exactly when every upload succeeded; it then passes the ids
      collected and the configured dataset id. A failed upload ends the run
      with that failure. */
  lemma RunAssociatesOnceAtEnd(config: map<string, string>, listing: seq<string>, calls: seq<Call>,
                               opens: Opener, uploadAnswer: UploadService, datasetAnswer: DatasetService)
    ensures var r := RunSpec(config, listing, calls, opens, uploadAnswer, datasetAnswer);
      var p := UploadAll(SelectImages(listing), Load(config), calls, opens, uploadAnswer);
      && (forall k | |calls| <= k < |r.calls| && r.calls[k].DatasetCall? :: k == |r.calls| - 1 && p.status.Pass?)
      && (p.status.Pass? ==>
            && |r.calls| == |p.calls| + 1
            && r.calls[|r.calls| - 1] == DatasetCall(p.binaryIds, Get(config, "dataset_id")))
      && (p.status.Fail? ==> r.outcome == p.status)
  {
    var s := Load(config);
    var selected := SelectImages(listing);
    var p := UploadAll(selected, s, calls, opens, uploadAnswer);
    var m := UploadAllPlanned(selected, s, calls, opens, uploadAnswer);
    var r := RunSpec(config, listing, calls, opens, uploadAnswer, datasetAnswer);
    forall k | |calls| <= k < |p.calls| ensures p.calls[k].UploadCall? {
      assert p.calls[k] == UploadCalls(s, selected[..m])[k - |calls|];
    }
  }

  /** One more entry of the listing adds it to the selection exactly when it is an image. */
  lemma SelectImagesSnoc(listing: seq<string>, i: nat)
    requires i < |listing|
    ensures SelectImages(listing[..i + 1])
         == if IsImageName(listing[i]) then SelectImages(listing[..i]) + [listing[i]] else SelectImages(listing[..i])
  {
    assert listing[..i + 1][..i] == listing[..i];
  }

  /** The loop over one more selected name, when none before it has failed. */
  lemma UploadAllSnoc(names: seq<string>, name: string, s: Settings, calls: seq<Call>, opens: Opener,
                      answer: UploadService)
    requires UploadAll(names, s, calls, opens, answer).status.Pass?
    ensures var before := UploadAll(names, s, calls, opens, answer);
      var attempt := UploadImageStep(before.calls, Join(s.imageDirectory, name), s.partId, s.orgId, s.locationId,
                                     opens, answer);
      UploadAll(names + [name], s, calls, opens, answer)
        == match attempt.result
           case Ok(id) => Progress(before.binaryIds + [id], attempt.calls, Pass)
           case Err(e) => Progress(before.binaryIds, attempt.calls, Fail(e))
  {
    assert (names + [name])[..|names|] == names;
  }

  /** A failure while scanning a prefix of the listing is the failure of the whole scan. */
  lemma FailureEndsScan(listing: seq<string>, i: nat, s: Settings, calls: seq<Call>, opens: Opener,
                        answer: UploadService)
    requires i <= |listing|
    requires UploadAll(SelectImages(listing[..i]), s, calls, opens, answer).status.Fail?
    ensures UploadAll(SelectImages(listing), s, calls, opens, answer)
         == UploadAll(SelectImages(listing[..i]), s, calls, opens, answer)
  {
    assert listing == listing[..i] + listing[i..];
    SelectImagesAppend(listing[..i], listing[i..]);
    UploadAllAfterFailure(SelectImages(listing[..i]), SelectImages(listing[i..]), s, calls, opens, answer);
  }

  /** The kind of a run's failure tells where it happened: a decode error
      names an unopenable selected image of the listing and follows no call
      for it; an upload error follows a refused upload, which is the last call
      made; an association error follows the one association call, made last. */
  lemma RunFailureKinds(config: map<string, string>, listing: seq<string>, calls: seq<Call>,
                        opens: Opener, uploadAnswer: UploadService, datasetAnswer: DatasetService)
    ensures var r := RunSpec(config, listing, calls, opens, uploadAnswer, datasetAnswer);
      && (r.outcome.Fail? && r.outcome.error.ImageDecodeError? ==>
            var path := r.outcome.error.path;
            && !opens(path)
            && path.directory == Get(config, "image_directory")
            && path.name in listing && IsImageName(path.name))
      && (r.outcome.Fail? && r.outcome.error.UploadError? ==>
            |r.calls| > |calls| && r.calls[|r.calls| - 1].UploadCall?
            && uploadAnswer(r.calls[..|r.calls| - 1], r.calls[|r.calls| - 1].request)
               == Rejected(r.outcome.error.reason))
      && (r.outcome.Fail? && r.outcome.error.AssociationError? ==>
            |r.calls| > |calls| && r.calls[|r.calls| - 1].DatasetCall?)
  {
    var s := Load(config);
    var selected := SelectImages(listing);
    var p := UploadAll(selected, s, calls, opens, uploadAnswer);
    var r := RunSpec(config, listing, calls, opens, uploadAnswer, datasetAnswer);
    if p.status.Fail? {
      UploadAllAbort(selected, s, calls, opens, uploadAnswer);
      assert !p.status.error.AssociationError?;
      var n := |p.binaryIds|;
      var path := Join(s.imageDirectory, selected[n]);
      assert selected[n] in selected;
      if opens(path) {
        var before := calls + UploadCalls(s, selected[..n]);
        assert selected[..n + 1] == selected[..n] + [selected[n]];
        assert UploadCalls(s, selected[..n + 1]) == UploadCalls(s, selected[..n]) + [UploadCall(RequestFor(s, selected[n]))];
        assert r.calls == before + [UploadCall(RequestFor(s, selected[n]))];
        assert r.calls[..|r.calls| - 1] == before;
      }
    } else {
      UploadAllShape(selected, s, calls, opens, uploadAnswer);
    }
  }

  lemma SelectThree(x: string, y: string, z: string)
    requires IsImageName(x) && IsImageName(y) && !IsImageName(z)
    ensures SelectImages([x, y, z]) == [x, y]
  {
    assert [x, y, z] == [x] + [y] + [z];
    SelectImagesAppend([x] + [y], [z]);
    SelectImagesAppend([x], [y]);
    assert [x][..0] == [] && [y][..0] == [] && [z][..0] == [];
  }

  /** A directory holding two images and one other file (such as a.png,
      b.jpg and notes.txt) whose images upload as id1 and id2: both images
      are uploaded in listing order, the other file never is, and one
      association call receives [id1, id2] and the configured dataset id. */
  lemma TwoImagesUploadedAndAssociated(a: string, b: string, other: string, config: map<string, string>,
                                       calls: seq<Call>, opens: Opener, id1: string, id2: string,
                                       uploadAnswer: UploadService, datasetAnswer: DatasetService)
    requires IsImageName(a) && IsImageName(b) && !IsImageName(other)
    requires var s := Load(config);
      && opens(Join(s.imageDirectory, a)) && opens(Join(s.imageDirectory, b))
      && uploadAnswer(calls, RequestFor(s, a)) == FileId(id1)
      && uploadAnswer(calls + [UploadCall(RequestFor(s, a))], RequestFor(s, b)) == FileId(id2)
    ensures var s := Load(config);
      RunSpec(config, [a, b, other], calls, opens, uploadAnswer, datasetAnswer).calls
        == calls + [UploadCall(RequestFor(s, a)), UploadCall(RequestFor(s, b)),
                    DatasetCall([BinaryId(id1, s.orgId, s.locationId), BinaryId(id2, s.orgId, s.locationId)],
                                Get(config, "dataset_id"))]
  {
    SelectThree(a, b, other);
    var s := Load(config);
    assert [a, b][..1] == [a];
    assert [a][..0] == [];
    var first := calls + [UploadCall(RequestFor(s, a))];
    assert UploadAll([a], s, calls, opens, uploadAnswer)
        == Progress([BinaryId(id1, s.orgId, s.locationId)], first, Pass);
    assert UploadAll([a, b], s, calls, opens, uploadAnswer)
        == Progress([BinaryId(id1, s.orgId, s.locationId), BinaryId(id2, s.orgId, s.locationId)],
                    first + [UploadCall(RequestFor(s, b))], Pass);
  }

  /** The same directory when the second image cannot be opened: the first
      image is uploaded, the second never is, the run fails with the second
      image's decode error, and no association call is made. */
  lemma UnreadableImageAbortsRun(a: string, b: string, other: string, config: map<string, string>,
                                 calls: seq<Call>, opens: Opener,
                                 uploadAnswer: UploadService, datasetAnswer: DatasetService)
    requires IsImageName(a) && IsImageName(b) && !IsImageName(other)
    requires var s := Load(config);
      && opens(Join(s.imageDirectory, a)) && !opens(Join(s.imageDirectory, b))
      && uploadAnswer(calls, RequestFor(s, a)).FileId?
    ensures var dir := Get(config, "image_directory");
      RunSpec(config, [a, b, other], calls, opens, uploadAnswer, datasetAnswer)
        == RunResult(calls + [UploadCall(RequestFor(Load(config), a))], Fail(ImageDecodeError(Join(dir, b))))
  {
    SelectThree(a, b, other);
    var s := Load(config);
    assert [a, b][..1] == [a];
    assert [a][..0] == [];
    assert UploadAll([a], s, calls, opens, uploadAnswer).calls == calls + [UploadCall(RequestFor(s, a))];
  }

  /** upload_image on the client: the call log and the result are those of UploadImageStep. */
  method UploadImage(client: DataClient, imagePath: ImagePath, partId: string, orgId: string, locationId: string,
                     opens: Opener) returns (r: Result<BinaryId>)
    modifies client
    ensures Attempt(client.calls, r)
         == UploadImageStep(old(client.calls), imagePath, partId, orgId, locationId, opens, client.uploadAnswer)
  {
    if !opens(imagePath) {
      return Err(ImageDecodeError(imagePath));
    }
    var fileId := client.FileUpload(partId, ".jpg", JpegOf(imagePath));
    match fileId
    case Ok(id) =>
      r := Ok(BinaryId(id, orgId, locationId));
    case Err(e) =>
      r := Err(e);
  }

  /** main, from reading the settings to the association call. */
  method Run(client: DataClient, config: map<string, string>, listing: seq<string>, opens: Opener)
    returns (r: Outcome)
    modifies client
    ensures RunResult(client.calls, r)
         == RunSpec(config, listing, old(client.calls), opens, client.uploadAnswer, client.datasetAnswer)
  {
    var settings := Load(config);
    var binaryIds: seq<BinaryId> := [];
    for i := 0 to |listing|
      invariant UploadAll(SelectImages(listing[..i]), settings, old(client.calls), opens, client.uploadAnswer)
             == Progress(binaryIds, client.calls, Pass)
    {
      var filename := listing[i];
      SelectImagesSnoc(listing, i);
      if IsImageName(filename) {
        ghost var selected := SelectImages(listing[..i]);
        UploadAllSnoc(selected, filename, settings, old(client.calls), opens, client.uploadAnswer);
        var imagePath := Join(settings.imageDirectory, filename);
        var binaryId := UploadImage(client, imagePath, settings.partId, settings.orgId, settings.locationId, opens);
        if binaryId.Err? {
          FailureEndsScan(listing, i + 1, settings, old(client.calls), opens, client.uploadAnswer);
          return Fail(binaryId.error);
        }
        binaryIds := binaryIds + [binaryId.value];
      }
    }
    assert listing[..|listing|] == listing;
    r := client.AddBinaryDataToDatasetByIds(binaryIds, settings.datasetId);
  }
}
