/** RecordingController::store: turns the result of uploading one chunk
    into a response, and for the last chunk saves one Recording and queues
    its transcription. */
module RecordingController {
  import opened Php
  import opened Storage
  import opened Models
  import opened FileHelper

  /** The three answers of `store` once the request has passed validation. */
  datatype Response =
    | CouldNotUpload
    | ChunkReceived
    | RecordingCreated(recording: Recording)
  {
    function StatusCode(): (code: nat)
      ensures code == 422 || code == 200 || code == 201
      ensures code == 201 <==> RecordingCreated?
    {
      match this
      case CouldNotUpload => 422
      case ChunkReceived => 200
      case RecordingCreated(_) => 201
    }

    function Message(): string {
      match this
      case CouldNotUpload => "Oops! Could not upload file"
      case ChunkReceived => "uploading chunck..."
      case RecordingCreated(_) => "video recording uploaded successfully"
    }
  }

  /** The Recording built for a completed upload: the request's title or,
      failing that, the stored name without its extension; the upload's
      path, size and name; and a slug of the title when the title is truthy,
      else of the file name. */
  function NewRecording(recordingId: string, upload: UploadResult, requestTitle: Option<string>,
                        slug: string -> string): (rec: Recording)
    requires upload.Completed?
    ensures rec.id == recordingId
    ensures requestTitle.Some? ==> rec.title == requestTitle.value
    ensures requestTitle.None? ==> rec.title == PathinfoFilename(upload.fileName)
    ensures rec.fileLocation == upload.file && rec.fileSize == upload.fileSize
    ensures rec.fileName == upload.fileName
    ensures rec.slug == slug(rec.title) || rec.slug == slug(rec.fileName)
    ensures Truthy(rec.title) ==> rec.slug == slug(rec.title)
    ensures !Truthy(rec.title) ==> rec.slug == slug(rec.fileName)
  {
    var title := requestTitle.Coalesce(PathinfoFilename(upload.fileName));
    Recording(recordingId, title, upload.file, upload.fileSize, upload.fileName,
              if Truthy(title) then slug(title) else slug(upload.fileName))
  }

  /** The response of `store` to an upload result. */
  function Respond(upload: UploadResult, requestTitle: Option<string>, slug: string -> string,
                   recordingId: string): (r: Response)
    ensures r.StatusCode() == 422 <==> upload.False?
    ensures r.StatusCode() == 200 <==> upload.NotCompleted?
    ensures r.StatusCode() == 201 <==> upload.Completed?
    ensures r.RecordingCreated? <==> upload.Completed?
    ensures r.RecordingCreated? ==> r.recording == NewRecording(recordingId, upload, requestTitle, slug)
  {
    match upload
    case False => CouldNotUpload
    case NotCompleted => ChunkReceived
    case Completed(_, _, _) => RecordingCreated(NewRecording(recordingId, upload, requestTitle, slug))
  }

  /** `store($id, $request)` after validation: uploads the chunk into the
      videos folder and, for a completed upload, saves one Recording and
      dispatches one TranscribeVideo job for it. `recordingId` is the UUID
      the model is given when it is saved. */
  method Store(db: Database, disk: Disk, id: string, req: ChunkRequest,
               ffmpeg: ConcatOutcome, concat: (Content, Content) -> Content,
               slug: string -> string, recordingId: string)
    returns (resp: Response)
    modifies db, disk
    ensures var u := UploadSpec(old(disk.files), req, "videos", Some(id), ffmpeg, concat);
      disk.files == u.files && resp == Respond(u.result, req.title, slug, recordingId)
    ensures resp.RecordingCreated? ==>
      && db.recordings == old(db.recordings) + [resp.recording]
      && db.jobs == old(db.jobs) + [TranscribeVideo(resp.recording)]
    ensures !resp.RecordingCreated? ==> db.recordings == old(db.recordings) && db.jobs == old(db.jobs)
    ensures db.transcriptions == old(db.transcriptions)
  {
    var upload := Upload(disk, req, "videos", Some(id), ffmpeg, concat);
    if upload.False? {
      return CouldNotUpload;
    }
    if !upload.Completed? {
      return ChunkReceived;
    }
    var recording := NewRecording(recordingId, upload, req.title, slug);
    db.SaveRecording(recording);
    db.Dispatch(TranscribeVideo(recording));
    resp := RecordingCreated(recording);
  }

  /** A chunk whose `isLastChunk` input is not the string "true" never creates a recording. */
  lemma OnlyLastChunkCreatesRecording(files: map<string, Content>, req: ChunkRequest, id: string,
                                      ffmpeg: ConcatOutcome, concat: (Content, Content) -> Content,
                                      slug: string -> string, recordingId: string)
    requires !IsLastChunk(req.isLastChunk)
    ensures var u := UploadSpec(files, req, "videos", Some(id), ffmpeg, concat);
      var r := Respond(u.result, req.title, slug, recordingId);
      r.StatusCode() == 200 || r.StatusCode() == 422
  {
    UploadCompletesOnlyOnLastChunk(files, req, "videos", Some(id), ffmpeg, concat);
  }

  /** The first chunk of a video is always accepted: 200, or 201 when it is also the last. */
  lemma FirstChunkIsAccepted(files: map<string, Content>, req: ChunkRequest, id: string,
                             ffmpeg: ConcatOutcome, concat: (Content, Content) -> Content,
                             slug: string -> string, recordingId: string)
    requires OutputPath("videos", FormatName(req.clientName, Some(id))) !in files
    ensures var u := UploadSpec(files, req, "videos", Some(id), ffmpeg, concat);
      var r := Respond(u.result, req.title, slug, recordingId);
      r.StatusCode() == (if IsLastChunk(req.isLastChunk) then 201 else 200)
  {
    UploadFirstChunk(files, req, "videos", Some(id), ffmpeg, concat);
  }

  /** The fallback title, the stored name without its extension, is truthy
      when the route id holds no dot and no slash and the client name no slash. */
  lemma FallbackTitleIsTruthy(id: string, clientName: string)
    requires '.' !in id && '/' !in id && '/' !in clientName
    ensures Truthy(PathinfoFilename(FormatName(clientName, Some(id))))
  {
    var name := FormatName(clientName, Some(id));
    var k := |id|;
    FormatNameHasNoSlash(clientName, Some(id));
    assert name[..k + 1] == id + "_" by {
      assert IdText(Some(id)) == id;
    }
    FilenameKeepsPrefix(name, k);
    var stem := PathinfoFilename(name);
    assert stem[k] == '_' by {
      assert stem[k] == stem[..k + 1][k];
    }
  }

  /** So a completed upload without a title takes its slug from that title. */
  lemma UntitledSlugComesFromTitle(files: map<string, Content>, req: ChunkRequest, id: string,
                                   ffmpeg: ConcatOutcome, concat: (Content, Content) -> Content,
                                   slug: string -> string, recordingId: string)
    requires req.title.None?
    requires '.' !in id && '/' !in id && '/' !in req.clientName
    ensures var u := UploadSpec(files, req, "videos", Some(id), ffmpeg, concat);
      var r := Respond(u.result, req.title, slug, recordingId);
      r.RecordingCreated? ==>
        && r.recording.title == PathinfoFilename(FormatName(req.clientName, Some(id)))
        && r.recording.slug == slug(r.recording.title)
  {
    UploadCompletedRecord(files, req, "videos", Some(id), ffmpeg, concat);
    FallbackTitleIsTruthy(id, req.clientName);
  }
}
