/** FileHelper: the stored file name of an upload, the chunk-by-chunk
    assembly of a video on the public disk, and the numbering of
    transcript segments. */
module FileHelper {
  import opened Php
  import opened Storage
  import opened Models

  // ---------------------------------------------------------------------
  // formatName

  /** What `NormalizeName` does to one character. */
  function NameChar(c: char): char {
    if c == ' ' then '_' else LowerChar(c)
  }

  /** The client's file name as it is stored: lower-cased, spaces replaced by underscores. */
  function NormalizeName(filename: string): (r: string)
    ensures |r| == |filename|
    ensures forall i :: 0 <= i < |filename| ==> r[i] == NameChar(filename[i])
  {
    ReplaceChar(StrToLower(filename), ' ', '_')
  }

  /** A null id is concatenated as the empty string. */
  function IdText(id: Option<string>): string {
    id.Coalesce("")
  }

  /** `formatName($filename, $id)`: the id, an underscore, then the normalised name. */
  function FormatName(filename: string, id: Option<string>): (r: string)
    ensures |r| == |IdText(id)| + 1 + |filename|
    ensures r[..|IdText(id)|] == IdText(id) && r[|IdText(id)|] == '_'
    ensures forall i :: 0 <= i < |filename| ==> r[|IdText(id)| + 1 + i] == NameChar(filename[i])
  {
    var prefix := IdText(id) + "_";
    var normal := NormalizeName(filename);
    assert forall i :: 0 <= i < |filename| ==> (prefix + normal)[|prefix| + i] == normal[i];
    prefix + normal
  }

  /** The normalised part of a stored name holds no space and no upper-case ASCII letter. */
  lemma FormatNameSuffixNormal(filename: string, id: Option<string>)
    ensures var r := FormatName(filename, id);
      forall i :: |IdText(id)| < i < |r| ==> r[i] != ' ' && !IsAsciiUpper(r[i])
  {
    var r := FormatName(filename, id);
    var k := |IdText(id)| + 1;
    forall i | k <= i < |r|
      ensures r[i] != ' ' && !IsAsciiUpper(r[i])
    {
      var j := i - k;
      assert r[k + j] == NameChar(filename[j]);
    }
  }

  /** A stored name has a slash only where the id or the client name has one. */
  lemma FormatNameHasNoSlash(filename: string, id: Option<string>)
    requires '/' !in IdText(id) && '/' !in filename
    ensures '/' !in FormatName(filename, id)
  {
    var r := FormatName(filename, id);
    var k := |IdText(id)|;
    forall i | 0 <= i < |r|
      ensures r[i] != '/'
    {
      if i < k {
        assert r[i] == r[..k][i];
      } else if i > k {
        var j := i - k - 1;
        assert r[k + 1 + j] == NameChar(filename[j]);
      }
    }
  }

  /** Normalising a name twice gives what normalising it once gives. */
  lemma {:induction false} NormalizeNameIdempotent(filename: string)
    ensures NormalizeName(NormalizeName(filename)) == NormalizeName(filename)
  {
    var once := NormalizeName(filename);
    var twice := NormalizeName(once);
    forall i | 0 <= i < |filename|
      ensures twice[i] == once[i]
    {
      assert once[i] == NameChar(filename[i]);
      assert twice[i] == NameChar(once[i]);
    }
  }

  // ---------------------------------------------------------------------
  // upload

  /** A value of the `isLastChunk` input as the request carries it. */
  datatype InputValue = Missing | Text(text: string) | Flag(flag: bool) | Number(number: int)

  /** What one chunk request carries: the `isLastChunk` input, the uploaded
      file's client name and bytes, and the optional `title` input. */
  datatype ChunkRequest = ChunkRequest(
    isLastChunk: InputValue,
    clientName: string,
    chunk: Content,
    title: Option<string>)

  /** What `upload` returns: `false`, `{completed: false}`, or the completed record. */
  datatype UploadResult =
    | False
    | NotCompleted
    | Completed(file: string, fileName: string, fileSize: nat)

  /** How FFmpeg's open, concat and saveFromSameCodecs went: the merged
      video was written to the save path, the call returned a falsy value,
      or it threw an exception before writing anything. */
  datatype ConcatOutcome = Saved | ReturnedFalse | Threw

  /** The disk after an upload, and what the upload returned. */
  datatype UploadStep = UploadStep(files: map<string, Content>, result: UploadResult)

  /** `$request->input('isLastChunk') === 'true'`. */
  predicate IsLastChunk(v: InputValue) {
    v == Text("true")
  }

  function OutputPath(folder: string, name: string): string {
    folder + "/" + name
  }

  function TempPath(name: string): string {
    "temp_recording/" + name
  }

  /** Where FFmpeg writes the merged video: shared by every upload with the same extension. */
  function SavePath(outputPath: string): string {
    OutputPath("videos", "saved" + "." + PathinfoExtension(outputPath))
  }

  /** The result of an upload that did not throw. */
  function Reply(isLastChunk: InputValue, file: string, name: string, size: nat): (r: UploadResult)
    ensures r.Completed? <==> IsLastChunk(isLastChunk)
    ensures r != False
    ensures r.Completed? ==> r.file == file && r.fileName == name && r.fileSize == size
  {
    if IsLastChunk(isLastChunk) then Completed(file, name, size) else NotCompleted
  }

  /** The disk after lines that touch it, and whether they ran without an exception. */
  datatype DiskStep = DiskStep(files: map<string, Content>, ok: bool)

  /** The disk changes of one upload once the paths are known: the chunk is
      written at `output` when nothing is there; otherwise it is staged at
      `temp` and, when FFmpeg saved the merge at `save`, the staging file and
      the old video are unlinked and the merge is renamed onto `output`.
      An exception (FFmpeg's, or the warning of an unlink or rename of a
      missing file) stops the steps where it happens. */
  function StoreChunk(files: map<string, Content>, output: string, temp: string, save: string,
                      chunk: Content, ffmpeg: ConcatOutcome,
                      concat: (Content, Content) -> Content): (r: DiskStep)
    ensures output !in files ==> r.ok && r.files == files[output := chunk]
    ensures r.ok ==> output in r.files
    ensures !r.ok ==> output in files && ffmpeg != ReturnedFalse
  {
    if output !in files then DiskStep(files[output := chunk], true)
    else
      var staged := files[temp := chunk];
      match ffmpeg
      case Threw => DiskStep(staged, false)
      case ReturnedFalse => DiskStep(staged, true)
      case Saved =>
        var merged := staged[save := concat(staged[output], staged[temp])];
        var noTemp := merged - {temp};
        if output !in noTemp then DiskStep(noTemp, false)
        else
          var noOld := noTemp - {output};
          if save !in noOld then DiskStep(noOld, false)
          else DiskStep((noOld - {save})[output := noOld[save]], true)
  }

  /** The effect of `upload($request, $folder, $id)` on the disk and its result. */
  function UploadSpec(files: map<string, Content>, req: ChunkRequest, folder: string,
                      id: Option<string>, ffmpeg: ConcatOutcome,
                      concat: (Content, Content) -> Content): (u: UploadStep)
    ensures u.result.Completed? ==> u.result.file in u.files
    ensures u.result != False ==> OutputPath(folder, FormatName(req.clientName, id)) in u.files
  {
    var name := FormatName(req.clientName, id);
    var output := OutputPath(folder, name);
    var step := StoreChunk(files, output, TempPath(name), SavePath(output), req.chunk, ffmpeg, concat);
    UploadStep(step.files, if step.ok then Reply(req.isLastChunk, output, name, |req.chunk|) else False)
  }

  /** Lines 42-65 of `upload` on the disk: the branch on `file_exists`. */
  method StoreChunkOnDisk(disk: Disk, output: string, temp: string, save: string,
                          chunk: Content, ffmpeg: ConcatOutcome,
                          concat: (Content, Content) -> Content)
    returns (ok: bool)
    modifies disk
    ensures disk.files == StoreChunk(old(disk.files), output, temp, save, chunk, ffmpeg, concat).files
    ensures ok == StoreChunk(old(disk.files), output, temp, save, chunk, ffmpeg, concat).ok
  {
    var present := disk.Exists(output);
    if !present {
      disk.Put(output, chunk);
      return true;
    }
    disk.Put(temp, chunk);
    if ffmpeg == Threw {
      return false;
    }
    if ffmpeg == ReturnedFalse {
      return true;
    }
    disk.Put(save, concat(disk.files[output], disk.files[temp]));
    var removedTemp := disk.Unlink(temp);
    var removedOld := disk.Unlink(output);
    if !removedOld {
      return false;
    }
    ok := disk.Rename(save, output);
  }

  /** `FileHelper::upload`: stores a new chunk, or stages it in
      temp_recording/ and appends it to the existing video with FFmpeg. */
  method Upload(disk: Disk, req: ChunkRequest, folder: string, id: Option<string>,
                ffmpeg: ConcatOutcome, concat: (Content, Content) -> Content)
    returns (r: UploadResult)
    modifies disk
    ensures disk.files == UploadSpec(old(disk.files), req, folder, id, ffmpeg, concat).files
    ensures r == UploadSpec(old(disk.files), req, folder, id, ffmpeg, concat).result
  {
    var isLastChunk := IsLastChunk(req.isLastChunk);
    var name := FormatName(req.clientName, id);
    var size := |req.chunk|;
    var fileName := OutputPath(folder, name);
    var savePath := SavePath(fileName);
    var tempFile := TempPath(name);

    var ok := StoreChunkOnDisk(disk, fileName, tempFile, savePath, req.chunk, ffmpeg, concat);
    if !ok {
      return False;
    }
    if isLastChunk {
      r := Completed(fileName, name, size);
    } else {
      r := NotCompleted;
    }
  }

  /** The staging file and FFmpeg's save path never coincide. */
  lemma TempPathIsNotSavePath(name: string, output: string)
    ensures TempPath(name) != SavePath(output)
  {
    assert TempPath(name)[0] != SavePath(output)[0];
  }

  /** Under the videos folder the output never coincides with the staging file. */
  lemma VideosOutputIsNotTempPath(name: string)
    ensures OutputPath("videos", name) != TempPath(name)
  {
    assert OutputPath("videos", name)[0] != TempPath(name)[0];
  }

  /** Completion depends on the `isLastChunk` input alone. */
  lemma UploadCompletesOnlyOnLastChunk(files: map<string, Content>, req: ChunkRequest, folder: string,
                                       id: Option<string>, ffmpeg: ConcatOutcome,
                                       concat: (Content, Content) -> Content)
    ensures var u := UploadSpec(files, req, folder, id, ffmpeg, concat);
      u.result.Completed? ==> IsLastChunk(req.isLastChunk)
    ensures var u := UploadSpec(files, req, folder, id, ffmpeg, concat);
      u.result != False ==> (u.result.Completed? <==> IsLastChunk(req.isLastChunk))
    ensures var u := UploadSpec(files, req, folder, id, ffmpeg, concat);
      req.isLastChunk in {Flag(true), Text("True"), Text("1"), Number(1), Missing} ==> !u.result.Completed?
  {
  }

  /** An upload touches only its output, staging and save paths: every
      other file keeps its content, and no other file appears. */
  lemma UploadTouchesOnlyItsPaths(files: map<string, Content>, req: ChunkRequest, folder: string,
                                  id: Option<string>, ffmpeg: ConcatOutcome,
                                  concat: (Content, Content) -> Content, p: string)
    ensures var name := FormatName(req.clientName, id);
      var output := OutputPath(folder, name);
      var u := UploadSpec(files, req, folder, id, ffmpeg, concat);
      && (p in files && p != output && p != TempPath(name) && p != SavePath(output) ==> p in u.files && u.files[p] == files[p])
      && (p in u.files ==> p in files || p == output || p == TempPath(name) || p == SavePath(output))
  {
    var name := FormatName(req.clientName, id);
    var output := OutputPath(folder, name);
    StoreChunkTouchesOnly(files, output, TempPath(name), SavePath(output), req.chunk, ffmpeg, concat, p);
  }

  /** The same, for the disk steps once the three paths are known. */
  lemma StoreChunkTouchesOnly(files: map<string, Content>, output: string, temp: string, save: string,
                              chunk: Content, ffmpeg: ConcatOutcome,
                              concat: (Content, Content) -> Content, p: string)
    ensures var r := StoreChunk(files, output, temp, save, chunk, ffmpeg, concat);
      && (p in files && p != output && p != temp && p != save ==> p in r.files && r.files[p] == files[p])
      && (p in r.files ==> p in files || p == output || p == temp || p == save)
  {
  }

  /** A first chunk is written at folder/name and nothing else changes. */
  lemma UploadFirstChunk(files: map<string, Content>, req: ChunkRequest, folder: string,
                         id: Option<string>, ffmpeg: ConcatOutcome,
                         concat: (Content, Content) -> Content)
    requires OutputPath(folder, FormatName(req.clientName, id)) !in files
    ensures var output := OutputPath(folder, FormatName(req.clientName, id));
      var u := UploadSpec(files, req, folder, id, ffmpeg, concat);
      u.files == files[output := req.chunk] && u.result != False
  {
  }

  /** The disk steps of a saved merge, when the three paths differ. */
  lemma MergeSavedOnDisk(files: map<string, Content>, output: string, temp: string, save: string,
                         chunk: Content, concat: (Content, Content) -> Content)
    requires output in files && output != temp && output != save && temp != save
    ensures StoreChunk(files, output, temp, save, chunk, Saved, concat)
         == DiskStep((files - {temp, save})[output := concat(files[output], chunk)], true)
  {
    var staged := files[temp := chunk];
    var merged := staged[save := concat(staged[output], staged[temp])];
    var noOld := merged - {temp} - {output};
    assert noOld[save] == concat(files[output], chunk);
    assert (noOld - {save})[output := noOld[save]]
        == (files - {temp, save})[output := concat(files[output], chunk)];
  }

  /** A later chunk, merged successfully: the output holds the merged video,
      the staging and save files are gone, and no other path changes. */
  lemma UploadAppendsChunk(files: map<string, Content>, req: ChunkRequest, folder: string,
                           id: Option<string>, concat: (Content, Content) -> Content)
    requires var output := OutputPath(folder, FormatName(req.clientName, id));
      output in files && output != TempPath(FormatName(req.clientName, id)) && output != SavePath(output)
    ensures var name := FormatName(req.clientName, id);
      var output := OutputPath(folder, name);
      var u := UploadSpec(files, req, folder, id, Saved, concat);
      && u.files == (files - {TempPath(name), SavePath(output)})[output := concat(files[output], req.chunk)]
      && u.result == Reply(req.isLastChunk, output, name, |req.chunk|)
  {
    var name := FormatName(req.clientName, id);
    var output := OutputPath(folder, name);
    TempPathIsNotSavePath(name, output);
    MergeSavedOnDisk(files, output, TempPath(name), SavePath(output), req.chunk, concat);
  }

  /** A later chunk whose merge did not happen: the output keeps its old
      video and the chunk stays behind in temp_recording/; an exception
      turns the result into `false`. */
  lemma UploadMergeFails(files: map<string, Content>, req: ChunkRequest, folder: string,
                         id: Option<string>, ffmpeg: ConcatOutcome,
                         concat: (Content, Content) -> Content)
    requires ffmpeg != Saved
    requires var output := OutputPath(folder, FormatName(req.clientName, id));
      output in files && output != TempPath(FormatName(req.clientName, id))
    ensures var name := FormatName(req.clientName, id);
      var output := OutputPath(folder, name);
      var u := UploadSpec(files, req, folder, id, ffmpeg, concat);
      && u.files == files[TempPath(name) := req.chunk]
      && u.files[output] == files[output]
      && u.files[TempPath(name)] == req.chunk
      && (u.result == False <==> ffmpeg == Threw)
  {
  }

  /** A completed upload reports folder/name, the stored name and the size of this chunk alone. */
  lemma UploadCompletedRecord(files: map<string, Content>, req: ChunkRequest, folder: string,
                              id: Option<string>, ffmpeg: ConcatOutcome,
                              concat: (Content, Content) -> Content)
    ensures var u := UploadSpec(files, req, folder, id, ffmpeg, concat);
      u.result.Completed? ==>
        && u.result.file == folder + "/" + FormatName(req.clientName, id)
        && u.result.fileName == FormatName(req.clientName, id)
        && u.result.fileSize == |req.chunk|
  {
  }

  /** Even when FFmpeg's merge were plain byte concatenation, the size
      reported for the last of two chunks is smaller than the stored video. */
  lemma ReportedSizeIsLastChunkOnly(files: map<string, Content>, req: ChunkRequest, folder: string,
                                    id: Option<string>)
    requires IsLastChunk(req.isLastChunk)
    requires var output := OutputPath(folder, FormatName(req.clientName, id));
      output in files && |files[output]| > 0
      && output != TempPath(FormatName(req.clientName, id)) && output != SavePath(output)
    ensures var output := OutputPath(folder, FormatName(req.clientName, id));
      var u := UploadSpec(files, req, folder, id, Saved, (a: Content, b: Content) => a + b);
      u.result.Completed? && u.result.fileSize < |u.files[output]|
  {
    UploadAppendsChunk(files, req, folder, id, (a: Content, b: Content) => a + b);
  }

  /** When the stored name's extension makes folder/name equal to the save
      path, a merged chunk deletes the video and the upload returns `false`. */
  lemma SavePathCollisionLosesVideo(files: map<string, Content>, req: ChunkRequest,
                                    id: Option<string>, concat: (Content, Content) -> Content)
    requires var output := OutputPath("videos", FormatName(req.clientName, id));
      output in files && output == SavePath(output)
    ensures var output := OutputPath("videos", FormatName(req.clientName, id));
      var u := UploadSpec(files, req, "videos", id, Saved, concat);
      u.result == False && output !in u.files
  {
    VideosOutputIsNotTempPath(FormatName(req.clientName, id));
  }

  /** Every stored name `saved.<ext>` collides, for a dot-free, slash-free extension. */
  lemma StoredAsSavedCollides(ext: string)
    requires '/' !in ext && '.' !in ext
    ensures var output := OutputPath("videos", "saved" + "." + ext);
      output == SavePath(output)
  {
    ExtensionOf("videos", "saved", ext);
  }

  /** Such a name exists: route id "saved.x" and client name "clip". */
  lemma SavePathCollisionExample()
    ensures var output := OutputPath("videos", FormatName("clip", Some("saved.x")));
      output == SavePath(output)
  {
    CollidingName();
    StoredAsSavedCollides("x_clip");
  }

  /** The stored name for route id "saved.x" and client name "clip" is `saved.x_clip`. */
  lemma CollidingName()
    ensures FormatName("clip", Some("saved.x")) == "saved" + "." + "x_clip"
  {
    var clip := NormalizeName("clip");
    assert clip[0] == NameChar('c') && clip[1] == NameChar('l');
    assert clip[2] == NameChar('i') && clip[3] == NameChar('p');
    assert clip == "clip";
  }

  /** The "saved" part of a save path has no `_`. */
  lemma SavedHasNoUnderscore(ext: string)
    ensures forall i :: 7 <= i < 12 ==> OutputPath("videos", "saved" + "." + ext)[i] != '_'
  {
    var save := OutputPath("videos", "saved" + "." + ext);
    forall i | 7 <= i < 12
      ensures save[i] != '_'
    {
      assert save[i] == "saved"[i - 7];
    }
  }

  /** A client file name with a dot never collides: the last dot of the
      stored name then follows the `_` after the id, and "saved" has no `_`. */
  lemma DottedClientNameNeverCollides(clientName: string, id: Option<string>)
    requires '.' in clientName
    ensures var output := OutputPath("videos", FormatName(clientName, id));
      output != SavePath(output)
  {
    var name := FormatName(clientName, id);
    var k := |IdText(id)|;
    var j :| 0 <= j < |clientName| && clientName[j] == '.';
    assert k + 1 + j < |name| && name[k] == '_' && name[k + 1 + j] == '.' by {
      assert name[k + 1 + j] == NameChar(clientName[j]);
    }
    UnderscoreBeforeDotNeverCollides(name, k, k + 1 + j);
  }

  /** A stored name with an `_` somewhere before a dot is not `saved.<ext>`. */
  lemma UnderscoreBeforeDotNeverCollides(name: string, u: nat, d: nat)
    requires u < d < |name| && name[u] == '_' && name[d] == '.'
    ensures OutputPath("videos", name) != SavePath(OutputPath("videos", name))
  {
    var output := OutputPath("videos", name);
    assert output[7 + u] == name[u] && output[7 + d] == name[d];
    DotBeforeExtension(output, 7 + d);
    NotSavedName(output, PathinfoExtension(output), u, d);
  }

  /** `videos/saved.<ext>` has no `_` at 7 + u when a dot follows it at 7 + d, before the extension. */
  lemma NotSavedName(output: string, ext: string, u: nat, d: nat)
    requires u < d && 7 + d + |ext| < |output| && output[7 + u] == '_'
    ensures output != OutputPath("videos", "saved" + "." + ext)
  {
    if d <= 5 && |output| == 13 + |ext| {
      SavedHasNoUnderscore(ext);
      assert OutputPath("videos", "saved" + "." + ext)[7 + u] != '_';
    }
  }

  // ---------------------------------------------------------------------
  // transcribeInSegment

  /** One segment of the transcription service's answer. */
  datatype Segment = Segment(start: real, end: real, text: string)

  /** The rows `transcribeInSegment` creates for `segments`, numbered from 1. */
  function SegmentRows(recordingId: string, segments: seq<Segment>): (r: seq<Transcription>)
    ensures |r| == |segments|
    ensures forall k :: 0 <= k < |r| ==> r[k].recordingId == recordingId && r[k].position == k + 1
  {
    if segments == [] then []
    else
      var last := segments[|segments| - 1];
      SegmentRows(recordingId, segments[..|segments| - 1])
        + [Transcription(recordingId, |segments|, last.start, last.end, last.text)]
  }

  /** One row per segment, in input order: segment i gets position i + 1
      and its start, end and text. */
  lemma {:induction false} SegmentRowsAt(recordingId: string, segments: seq<Segment>, i: int)
    requires 0 <= i < |segments|
    ensures SegmentRows(recordingId, segments)[i]
         == Transcription(recordingId, i + 1, segments[i].start, segments[i].end, segments[i].text)
  {
    if i < |segments| - 1 {
      SegmentRowsAt(recordingId, segments[..|segments| - 1], i);
    }
  }

  /** `transcribeInSegment($recording, $segments)`: one transcription per segment, counter from 1. */
  method TranscribeInSegment(db: Database, recording: Recording, segments: seq<Segment>)
    modifies db
    ensures db.transcriptions == old(db.transcriptions) + SegmentRows(recording.id, segments)
    ensures db.recordings == old(db.recordings) && db.jobs == old(db.jobs)
  {
    var x := 1;
    for i := 0 to |segments|
      invariant x == i + 1
      invariant db.transcriptions == old(db.transcriptions) + SegmentRows(recording.id, segments[..i])
      invariant db.recordings == old(db.recordings) && db.jobs == old(db.jobs)
    {
      var segment := segments[i];
      db.CreateTranscription(Transcription(recording.id, x, segment.start, segment.end, segment.text));
      assert segments[..i + 1][..i] == segments[..i];
      x := x + 1;
    }
    assert segments[..|segments|] == segments;
  }
}
