# Chunked screen-recording upload: a Dafny model

This project models the core of a small Laravel backend that receives screen
recordings in chunks. It covers three parts.

- `FileHelper::formatName` builds the stored file name: the route id, an
  underscore, then the client's file name lower-cased with spaces turned
  into underscores.
- `FileHelper::upload` handles one chunk. If `folder/name` is not yet on
  the public disk, the chunk is written there. Otherwise the chunk is staged
  at `temp_recording/name`, and FFmpeg merges the two videos into
  `videos/saved.<ext>`. The staging file and the old video are then deleted,
  and the merge is renamed onto `folder/name`. The call returns `false` on
  an exception, `{completed: false}`, or a completed record.
- `FileHelper::transcribeInSegment` stores one transcription per segment,
  numbered from 1.

It also covers `RecordingController::store`, which turns the upload result
into a response:
- 422 when the upload failed;
- 200 while chunks are still coming;
- 201 on the last chunk, after it saves one `Recording` and queues one
  `TranscribeVideo` job.

Modules, one per source unit:

- `Php` (php.dfy) has the PHP built-ins the code relies on: nullable values
  and `??`, `strtolower`, `str_replace` of one character, `basename`,
  `pathinfo` and string truthiness.
- `Storage` (storage.dfy) is the `public` disk, a class whose `files` map
  goes from relative path to bytes. It has `file_exists`, `Storage::put`,
  `unlink` and `rename`.
- `Models` (models.dfy) has the Recording and Transcription records and the
  TranscribeVideo job. The database and the queue are one class whose
  sequences grow.
- `FileHelper` (file_helper.dfy) holds `formatName`, `upload` and
  `transcribeInSegment`. `upload` is a method that modifies the disk, proved against
  the pure function `UploadSpec`. The lemmas state what one upload does.
- `RecordingController` (recording_controller.dfy) holds `store`. The
  response decision is a pure function, `Respond`. The method `Store`
  performs the upload, the save and the dispatch.

How outside services are modelled:

- **FFmpeg.** The video merge is the parameter `concat`, an arbitrary
  function, so the model never assumes byte concatenation. How FFmpeg's
  calls went is the parameter `ffmpeg`:
  - `Saved`: the merge was written;
  - `ReturnedFalse`: the call returned a falsy value;
  - `Threw`: an exception was thrown.
- **`Str::slug`.** It is the parameter `slug`.
- **The new record's UUID.** It is the parameter `recordingId`.

## Model

| member | source | states |
|---|---|---|
| `Php.LowerChar` | app/Helpers/FileHelper.php:17 | `strtolower` on one character, as PHP 8.2 defines it: the result is never A-Z, only A-Z change, and a space stays a space. |
| `Php.StrToLower` | app/Helpers/FileHelper.php:17 | `strtolower` keeps the length and lowers each character on its own. Only A-Z change. |
| `Php.ReplaceChar` | app/Helpers/FileHelper.php:17 | `str_replace` of one character keeps the length and replaces exactly the matching positions. |
| `Php.LastIndexOf` | app/Helpers/FileHelper.php:37 | The result is -1 or an index holding `c`, and no later index holds `c`. So -1 means `c` does not occur. |
| `Php.LastIndexOfSplit` | app/Helpers/FileHelper.php:37 | In `u + [c] + t` with no `c` in `t`, the last `c` is the one right after `u`. |
| `Php.Option.Coalesce` | app/Http/Controllers/Api/V1/RecordingController.php:252 | `??` gives the value when it is not null, else the fallback. |
| `Php.Truthy` | app/Http/Controllers/Api/V1/RecordingController.php:256 | Definition: a string is truthy unless it is "" or "0". |
| `Php.Basename` | app/Helpers/FileHelper.php:37 | The base name is the last path component. It has no slash. When the path has a slash, the base name is a suffix of the path with a slash right before it. A path without a slash is its own base name. |
| `Php.PathinfoExtension` | app/Helpers/FileHelper.php:37 | The extension has no dot and no slash. It is empty when the base name has no dot. |
| `Php.ExtensionIsSuffix` | app/Helpers/FileHelper.php:37 | The extension is a suffix of the path. |
| `Php.DotBeforeExtension` | app/Helpers/FileHelper.php:37 | Every dot of the path lies before the extension. |
| `Php.ExtensionOf` | app/Helpers/FileHelper.php:37-38 | The extension of `dir/stem.ext` is `ext` (no slash in `stem` or `ext`, no dot in `ext`). |
| `Php.PathinfoFilename` | app/Http/Controllers/Api/V1/RecordingController.php:252 | The file name, a dot and the extension give back the base name. With no dot, the file name is the base name. |
| `Php.FilenameKeepsPrefix` | app/Http/Controllers/Api/V1/RecordingController.php:252 | For a path without a slash, the file name keeps any dot-free prefix. |
| `FileHelper.IdText` | app/Helpers/FileHelper.php:17 | Definition: a null `$id` concatenates as the empty string, any other id as itself. |
| `FileHelper.FormatName` | app/Helpers/FileHelper.php:15-18 | The result is the id, then `_`, then each character of the name with a space made `_` and A-Z lowered. A null id adds nothing. Length: the id's length plus 1 plus the name's length. |
| `FileHelper.NormalizeName` | app/Helpers/FileHelper.php:17 | The normalised name has the same length, and each position holds the normalised character: a space becomes `_` and A-Z are lowered. |
| `FileHelper.FormatNameSuffixNormal` | app/Helpers/FileHelper.php:17 | After the id and `_`, a stored name has no space and no upper-case ASCII letter. |
| `FileHelper.FormatNameHasNoSlash` | app/Helpers/FileHelper.php:15-18 | A stored name has no slash when neither the id nor the client name has one. |
| `FileHelper.NormalizeNameIdempotent` | app/Helpers/FileHelper.php:17 | Lower-casing and replacing spaces twice gives the same result as doing it once. |
| `FileHelper.IsLastChunk` | app/Helpers/FileHelper.php:28 | Definition: the strict comparison `=== 'true'`, so only the input string "true" marks the last chunk. |
| `FileHelper.OutputPath` | app/Helpers/FileHelper.php:35 | Definition: `$folderName . "/" . $name`. |
| `FileHelper.TempPath` | app/Helpers/FileHelper.php:43 | Definition: `"temp_recording/" . $name`. |
| `FileHelper.SavePath` | app/Helpers/FileHelper.php:37-38 | Definition: `videos/saved.` followed by the output path's extension, whatever the output's folder and stem. |
| `FileHelper.Reply` | app/Helpers/FileHelper.php:67-76 | Without an exception, the result is completed exactly on the last chunk. A completed result carries the path, the name and the size it was given. |
| `FileHelper.StoreChunk` | app/Helpers/FileHelper.php:42-65 | A first chunk is put at the output and nothing fails. When the steps end without an exception, a file is at the output. An exception happens only when the output already existed and FFmpeg did not return false: FFmpeg threw, or an unlink or rename met a missing file. |
| `FileHelper.UploadSpec` | app/Helpers/FileHelper.php:26-82 | A completed result names a file that is on the disk afterwards. Any result other than `false` leaves a file at `folder/name`. |
| `FileHelper.UploadTouchesOnlyItsPaths` | app/Helpers/FileHelper.php:42-65 | An upload changes only `folder/name`, `temp_recording/name` and `videos/saved.<ext>`. Every other file keeps its content, and no other file appears. |
| `FileHelper.StoreChunkTouchesOnly` | app/Helpers/FileHelper.php:42-65 | The same for the disk steps once the three paths are known. |
| `FileHelper.StoreChunkOnDisk` | app/Helpers/FileHelper.php:42-65 | The disk after the `file_exists` branch (put, FFmpeg, unlink, unlink, rename) and whether it ran without an exception, both as `StoreChunk` defines them. |
| `FileHelper.Upload` | app/Helpers/FileHelper.php:26-82 | The new disk and the returned value are those of `UploadSpec` applied to the old disk. |
| `FileHelper.TempPathIsNotSavePath` | app/Helpers/FileHelper.php:38-43 | The staging path and FFmpeg's save path never coincide. |
| `FileHelper.VideosOutputIsNotTempPath` | app/Helpers/FileHelper.php:35-43 | In the videos folder, the output path never coincides with the staging path. |
| `FileHelper.UploadCompletesOnlyOnLastChunk` | app/Helpers/FileHelper.php:28-76 | A result is completed only when `isLastChunk` is "true". Unless the result is `false`, it is completed exactly then. A boolean true, "True", "1", the number 1 or a missing input never completes an upload. |
| `FileHelper.UploadFirstChunk` | app/Helpers/FileHelper.php:35-65 | When `folder/name` is absent, the chunk is stored exactly there and no other path changes. The result is not `false`. |
| `FileHelper.UploadAppendsChunk` | app/Helpers/FileHelper.php:42-60 | After a successful merge, `folder/name` holds `concat(old, chunk)`. The staging file and the save file are gone, and no other path changes. This needs the output path to differ from both. |
| `FileHelper.UploadMergeFails` | app/Helpers/FileHelper.php:45-60 | When the merge is not saved, the old video stays and the chunk remains in `temp_recording/`. The result is `false` exactly when FFmpeg threw. |
| `FileHelper.UploadCompletedRecord` | app/Helpers/FileHelper.php:32-35 | A completed result has `file = folder/name`, `fileName = name`, and `fileSize` equal to this chunk's size. |
| `FileHelper.ReportedSizeIsLastChunkOnly` | app/Helpers/FileHelper.php:33-71 | Even if the merge were byte concatenation, the size reported for the last chunk is smaller than the stored video. |
| `FileHelper.SavePathCollisionLosesVideo` | app/Helpers/FileHelper.php:37-81 | When `videos/name` equals `videos/saved.<ext>`, a saved merge deletes the video and the upload returns `false`. |
| `FileHelper.StoredAsSavedCollides` | app/Helpers/FileHelper.php:35-38 | Every stored name `saved.<ext>` with a dot-free, slash-free extension makes the output path equal the save path. |
| `FileHelper.SavePathCollisionExample` | app/Helpers/FileHelper.php:15-38 | Route id "saved.x" with client name "clip" makes the output path equal the save path. |
| `FileHelper.DottedClientNameNeverCollides` | app/Helpers/FileHelper.php:15-38 | When the client file name has a dot, the output path never equals the save path. |
| `FileHelper.UnderscoreBeforeDotNeverCollides` | app/Helpers/FileHelper.php:35-38 | A stored name with an `_` somewhere before a dot never makes the output path equal the save path. |
| `FileHelper.SegmentRows` | app/Helpers/FileHelper.php:119-131 | There is one row per segment. Row k belongs to the recording and has position k+1. |
| `FileHelper.SegmentRowsAt` | app/Helpers/FileHelper.php:119-131 | There is one row per segment, in input order. Segment i has position i+1, and its start, end and text are copied into start, end and description. |
| `FileHelper.TranscribeInSegment` | app/Helpers/FileHelper.php:119-131 | The transcriptions table grows by exactly those rows. Nothing else changes. |
| `Storage.Disk.Exists` | app/Helpers/FileHelper.php:42 | `file_exists` is true exactly when the path is on the disk. |
| `Storage.Disk.Put` | app/Helpers/FileHelper.php:45-64 | `put` creates or overwrites one path and changes nothing else. |
| `Storage.Disk.Unlink` | app/Helpers/FileHelper.php:56-58 | `unlink` removes the path. It succeeds only when the path was there. |
| `Storage.Disk.Rename` | app/Helpers/FileHelper.php:59 | `rename` moves the content to the target, replacing what was there. With nothing at the source, it fails and changes nothing. |
| `Models.Database.CreateTranscription` | app/Helpers/FileHelper.php:123-128 | One transcription row is appended. The other tables are unchanged. |
| `Models.Database.SaveRecording` | app/Http/Controllers/Api/V1/RecordingController.php:261 | One recording row is appended. The other tables are unchanged. |
| `Models.Database.Dispatch` | app/Http/Controllers/Api/V1/RecordingController.php:263 | One job is queued. The tables are unchanged. |
| `RecordingController.Response.StatusCode` | app/Http/Controllers/Api/V1/RecordingController.php:238-273 | The status is 422, 200 or 201, and 201 exactly for a created recording. |
| `RecordingController.Response.Message` | app/Http/Controllers/Api/V1/RecordingController.php:238-273 | Definition: the message text of each of the three responses. |
| `RecordingController.NewRecording` | app/Http/Controllers/Api/V1/RecordingController.php:250-256 | The title is the request title when present, otherwise the stored name without its extension. Location, size and name are the upload's, unchanged. The slug is `slug(title)` when the title is truthy, else `slug(file_name)`. |
| `RecordingController.Respond` | app/Http/Controllers/Api/V1/RecordingController.php:236-274 | 422 exactly when the upload returned `false`, 200 exactly when it is not completed, 201 exactly when it is completed. A recording is built only on 201. |
| `RecordingController.Store` | app/Http/Controllers/Api/V1/RecordingController.php:228-274 | The disk and the response follow `UploadSpec` and `Respond`. On 201, exactly one recording is saved and one TranscribeVideo job for it is queued. Otherwise nothing is saved or queued. |
| `RecordingController.OnlyLastChunkCreatesRecording` | app/Http/Controllers/Api/V1/RecordingController.php:236-246 | A chunk whose `isLastChunk` is not "true" gets 200 or 422, never 201. |
| `RecordingController.FirstChunkIsAccepted` | app/Http/Controllers/Api/V1/RecordingController.php:236-246 | The first chunk of a video always gets 201 if it is the last chunk, otherwise 200. |
| `RecordingController.FallbackTitleIsTruthy` | app/Http/Controllers/Api/V1/RecordingController.php:252-256 | With no dot or slash in the id and no slash in the client name, the fallback title is neither "" nor "0". |
| `RecordingController.UntitledSlugComesFromTitle` | app/Http/Controllers/Api/V1/RecordingController.php:252-256 | Under those conditions, a created recording without a request title takes the fallback title, and its slug comes from that title. |

## Behaviour of the code worth knowing

- Completion depends only on the input string "true". A JSON boolean `true` never completes an upload.
- The `fileSize` saved with a recording is the size of the last chunk, not of the assembled video.
- A route id with a dot can make the fallback title falsy. Route id `0.x` with client name `a` gives the stored name `0.x_a`, whose `PATHINFO_FILENAME` is `0`. That title is falsy, so the slug then comes from the file name.
- A merge that is not saved leaves the chunk in `temp_recording/`, and the old video stays as it was.
- FFmpeg's save path `videos/saved.<ext>` is shared by every upload with that extension.
- With a route id such as `saved.x` and a client file name without a dot, the save path equals the output path. A merged chunk then deletes the video, and the request gets 422. A client file name with a dot, such as `clip.webm`, never causes this.

## Left out

- Request validation (RecordingController.php:230-233) and the 422 it produces are left out. The model starts after validation has passed.
- The merge itself is not modelled. FFmpeg's work is the `concat` parameter, and its success is the `ffmpeg` parameter. A merge that throws is taken to write nothing.
- `Log::error($e)` in the catch block is not modelled. Logging has no effect on the disk or the result.
- Some failures are not modelled, such as a failing `file_get_contents`, a `Storage::put` that returns false, or a full disk. `put` always succeeds. Only FFmpeg and the warning from an `unlink` or `rename` of a missing file count as exceptions.
- When the uploaded file is missing, PHP raises an `Error` that the `catch (\Exception)` does not catch. Validation rules this case out, and it is not modelled.
- `Php.LowerChar`: this is `strtolower` as PHP 8.2 defines it (ASCII only). Older PHP versions that depend on the locale are not modelled.
- `Php.Basename`: trailing slashes and backslashes are not handled. Stored names never end in a slash.
- Input values are simplified. `isLastChunk` is missing, a string, a boolean or a number, and arrays are not modelled. The title is a string or null; an empty title reaches the controller as null.
- Segments always carry start, end and text. A segment missing a key would throw inside the queued job; that is not modelled.
- Concurrency is not modelled. This covers two simultaneous chunks racing between `file_exists` and the rename, and the shared save and staging paths. Each upload is one sequential step.
- `DB::transaction` rollback and a failing `save()` are not modelled.
- The `echo` after the dispatch, which writes into the response body, is not modelled.
- The RabbitMQ transport is not modelled. The model only says one job was queued.
- `Str::slug`, UUID generation and the created_at timestamps are parameters or left out.
- `transcribeVideo` is left out because it calls the transcription API over HTTP.
- `generateThumbnail` and the `test` action are left out because they call FFmpeg.
- `index`, `show`, `destroy` and the JSON shaping in RecordingResource are left out because they wrap ORM queries.
