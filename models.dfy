/** The persisted records (the Eloquent models Recording and Transcription)
    and the queued TranscribeVideo job, with the database and the queue as
    one object whose tables grow as rows are saved and jobs dispatched. */
module Models {

  datatype Recording = Recording(
    id: string,
    title: string,
    fileLocation: string,
    fileSize: nat,
    fileName: string,
    slug: string)

  /** One timed segment of a recording's transcript; `position` counts from 1. */
  datatype Transcription = Transcription(
    recordingId: string,
    position: nat,
    start: real,
    end: real,
    description: string)

  /** A job handed to the queue. */
  datatype Job = TranscribeVideo(recording: Recording)

  class Database {
    var recordings: seq<Recording>
    var transcriptions: seq<Transcription>
    var jobs: seq<Job>

    /** `$recording->save()` for a new record. */
    method SaveRecording(r: Recording)
      modifies this
      ensures recordings == old(recordings) + [r]
      ensures transcriptions == old(transcriptions) && jobs == old(jobs)
    {
      recordings := recordings + [r];
    }

    /** `$recording->transcriptions()->create([...])`. */
    method CreateTranscription(t: Transcription)
      modifies this
      ensures transcriptions == old(transcriptions) + [t]
      ensures recordings == old(recordings) && jobs == old(jobs)
    {
      transcriptions := transcriptions + [t];
    }

    /** `Job::dispatch(...)`: the job is queued, not run. */
    method Dispatch(j: Job)
      modifies this
      ensures jobs == old(jobs) + [j]
      ensures recordings == old(recordings) && transcriptions == old(transcriptions)
    {
      jobs := jobs + [j];
    }
  }
}
