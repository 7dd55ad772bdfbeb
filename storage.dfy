/** The application's `public` disk: every file under storage/app/public,
    keyed by its path relative to that directory. `file_exists`, `Storage::put`,
    `unlink` and `rename` all act on it. */
module Storage {

  /** The bytes of a stored file. */
  type Content = seq<bv8>

  class Disk {
    var files: map<string, Content>

    /** `file_exists($path)`. */
    method Exists(path: string) returns (b: bool)
      ensures b <==> path in files
    {
      b := path in files;
    }

    /** `Storage::disk('public')->put($path, $data)`: creates or overwrites the file. */
    method Put(path: string, data: Content)
      modifies this
      ensures files == old(files)[path := data]
    {
      files := files[path := data];
    }

    /** `unlink($path)`: removes the file; false when there is no such file
        (PHP raises a warning then). */
    method Unlink(path: string) returns (ok: bool)
      modifies this
      ensures ok <==> path in old(files)
      ensures files == old(files) - {path}
    {
      ok := path in files;
      files := files - {path};
    }

    /** `rename($from, $to)`: moves the file, replacing whatever was at `to`;
        false and no change when there is nothing at `from` (PHP raises a warning then). */
    method Rename(from: string, to: string) returns (ok: bool)
      modifies this
      ensures ok <==> from in old(files)
      ensures ok ==> files == (old(files) - {from})[to := old(files)[from]]
      ensures !ok ==> files == old(files)
    {
      ok := from in files;
      if ok {
        files := (files - {from})[to := files[from]];
      }
    }
  }
}
