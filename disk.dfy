/**
 * The file system as the converter sees it: a map from path to file
 * contents, with the four operations it uses (existence test, copy, read,
 * delete) and the save that closes the workbook writer.
 */
module Disk {
  import opened Wrappers

  type Bytes = seq<bv8>

  /** Every file, by path. */
  type Files = map<string, Bytes>

  class FileSystem {
    var files: Files

    constructor (initial: Files)
      ensures files == initial
    {
      files := initial;
    }

    /** `Path.exists`. */
    method Exists(path: string) returns (b: bool)
      ensures b <==> path in files
    {
      b := path in files;
    }

    /** Reading a whole file; None when there is no such file (FileNotFoundError). */
    method Read(path: string) returns (content: Option<Bytes>)
      ensures content.Some? <==> path in files
      ensures content.Some? ==> content.value == files[path]
    {
      content := if path in files then Some(files[path]) else None;
    }

    /**
     * `shutil.copy(src, dst)`: `dst` gets the bytes of `src`. It raises (and
     * copies nothing) when `src` does not exist or is `dst` itself.
     */
    method Copy(src: string, dst: string) returns (ok: bool)
      modifies this
      ensures ok <==> src in old(files) && src != dst
      ensures files == if ok then old(files)[dst := old(files)[src]] else old(files)
    {
      ok := src in files && src != dst;
      if ok {
        files := files[dst := files[src]];
      }
    }

    /** Writing a whole file, as the workbook writer does when it closes. */
    method Save(path: string, content: Bytes)
      modifies this
      ensures files == old(files)[path := content]
    {
      files := files[path := content];
    }

    /** `Path.unlink(missing_ok=True)`: the file is gone afterwards, and a missing file is no error. */
    method Unlink(path: string)
      modifies this
      ensures files == old(files) - {path}
    {
      files := files - {path};
    }
  }
}
