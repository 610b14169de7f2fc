/**
 * The part of the file system the processors touch: a map from path to
 * content, changed in place by the calls the processors make.
 */
module Files {

  class FileStore {
    var files: map<string, string>

    constructor (initial: map<string, string>)
      ensures files == initial
    {
      files := initial;
    }

    /** `File.open(path, 'w')`: creates the file, or empties an existing one. */
    method OpenForWrite(path: string)
      modifies this
      ensures files == old(files)[path := ""]
    {
      files := files[path := ""];
    }

    /** `IO#write` on a file opened for writing: appends at the end. */
    method Append(path: string, text: string)
      requires path in files
      modifies this
      ensures files == old(files)[path := old(files)[path] + text]
    {
      files := files[path := files[path] + text];
    }

    /** `FileUtils.rm`, on a file that exists. */
    method Remove(path: string)
      requires path in files
      modifies this
      ensures files == old(files) - {path}
    {
      files := files - {path};
    }

    /** `FileUtils.mv`, of a file that exists, onto any path. */
    method Move(from: string, to: string)
      requires from in files
      modifies this
      ensures files == (old(files) - {from})[to := old(files)[from]]
    {
      files := (files - {from})[to := files[from]];
    }
  }
}
