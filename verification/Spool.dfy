/** The spool directory (internal/pgbackrest/spool/spool.go). */
module Spool {
  import opened Wrappers
  import opened Paths

  /** What a file holds. */
  type Content = seq<bv8>

  /** The files of the spool directory, by name. */
  type Files = map<string, Content>

  datatype SpoolError = NonExistentFile | FileSystemError

  /** An empty file under the last element of the path. */
  function Touched(files: Files, walFile: string): Files {
    files[Base(walFile) := []]
  }

  function Removed(files: Files, walFile: string): Files {
    files - {Base(walFile)}
  }

  /**
   * The parameter `works` of each operation says whether the operating system
   * carries the operation out; a file that does not exist is reported either way.
   */
  class WALSpool {
    var files: Files

    constructor ()
      ensures files == map[]
    {
      files := map[];
    }

    /** Whether a file with the path's last element is in the spool. */
    method Contains(walFile: string, works: bool) returns (r: Result<bool, SpoolError>)
      ensures r == if works then Ok(Base(walFile) in files) else Err(FileSystemError)
    {
      if !works {
        return Err(FileSystemError);
      }
      r := Ok(Base(walFile) in files);
    }

    /** Removes a file of the spool; it is an error when there is none. */
    method Remove(walFile: string, works: bool) returns (err: Option<SpoolError>)
      modifies this
      ensures Base(walFile) !in old(files) ==> err == Some(NonExistentFile) && files == old(files)
      ensures Base(walFile) in old(files) && !works ==> err == Some(FileSystemError) && files == old(files)
      ensures Base(walFile) in old(files) && works ==> err == None && files == Removed(old(files), walFile)
    {
      if Base(walFile) !in files {
        return Some(NonExistentFile);
      }
      if !works {
        return Some(FileSystemError);
      }
      files := files - {Base(walFile)};
      err := None;
    }

    /** Creates an empty file, or empties the one that is there. */
    method Touch(walFile: string, works: bool) returns (err: Option<SpoolError>)
      modifies this
      ensures err == if works then None else Some(FileSystemError)
      ensures files == if works then Touched(old(files), walFile) else old(files)
    {
      if !works {
        return Some(FileSystemError);
      }
      files := files[Base(walFile) := []];
      err := None;
    }

    /** Moves a file out of the spool and hands over its content. The name is not reduced to its last element. */
    method MoveOut(walName: string, works: bool) returns (r: Result<Content, SpoolError>)
      modifies this
      ensures walName !in old(files) ==> r == Err(NonExistentFile)
      ensures walName in old(files) && !works ==> r == Err(FileSystemError)
      ensures walName in old(files) && works ==> r == Ok(old(files)[walName])
      ensures files == if r.Ok? then old(files) - {walName} else old(files)
    {
      if walName !in files {
        return Err(NonExistentFile);
      }
      if !works {
        return Err(FileSystemError);
      }
      r := Ok(files[walName]);
      files := files - {walName};
    }
  }

  /** A touched marker is found again under any path to the name, and removing it undoes the touch of a new name. */
  lemma TouchThenRemove(files: Files, walFile: string, dir: string)
    requires Plain(walFile) && walFile !in files
    ensures walFile in Touched(files, Join(dir, walFile))
    ensures Removed(Touched(files, Join(dir, walFile)), walFile) == files
  {
    hide Base, Join;
    BaseOfPlain(walFile);
    BaseOfJoin(dir, walFile);
  }
}
