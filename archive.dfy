/** The file system as the processor touches it, and `shutil.move` as
    `move_and_rename_file` uses it. Files are a map from path to content;
    directories are a set of paths, needed only because moving onto an
    existing directory puts the file inside it. */
module Archive {
  import opened Wrappers
  import opened Text
  import opened Naming

  /** What the environment does to one move or write that the model cannot
      decide: it goes through, the OS refuses it for lack of permission, or it
      fails in another way (a full disk, a vanished folder, ...). */
  datatype Fault = Clean | Denied | Broken

  /** The exceptions a move can end in. */
  datatype MoveError =
    | SourceNotFound      // the pre-check at csv_processor.py:184, or shutil's own
    | PermissionDenied    // PermissionError
    | MoveFailed          // any other exception of shutil.move
    | MoveUnconfirmed     // the post-check at csv_processor.py:207

  type Files = map<string, seq<char>>

  /** The state after one `shutil.move(src, dst)` and the error it raised, if
      any. An existing directory at `dst` receives the file under its base
      name, unless a file or directory of that name is already inside it; a
      file at a `dst` that is not a directory is replaced. */
  datatype Moved = Moved(files: Files, error: Option<MoveError>)

  /** Where `shutil.move(src, dst)` puts the file. */
  function Landing(dirs: set<string>, src: string, dst: string): string
  {
    if dst in dirs then Join(dst, Basename(src)) else dst
  }

  /** A file moved onto a directory keeps its base name inside it; moved
      onto anything else it lands at `dst` itself. */
  lemma LandingName(dirs: set<string>, src: string, dst: string)
    ensures dst !in dirs ==> Landing(dirs, src, dst) == dst
    ensures dst in dirs && Basename(src) != [] ==> Basename(Landing(dirs, src, dst)) == Basename(src)
  {
    if dst in dirs && Basename(src) != [] {
      BasenameShape(src);
      BasenameOfJoin(dst, Basename(src));
    }
  }

  function ShutilMove(files: Files, dirs: set<string>, src: string, dst: string, fault: Fault): (m: Moved)
    ensures m.error.Some? ==> m.files == files
    ensures m.error.None? ==> src in files && fault.Clean?
  {
    if src !in files then Moved(files, Some(SourceNotFound))
    else if fault == Denied then Moved(files, Some(PermissionDenied))
    else if fault == Broken then Moved(files, Some(MoveFailed))
    else
      var at := Landing(dirs, src, dst);
      if dst in dirs && (at in files || at in dirs) then Moved(files, Some(MoveFailed))
      else Moved((files - {src})[at := files[src]], None)
  }

  /** A move that goes through puts the content at the landing path, removes
      the source unless it is the landing path, and leaves every other path
      alone. */
  lemma ShutilMoveEffect(files: Files, dirs: set<string>, src: string, dst: string, fault: Fault)
    ensures var m := ShutilMove(files, dirs, src, dst, fault);
      m.error.None? ==>
        var at := Landing(dirs, src, dst);
        && at in m.files && m.files[at] == files[src]
        && (src != at ==> src !in m.files)
        && forall p :: p != src && p != at ==> (p in m.files <==> p in files) && (p in files ==> m.files[p] == files[p])
  {
  }

  /** No path is both a file and a directory. */
  predicate Consistent(files: Files, dirs: set<string>)
  {
    forall p :: p in dirs ==> p !in files
  }

  /** A move never puts a file where a directory is. */
  lemma ShutilMoveConsistent(files: Files, dirs: set<string>, src: string, dst: string, fault: Fault)
    requires Consistent(files, dirs)
    ensures Consistent(ShutilMove(files, dirs, src, dst, fault).files, dirs)
  {
    var m := ShutilMove(files, dirs, src, dst, fault);
    if m.error.None? {
      assert Landing(dirs, src, dst) !in dirs;
    }
  }

  /** `move_and_rename_file` once it has built the archive path `dst`: the
      new state and the returned path or the exception. With `checked`
      (csv_processor.py) a missing source is refused before anything happens
      and the move is confirmed afterwards; without it (the other drafts) the
      path is returned whatever the move did with the file. */
  datatype Relocation = Relocation(files: Files, outcome: Result<string, MoveError>)

  function Relocate(files: Files, dirs: set<string>, source: string, dst: string,
                    fault: Fault, checked: bool): (r: Relocation)
    ensures r.outcome.Success? ==> r.outcome.value == dst && (checked ==> dst in r.files)
    ensures r.outcome.Failure? && r.outcome.error != MoveUnconfirmed ==> r.files == files
    ensures r.outcome == Failure(MoveUnconfirmed) ==> checked && dst !in r.files
  {
    if checked && source !in files then Relocation(files, Failure(SourceNotFound))
    else
      var m := ShutilMove(files, dirs, source, dst, fault);
      if m.error.Some? then Relocation(m.files, Failure(m.error.value))
      else if checked && dst !in m.files then Relocation(m.files, Failure(MoveUnconfirmed))
      else Relocation(m.files, Success(dst))
  }

  /** The archive path never equals the source path: its base name is longer. */
  lemma ArchiveIsElsewhere(folder: string, t: Timestamp, source: string)
    ensures ArchivePath(folder, t, source) != source
  {
    ArchiveNameParts(folder, t, source);
  }

  /** A missing source raises not-found and changes nothing, in every draft. */
  lemma MissingSourceChangesNothing(files: Files, dirs: set<string>, source: string, dst: string,
                                    fault: Fault, checked: bool)
    requires source !in files
    ensures Relocate(files, dirs, source, dst, fault, checked) == Relocation(files, Failure(SourceNotFound))
  {
  }

  /** A refused or broken move raises, a permission failure distinguished from
      the others, and changes nothing. */
  lemma FailedMoveChangesNothing(files: Files, dirs: set<string>, source: string, dst: string,
                                 fault: Fault, checked: bool)
    requires source in files && fault != Clean
    ensures var r := Relocate(files, dirs, source, dst, fault, checked);
      && r.files == files
      && r.outcome == Failure(if fault == Denied then PermissionDenied else MoveFailed)
  {
  }

  /** The archive path ends with its (non-empty, slash-free) new name. */
  lemma ArchivePathEnd(folder: string, t: Timestamp, source: string)
    ensures var dst := ArchivePath(folder, t, source);
      dst != [] && dst[|dst| - 1] != '/'
  {
    var n := ArchiveName(t, source);
    ArchiveNameParts(folder, t, source);
    StampDigits(t);
    assert n[0] == Stamp(t)[0] && IsDigitChar(n[0]);
    var dst := ArchivePath(folder, t, source);
    JoinEnds(folder, n);
    assert EndsWith(dst, n);
    assert dst[|dst| - 1] == n[|n| - 1];
    assert n[|n| - 1] in n;
  }

  /** Moving onto a directory lands strictly inside it. */
  lemma LandingInside(dirs: set<string>, folder: string, t: Timestamp, source: string)
    ensures var dst := ArchivePath(folder, t, source);
      dst in dirs ==> Landing(dirs, source, dst) != dst
  {
    var dst := ArchivePath(folder, t, source);
    ArchivePathEnd(folder, t, source);
    if dst in dirs {
      var b := Basename(source);
      BasenameShape(source);
      assert Join(dst, b) == dst + "/" + b by {
        if b != [] {
          assert b[0] in b;
        }
      }
    }
  }

  /** A confirmed move (csv_processor.py) to a path other than the source
      that does not land back on itself: the source is gone, the returned path
      holds its content, and no other file changed. Archive paths are such
      paths (`ArchiveIsElsewhere`, `LandingInside`). */
  lemma CheckedMoveSucceeds(files: Files, dirs: set<string>, source: string, dst: string, fault: Fault)
    requires Consistent(files, dirs)
    requires dst != source && (dst in dirs ==> Landing(dirs, source, dst) != dst)
    ensures var r := Relocate(files, dirs, source, dst, fault, true);
      r.outcome.Success? ==>
        && r.outcome.value == dst
        && source in files && source !in r.files
        && dst in r.files && r.files[dst] == files[source]
        && forall p :: p != source && p != dst ==> (p in r.files <==> p in files) && (p in files ==> r.files[p] == files[p])
  {
    ShutilMoveEffect(files, dirs, source, dst, fault);
  }

  /** Unchecked (the other drafts), a move onto an existing directory returns
      a path at which no file exists: the file went inside the directory. */
  lemma UncheckedMoveIntoDirectory(files: Files, dirs: set<string>, source: string, dst: string)
    requires Consistent(files, dirs) && source in files
    requires dst in dirs && Landing(dirs, source, dst) != dst
    requires Landing(dirs, source, dst) !in files && Landing(dirs, source, dst) !in dirs
    ensures var r := Relocate(files, dirs, source, dst, Clean, false);
      && r.outcome == Success(dst)
      && dst !in r.files
      && source !in r.files
  {
  }

  /** The same move checked (csv_processor.py) raises that it could not be
      confirmed, though the file has already left the input folder. */
  lemma CheckedMoveIntoDirectory(files: Files, dirs: set<string>, source: string, dst: string)
    requires Consistent(files, dirs) && source in files
    requires dst in dirs && Landing(dirs, source, dst) != dst
    requires Landing(dirs, source, dst) !in files && Landing(dirs, source, dst) !in dirs
    ensures var r := Relocate(files, dirs, source, dst, Clean, true);
      && r.outcome == Failure(MoveUnconfirmed)
      && source !in r.files
  {
  }

  /** The file system the processor reads from and writes to. */
  class FileSystem {
    var files: Files
    const dirs: set<string>

    constructor (files: Files, dirs: set<string>)
      ensures this.files == files && this.dirs == dirs
    {
      this.files := files;
      this.dirs := dirs;
    }

    /** `open(path)` and read: None when there is no such file. */
    function Read(path: string): (r: Option<seq<char>>)
      reads this
      ensures r.Some? <==> path in files
      ensures r.Some? ==> r.value == files[path]
    {
      if path in files then Some(files[path]) else None
    }

    /** Writes `content` at `path` (creating or truncating the file), unless
        the environment refuses or `path` is a directory. */
    method Write(path: string, content: seq<char>, fault: Fault) returns (ok: bool)
      modifies this
      ensures ok <==> fault == Clean && path !in dirs
      ensures files == if ok then old(files)[path := content] else old(files)
      ensures Consistent(old(files), dirs) ==> Consistent(files, dirs)
    {
      if fault != Clean || path in dirs {
        return false;
      }
      files := files[path := content];
      return true;
    }

    /** `shutil.move(src, dst)`. */
    method Move(src: string, dst: string, fault: Fault) returns (error: Option<MoveError>)
      modifies this
      ensures Moved(files, error) == ShutilMove(old(files), dirs, src, dst, fault)
      ensures Consistent(old(files), dirs) ==> Consistent(files, dirs)
    {
      if src !in files {
        return Some(SourceNotFound);
      }
      if fault == Denied {
        return Some(PermissionDenied);
      }
      if fault == Broken {
        return Some(MoveFailed);
      }
      var at := if dst in dirs then Join(dst, Basename(src)) else dst;
      if dst in dirs && (at in files || at in dirs) {
        return Some(MoveFailed);
      }
      files := (files - {src})[at := files[src]];
      return None;
    }
  }
}
