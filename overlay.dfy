/**
 The copy phase of main (lines 153-175): every non-directory entry's source
 bytes are written over the destination, in srcFiles order.
 */
module Overlay {
  import opened Wrappers
  import opened FileSystem
  import opened SourceWalk

  /**
   The mode handed to WriteFile (lines 163-167): the existing file's mode only
   when os.IsExist(err) holds; then err != nil, the FileInfo is nil and reading
   its mode would panic (None).
   */
  function ChooseMode(st: StatResult): Option<Mode>
  {
    if IsExist(st) then None else Some(FileMode)
  }

  /** os.IsExist is never true after os.Stat, so the mode requested is always 0644. */
  lemma RequestedModeIs0644(fs: Fs, p: Path)
    ensures ChooseMode(Stat(fs, p)) == Some(FileMode)
  {
  }

  /** One iteration: read the source file, pick the mode, write the destination; None is a panic. */
  function CopyStep(src: Fs, sourceDir: Path, destDir: Path, fs: Fs, f: WpFile): Option<Fs>
  {
    if f.isDir then Some(fs)
    else match ReadFile(src, EntryPath(sourceDir, f))
      case None => None
      case Some(input) =>
        match ChooseMode(Stat(fs, EntryPath(destDir, f)))
        case None => None
        case Some(fileMode) => WriteFile(fs, EntryPath(destDir, f), input, fileMode)
  }

  /** The copy loop over `files` starting from destination tree `fs`; None when it panicked. */
  function CopyAll(src: Fs, sourceDir: Path, destDir: Path, fs: Fs, files: seq<WpFile>): Option<Fs>
  {
    if files == [] then Some(fs)
    else match CopyAll(src, sourceDir, destDir, fs, files[..|files| - 1])
      case None => None
      case Some(mid) => CopyStep(src, sourceDir, destDir, mid, files[|files| - 1])
  }

  /** `p` is the destination path of some non-directory entry. */
  ghost predicate IsFileTarget(destDir: Path, files: seq<WpFile>, p: Path)
  {
    exists i :: 0 <= i < |files| && !files[i].isDir && EntryPath(destDir, files[i]) == p
  }

  /** The mode a written file ends up with: its old mode if it existed, else 0644. */
  function ModeAfterWrite(fs: Fs, p: Path): Mode
  {
    if p in fs.nodes then fs.nodes[p].mode else FileMode
  }

  /** Once a read or write has panicked, the copy loop has panicked. */
  lemma {:induction false} CopyStopsAtPanic(src: Fs, sourceDir: Path, destDir: Path, fs: Fs, files: seq<WpFile>, n: nat)
    requires n <= |files| && CopyAll(src, sourceDir, destDir, fs, files[..n]) == None
    ensures CopyAll(src, sourceDir, destDir, fs, files) == None
    decreases |files| - n
  {
    if n < |files| {
      assert files[..n + 1][..n] == files[..n];
      CopyStopsAtPanic(src, sourceDir, destDir, fs, files, n + 1);
    } else {
      assert files[..n] == files;
    }
  }

  /**
   The copy leaves everything else alone: the set `broken`, every
   directory, and every path that is not the destination of a file entry.
   */
  lemma {:induction false} CopyFrame(src: Fs, sourceDir: Path, destDir: Path, fs: Fs, files: seq<WpFile>)
    requires CopyAll(src, sourceDir, destDir, fs, files).Some?
    ensures var after := CopyAll(src, sourceDir, destDir, fs, files).value;
      && after.broken == fs.broken
      && DirsKept(fs, after)
      && forall p :: !IsFileTarget(destDir, files, p) ==>
           (p in after.nodes <==> p in fs.nodes) && (p in fs.nodes ==> after.nodes[p] == fs.nodes[p])
  {
    if files != [] {
      var init := files[..|files| - 1];
      var f := files[|files| - 1];
      CopyFrame(src, sourceDir, destDir, fs, init);
      var mid := CopyAll(src, sourceDir, destDir, fs, init).value;
      var after := CopyAll(src, sourceDir, destDir, fs, files).value;
      if !f.isDir {
        var input := ReadFile(src, EntryPath(sourceDir, f)).value;
        WriteFileEffect(mid, EntryPath(destDir, f), input, FileMode);
      }
    }
  }

  /**
   After a copy that did not panic, every file entry's destination is a
   regular file holding the source bytes, with the mode it had before (or 0644
   if it is new); it is not in `broken` and its parent directory exists; and if it
   existed before, it was writable.
   */
  lemma {:induction false} CopyWrites(src: Fs, sourceDir: Path, destDir: Path, fs: Fs, files: seq<WpFile>, i: nat)
    requires CopyAll(src, sourceDir, destDir, fs, files).Some?
    requires i < |files| && !files[i].isDir
    ensures var after := CopyAll(src, sourceDir, destDir, fs, files).value;
      var p := EntryPath(destDir, files[i]);
      && ReadFile(src, EntryPath(sourceDir, files[i])).Some?
      && (p in fs.nodes ==> fs.nodes[p].File? && Writable(fs.nodes[p].mode))
      && p in after.nodes
      && after.nodes[p] == File(ModeAfterWrite(fs, p), ReadFile(src, EntryPath(sourceDir, files[i])).value)
      && p !in after.broken && ParentIsDir(after, p)
  {
    var init := files[..|files| - 1];
    var f := files[|files| - 1];
    var mid := CopyAll(src, sourceDir, destDir, fs, init).value;
    var after := CopyAll(src, sourceDir, destDir, fs, files).value;
    var p := EntryPath(destDir, files[i]);
    CopyFrame(src, sourceDir, destDir, fs, init);
    if !f.isDir {
      var input := ReadFile(src, EntryPath(sourceDir, f)).value;
      WriteFileEffect(mid, EntryPath(destDir, f), input, FileMode);
    }
    if i < |init| {
      assert files[i] == init[i];
      CopyWrites(src, sourceDir, destDir, fs, init, i);
      ParentIsDirKept(mid, after, p);
      if !f.isDir && EntryPath(destDir, f) == p {
        JoinInjective(destDir, f.name, files[i].name);
      }
    } else {
      var q := EntryPath(destDir, f);
      if IsFileTarget(destDir, init, q) {
        var k :| 0 <= k < |init| && !init[k].isDir && EntryPath(destDir, init[k]) == q;
        CopyWrites(src, sourceDir, destDir, fs, init, k);
      }
    }
  }

  /** A tree that every step leaves as it is comes through the whole copy unchanged. */
  lemma {:induction false} CopyFixedPoint(src: Fs, sourceDir: Path, destDir: Path, fs: Fs, files: seq<WpFile>)
    requires forall i :: 0 <= i < |files| ==> CopyStep(src, sourceDir, destDir, fs, files[i]) == Some(fs)
    ensures CopyAll(src, sourceDir, destDir, fs, files) == Some(fs)
  {
    if files != [] {
      var init := files[..|files| - 1];
      forall i | 0 <= i < |init| ensures CopyStep(src, sourceDir, destDir, fs, init[i]) == Some(fs) {
        assert init[i] == files[i];
      }
      CopyFixedPoint(src, sourceDir, destDir, fs, init);
    }
  }

  /** The copy keeps a closed tree closed. */
  lemma {:induction false} CopyKeepsClosed(src: Fs, sourceDir: Path, destDir: Path, fs: Fs, files: seq<WpFile>)
    requires Closed(fs) && CopyAll(src, sourceDir, destDir, fs, files).Some?
    ensures Closed(CopyAll(src, sourceDir, destDir, fs, files).value)
  {
    if files != [] {
      var init := files[..|files| - 1];
      var f := files[|files| - 1];
      CopyKeepsClosed(src, sourceDir, destDir, fs, init);
      var mid := CopyAll(src, sourceDir, destDir, fs, init).value;
      if !f.isDir {
        WriteFileKeepsClosed(mid, EntryPath(destDir, f), ReadFile(src, EntryPath(sourceDir, f)).value, FileMode);
      }
    }
  }

  /**
   Copying a second time over a closed tree changes nothing: the copy phase is
   idempotent.
   */
  lemma CopyIdempotent(src: Fs, sourceDir: Path, destDir: Path, fs: Fs, files: seq<WpFile>)
    requires Closed(fs)
    requires CopyAll(src, sourceDir, destDir, fs, files).Some?
    ensures var after := CopyAll(src, sourceDir, destDir, fs, files).value;
      CopyAll(src, sourceDir, destDir, after, files) == Some(after)
  {
    var after := CopyAll(src, sourceDir, destDir, fs, files).value;
    CopyKeepsClosed(src, sourceDir, destDir, fs, files);
    forall i | 0 <= i < |files| ensures CopyStep(src, sourceDir, destDir, after, files[i]) == Some(after) {
      if !files[i].isDir {
        CopyWrites(src, sourceDir, destDir, fs, files, i);
        CreatedModesWritable();
        var p := EntryPath(destDir, files[i]);
        ClosedNotBlocked(after, p);
        assert after.nodes[p := after.nodes[p]] == after.nodes;
      }
    }
    CopyFixedPoint(src, sourceDir, destDir, after, files);
  }
}
