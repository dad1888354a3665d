/**
 The single pass of main over srcFiles (lines 106-135): directory entries are
 reconciled with the destination (created, or reported as missing), file
 entries are counted; then the exit gates for codes 2, 3 and 4.
 */
module Reconcile {
  import opened Wrappers
  import opened FileSystem
  import opened SourceWalk

  /** The state the pass updates: the destination tree and the variables of main. */
  datatype Scan = Scan(tree: Fs, pathErrs: bool, lastMissingPath: string, existing: nat, total: nat)

  /** The state before the pass over a destination tree. */
  function Start(fs: Fs): Scan
  {
    Scan(fs, false, "", 0, 0)
  }

  /** A directory is skipped without a stat when the last missing path is a raw string prefix of its name. */
  predicate Skipped(lastMissingPath: string, name: string)
  {
    lastMissingPath != "" && lastMissingPath <= name
  }

  /**
   One iteration of the pass. A missing directory is created with 0755 (a
   failing mkdir panics) or, without auto-create, recorded as the last missing
   path. A file entry bumps the total, and bumps `existing` when its stat FAILS.
   */
  function ScanStep(destDir: Path, autoCreate: bool, s: Scan, f: WpFile): Option<Scan>
  {
    if f.isDir then
      if Skipped(s.lastMissingPath, f.name) then Some(s)
      else if !IsNotExist(Stat(s.tree, EntryPath(destDir, f))) then Some(s)
      else if autoCreate then
        match Mkdir(s.tree, EntryPath(destDir, f), DirMode)
        case None => None
        case Some(t) => Some(s.(tree := t))
      else Some(s.(lastMissingPath := f.name, pathErrs := true))
    else
      var failed := Stat(s.tree, EntryPath(destDir, f)).Failed?;
      Some(s.(total := s.total + 1, existing := if failed then s.existing + 1 else s.existing))
  }

  /** The pass over `files` from state `s0`; None when a mkdir panicked. */
  function ScanAll(destDir: Path, autoCreate: bool, s0: Scan, files: seq<WpFile>): Option<Scan>
  {
    if files == [] then Some(s0)
    else match ScanAll(destDir, autoCreate, s0, files[..|files| - 1])
      case None => None
      case Some(s) => ScanStep(destDir, autoCreate, s, files[|files| - 1])
  }

  /** The number of non-directory entries. */
  function CountFiles(files: seq<WpFile>): nat
  {
    if files == [] then 0
    else CountFiles(files[..|files| - 1]) + (if files[|files| - 1].isDir then 0 else 1)
  }

  /** The number of non-directory entries whose destination stat fails. */
  function CountAbsent(fs: Fs, destDir: Path, files: seq<WpFile>): nat
  {
    if files == [] then 0
    else
      var f := files[|files| - 1];
      CountAbsent(fs, destDir, files[..|files| - 1])
      + (if !f.isDir && Stat(fs, EntryPath(destDir, f)).Failed? then 1 else 0)
  }

  /** `p` is the destination path of some directory entry. */
  ghost predicate IsDirTarget(destDir: Path, files: seq<WpFile>, p: Path)
  {
    exists i :: 0 <= i < |files| && files[i].isDir && EntryPath(destDir, files[i]) == p
  }

  /** `after` is `before` plus new 0755 directories at destination paths of directory entries. */
  ghost predicate DirsAdded(before: Fs, after: Fs, destDir: Path, files: seq<WpFile>)
  {
    && after.broken == before.broken
    && (forall p :: p in before.nodes ==> p in after.nodes && after.nodes[p] == before.nodes[p])
    && (forall p :: p in after.nodes && p !in before.nodes ==>
          after.nodes[p] == Dir(DirMode) && IsDirTarget(destDir, files, p))
  }

  /**
   No name is both a directory entry and a file entry. A walk of a real tree
   under a root other than "." or "/" gives this; under those two roots the
   length cut can map a directory and a file to the same name.
   */
  ghost predicate NoDirFileClash(files: seq<WpFile>)
  {
    forall i, j :: 0 <= i < |files| && 0 <= j < |files| && files[i].isDir && !files[j].isDir ==>
      files[i].name != files[j].name
  }

  /** Once a mkdir has panicked, the whole pass has panicked. */
  lemma {:induction false} ScanStopsAtPanic(destDir: Path, autoCreate: bool, s0: Scan, files: seq<WpFile>, n: nat)
    requires n <= |files| && ScanAll(destDir, autoCreate, s0, files[..n]) == None
    ensures ScanAll(destDir, autoCreate, s0, files) == None
    decreases |files| - n
  {
    if n < |files| {
      assert files[..n + 1][..n] == files[..n];
      ScanStopsAtPanic(destDir, autoCreate, s0, files, n + 1);
    } else {
      assert files[..n] == files;
    }
  }

  /** The pass changes the destination only by creating 0755 directories for directory entries. */
  lemma {:induction false} ScanOnlyAddsDirs(destDir: Path, autoCreate: bool, s0: Scan, files: seq<WpFile>)
    requires ScanAll(destDir, autoCreate, s0, files).Some?
    ensures DirsAdded(s0.tree, ScanAll(destDir, autoCreate, s0, files).value.tree, destDir, files)
    ensures !autoCreate ==> ScanAll(destDir, autoCreate, s0, files).value.tree == s0.tree
  {
    if files != [] {
      var init := files[..|files| - 1];
      var f := files[|files| - 1];
      ScanOnlyAddsDirs(destDir, autoCreate, s0, init);
      var mid := ScanAll(destDir, autoCreate, s0, init).value;
      var s := ScanAll(destDir, autoCreate, s0, files).value;
      forall p | p in s.tree.nodes && p !in s0.tree.nodes
        ensures s.tree.nodes[p] == Dir(DirMode) && IsDirTarget(destDir, files, p)
      {
        if p in mid.tree.nodes {
          var i :| 0 <= i < |init| && init[i].isDir && EntryPath(destDir, init[i]) == p;
          assert files[i] == init[i];
        } else {
          assert files[|files| - 1] == f;
        }
      }
    }
  }

  /** Adding directories leaves the stat of every path that gained no node as it was. */
  lemma DirsAddedKeepStats(before: Fs, after: Fs, destDir: Path, files: seq<WpFile>, p: Path)
    requires DirsAdded(before, after, destDir, files)
    requires p in after.nodes ==> p in before.nodes
    ensures Stat(after, p) == Stat(before, p)
  {
    if Blocked(after, p) {
      BlockedByFiles(after, before, p);
    }
    if Blocked(before, p) {
      BlockedByFiles(before, after, p);
    }
  }

  /** The pass keeps a closed tree closed. */
  lemma {:induction false} ScanKeepsClosed(destDir: Path, autoCreate: bool, s0: Scan, files: seq<WpFile>)
    requires Closed(s0.tree) && ScanAll(destDir, autoCreate, s0, files).Some?
    ensures Closed(ScanAll(destDir, autoCreate, s0, files).value.tree)
  {
    if files != [] {
      var init := files[..|files| - 1];
      var f := files[|files| - 1];
      ScanKeepsClosed(destDir, autoCreate, s0, init);
      var mid := ScanAll(destDir, autoCreate, s0, init).value;
      if f.isDir && autoCreate && !Skipped(mid.lastMissingPath, f.name)
         && IsNotExist(Stat(mid.tree, EntryPath(destDir, f))) {
        MkdirKeepsClosed(mid.tree, EntryPath(destDir, f), DirMode);
      }
    }
  }

  /** The pass never decreases the counters, and `total` grows by the number of file entries. */
  lemma {:induction false} ScanCounts(destDir: Path, autoCreate: bool, s0: Scan, files: seq<WpFile>)
    requires ScanAll(destDir, autoCreate, s0, files).Some?
    ensures var s := ScanAll(destDir, autoCreate, s0, files).value;
      && s.total == s0.total + CountFiles(files)
      && s0.existing <= s.existing <= s0.existing + CountFiles(files)
  {
    if files != [] {
      ScanCounts(destDir, autoCreate, s0, files[..|files| - 1]);
    }
  }

  /**
   numFilesExisting counts the file entries whose destination is ABSENT (or
   failing otherwise): the condition `err != nil` at line 131 is the inverse of
   the counter's name.
   */
  lemma {:induction false} ExistingCountsAbsentFiles(destDir: Path, autoCreate: bool, s0: Scan, files: seq<WpFile>)
    requires ScanAll(destDir, autoCreate, s0, files).Some?
    requires autoCreate ==> NoDirFileClash(files)
    ensures ScanAll(destDir, autoCreate, s0, files).value.existing
      == s0.existing + CountAbsent(s0.tree, destDir, files)
  {
    if files != [] {
      var init := files[..|files| - 1];
      var f := files[|files| - 1];
      if autoCreate {
        forall i, j | 0 <= i < |init| && 0 <= j < |init| && init[i].isDir && !init[j].isDir
          ensures init[i].name != init[j].name
        {
          assert files[i] == init[i] && files[j] == init[j];
        }
      }
      ExistingCountsAbsentFiles(destDir, autoCreate, s0, init);
      ScanOnlyAddsDirs(destDir, autoCreate, s0, init);
      var mid := ScanAll(destDir, autoCreate, s0, init).value;
      if !f.isDir {
        var p := EntryPath(destDir, f);
        if autoCreate && p in mid.tree.nodes && p !in s0.tree.nodes {
          var i :| 0 <= i < |init| && init[i].isDir && EntryPath(destDir, init[i]) == p;
          JoinInjective(destDir, init[i].name, f.name);
          assert false;
        }
        DirsAddedKeepStats(s0.tree, mid.tree, destDir, init, p);
      }
    }
  }

  /** The counter named for existing files never exceeds the total. */
  lemma ExistingAtMostTotal(destDir: Path, autoCreate: bool, fs: Fs, files: seq<WpFile>)
    requires ScanAll(destDir, autoCreate, Start(fs), files).Some?
    ensures ScanAll(destDir, autoCreate, Start(fs), files).value.existing
      <= ScanAll(destDir, autoCreate, Start(fs), files).value.total
  {
    ScanCounts(destDir, autoCreate, Start(fs), files);
  }

  /**
   With auto-create on, nothing is ever reported missing, the last missing
   path stays "", and afterwards every directory entry's destination exists
   (or fails otherwise).
   */
  lemma {:induction false} AutoCreateReconciles(destDir: Path, s0: Scan, files: seq<WpFile>)
    requires s0.lastMissingPath == ""
    requires ScanAll(destDir, true, s0, files).Some?
    ensures var s := ScanAll(destDir, true, s0, files).value;
      && s.lastMissingPath == "" && s.pathErrs == s0.pathErrs
      && forall i :: 0 <= i < |files| && files[i].isDir ==> !IsNotExist(Stat(s.tree, EntryPath(destDir, files[i])))
  {
    if files != [] {
      var init := files[..|files| - 1];
      AutoCreateReconciles(destDir, s0, init);
      var mid := ScanAll(destDir, true, s0, init).value;
      var s := ScanAll(destDir, true, s0, files).value;
      var f := files[|files| - 1];
      if f.isDir && IsNotExist(Stat(mid.tree, EntryPath(destDir, f))) {
        MkdirEffect(mid.tree, EntryPath(destDir, f), DirMode);
      }
      forall i | 0 <= i < |files| && files[i].isDir
        ensures !IsNotExist(Stat(s.tree, EntryPath(destDir, files[i])))
      {
        if i < |init| {
          assert files[i] == init[i];
        }
      }
    }
  }

  /** With auto-create on, each directory entry missing from the destination is created with mode 0755. */
  lemma AutoCreateMakesMissingDirs(destDir: Path, fs: Fs, files: seq<WpFile>, i: nat)
    requires ScanAll(destDir, true, Start(fs), files).Some?
    requires i < |files| && files[i].isDir && IsNotExist(Stat(fs, EntryPath(destDir, files[i])))
    ensures var after := ScanAll(destDir, true, Start(fs), files).value.tree;
      EntryPath(destDir, files[i]) in after.nodes && after.nodes[EntryPath(destDir, files[i])] == Dir(DirMode)
  {
    AutoCreateReconciles(destDir, Start(fs), files);
    ScanOnlyAddsDirs(destDir, true, Start(fs), files);
    var after := ScanAll(destDir, true, Start(fs), files).value.tree;
    var p := EntryPath(destDir, files[i]);
    if p !in after.nodes {
      DirsAddedKeepStats(fs, after, destDir, files, p);
    }
  }

  /**
   With auto-create off the pass never panics and changes nothing, and it
   records a path error iff some directory entry is missing from the
   destination. The last missing path is the name of a missing directory.
   */
  lemma {:induction false} ReportOnlyFindsMissingDirs(destDir: Path, s0: Scan, files: seq<WpFile>)
    requires s0.lastMissingPath != "" ==> s0.pathErrs
    ensures ScanAll(destDir, false, s0, files).Some?
    ensures var s := ScanAll(destDir, false, s0, files).value;
      && s.tree == s0.tree
      && (s.lastMissingPath != "" ==> s.pathErrs)
      && (s.pathErrs <==> s0.pathErrs || exists i :: 0 <= i < |files| && files[i].isDir
                                          && IsNotExist(Stat(s0.tree, EntryPath(destDir, files[i]))))
      && (s.lastMissingPath == s0.lastMissingPath
          || exists i :: 0 <= i < |files| && files[i].isDir && files[i].name == s.lastMissingPath
                         && IsNotExist(Stat(s0.tree, EntryPath(destDir, files[i]))))
  {
    if files != [] {
      var init := files[..|files| - 1];
      var f := files[|files| - 1];
      ReportOnlyFindsMissingDirs(destDir, s0, init);
      var mid := ScanAll(destDir, false, s0, init).value;
      var s := ScanAll(destDir, false, s0, files).value;
      if exists i :: 0 <= i < |init| && init[i].isDir && IsNotExist(Stat(s0.tree, EntryPath(destDir, init[i]))) {
        var i :| 0 <= i < |init| && init[i].isDir && IsNotExist(Stat(s0.tree, EntryPath(destDir, init[i])));
        assert files[i] == init[i];
      }
      if exists i :: 0 <= i < |files| && files[i].isDir && IsNotExist(Stat(s0.tree, EntryPath(destDir, files[i]))) {
        var i :| 0 <= i < |files| && files[i].isDir && IsNotExist(Stat(s0.tree, EntryPath(destDir, files[i])));
        if i < |init| {
          assert init[i] == files[i];
        }
      }
      if mid.lastMissingPath != s0.lastMissingPath {
        var i :| 0 <= i < |init| && init[i].isDir && init[i].name == mid.lastMissingPath
                 && IsNotExist(Stat(s0.tree, EntryPath(destDir, init[i])));
        assert files[i] == init[i];
      }
    }
  }

  /**
   The skip is a raw string prefix test: after a missing "wp-content", the
   sibling "wp-contents" is passed over without a stat, whatever the tree holds.
   */
  lemma RawPrefixSkipsSibling(destDir: Path, autoCreate: bool, s: Scan)
    requires s.lastMissingPath == "wp-content"
    ensures Skipped(s.lastMissingPath, "wp-contents")
    ensures ScanStep(destDir, autoCreate, s, WpFile("wp-contents", true)) == Some(s)
  {
    assert "wp-content" == "wp-contents"[..10];
  }

  /**
   A directory entry whose destination lies below a regular file is neither
   created nor reported missing: its stat fails with ENOTDIR, which
   os.IsNotExist rejects, so the pass goes on with nothing changed.
   */
  lemma DirBelowFileNotMissing(autoCreate: bool)
    ensures var dest := Fs(map["d" := Dir(DirMode), "d/w" := File(FileMode, [])], {});
      && !IsNotExist(Stat(dest, EntryPath("d", WpFile("w/p", true))))
      && ScanStep("d", autoCreate, Start(dest), WpFile("w/p", true)) == Some(Start(dest))
  {
    var dest := Fs(map["d" := Dir(DirMode), "d/w" := File(FileMode, [])], {});
    var p := EntryPath("d", WpFile("w/p", true));
    assert p == "d/w/p";
    assert p[|p| - 1] == 'p' && p[..|p| - 1] == "d/w/";
    assert "d/w/"[..3] == "d/w";
    assert Dirname("d/w/") == Some("d/w");
    assert Dirname(p) == Some("d/w");
    BelowFileIsNotMissing(dest, p, [], DirMode);
  }

  /**
   When every directory entry's destination is there already, the pass changes
   nothing and only counts: `total` file entries, `existing` absent ones.
   */
  lemma {:induction false} ScanOverPresentDirs(destDir: Path, autoCreate: bool, s0: Scan, files: seq<WpFile>)
    requires forall i :: 0 <= i < |files| && files[i].isDir ==> !IsNotExist(Stat(s0.tree, EntryPath(destDir, files[i])))
    ensures ScanAll(destDir, autoCreate, s0, files)
      == Some(s0.(existing := s0.existing + CountAbsent(s0.tree, destDir, files),
                  total := s0.total + CountFiles(files)))
  {
    if files != [] {
      var init := files[..|files| - 1];
      forall i | 0 <= i < |init| && init[i].isDir
        ensures !IsNotExist(Stat(s0.tree, EntryPath(destDir, init[i])))
      {
        assert init[i] == files[i];
      }
      ScanOverPresentDirs(destDir, autoCreate, s0, init);
    }
  }

  /** No file entry is counted absent iff every file entry's destination stats successfully. */
  lemma {:induction false} NoAbsentFiles(fs: Fs, destDir: Path, files: seq<WpFile>)
    ensures CountAbsent(fs, destDir, files) == 0 <==>
      forall i :: 0 <= i < |files| && !files[i].isDir ==> Stat(fs, EntryPath(destDir, files[i])).Found?
  {
    if files != [] {
      var init := files[..|files| - 1];
      NoAbsentFiles(fs, destDir, init);
      if CountAbsent(fs, destDir, files) == 0 {
        forall i | 0 <= i < |files| && !files[i].isDir
          ensures Stat(fs, EntryPath(destDir, files[i])).Found?
        {
          if i < |init| {
            assert init[i] == files[i];
          }
        }
      } else if CountAbsent(fs, destDir, init) != 0 {
        var i :| 0 <= i < |init| && !init[i].isDir && !Stat(fs, EntryPath(destDir, init[i])).Found?;
        assert files[i] == init[i];
      }
    }
  }

  /**
   The exit gates, in order: 2 when a directory was missing, 3 when there are
   no files (checked before dividing), 4 when the fraction existing/total is
   below min-pct; 0 lets the copy phase run.
   */
  function Gate(s: Scan, minPct: real): nat
  {
    if s.pathErrs then 2
    else if s.total == 0 then 3
    else if (s.existing as real) / (s.total as real) < minPct then 4
    else 0
  }

  /** With no file counted as "existing", the coverage gate trips exactly when min-pct is positive. */
  lemma GateWithNoneCounted(s: Scan, minPct: real)
    requires !s.pathErrs && s.total > 0 && s.existing == 0
    ensures Gate(s, minPct) == if minPct > 0.0 then 4 else 0
  {
    assert (0 as real) / (s.total as real) == 0.0;
  }

  /** With every file counted as "existing", the coverage gate passes for any min-pct up to 1. */
  lemma GateWithAllCounted(s: Scan, minPct: real)
    requires !s.pathErrs && s.total > 0 && s.existing == s.total && minPct <= 1.0
    ensures Gate(s, minPct) == 0
  {
    assert (s.existing as real) / (s.total as real) == 1.0;
  }

  /** What each gate code means; the fraction check passes on equality. */
  lemma GateVerdict(s: Scan, minPct: real)
    ensures Gate(s, minPct) == 2 <==> s.pathErrs
    ensures Gate(s, minPct) == 3 <==> !s.pathErrs && s.total == 0
    ensures Gate(s, minPct) == 4 <==>
      !s.pathErrs && s.total > 0 && (s.existing as real) < minPct * (s.total as real)
    ensures Gate(s, minPct) == 0 <==>
      !s.pathErrs && s.total > 0 && (s.existing as real) >= minPct * (s.total as real)
  {
    if !s.pathErrs && s.total > 0 {
      var e, t := s.existing as real, s.total as real;
      assert e == (e / t) * t;
      if e / t < minPct {
        assert (e / t) * t < minPct * t;
      } else {
        assert (e / t) * t >= minPct * t;
      }
    }
  }
}
