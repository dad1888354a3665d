/**
 The program as a whole: validation (init), then main's walk, reconcile and
 count pass, exit gates and copy loop, run against a destination tree that
 the class Destination updates in place.
 */
module Upgrade {
  import opened Wrappers
  import opened FileSystem
  import opened Markers
  import opened SourceWalk
  import opened Reconcile
  import opened Overlay

  /** The package-level settings init fills in from the flags (roots already cleaned). */
  datatype Config = Config(sourceDir: Path, destDir: Path, requiredFiles: string, minPct: real, autoCreate: bool)

  /** How a run ends: an exit code with the destination tree at that point, or a panic. */
  datatype Outcome = Exited(code: nat, tree: Fs) | Panicked

  /** The exit gates and, past them, the copy phase, after a pass that ended in `s`. */
  function AfterScan(cfg: Config, src: Fs, files: seq<WpFile>, s: Scan): Outcome
  {
    if Gate(s, cfg.minPct) != 0 then Exited(Gate(s, cfg.minPct), s.tree)
    else match CopyAll(src, cfg.sourceDir, cfg.destDir, s.tree, files)
      case None => Panicked
      case Some(t) => Exited(0, t)
  }

  /** Everything main does once the walk has produced `files`. */
  function AfterWalk(cfg: Config, src: Fs, dest: Fs, files: seq<WpFile>): Outcome
  {
    match ScanAll(cfg.destDir, cfg.autoCreate, Start(dest), files)
    case None => Panicked
    case Some(s) => AfterScan(cfg, src, files, s)
  }

  /** The whole run, from the destination tree `dest` before it starts. */
  function RunSpec(cfg: Config, src: Fs, visits: seq<Visit>, dest: Fs): Outcome
  {
    if ValidationErrors(src, dest, cfg.sourceDir, cfg.destDir, cfg.requiredFiles) != [] then Exited(1, dest)
    else match Enumerate(cfg.sourceDir, visits)
      case None => Panicked
      case Some(files) => AfterWalk(cfg, src, dest, files)
  }

  /** The destination installation; its nodes change as directories are made and files written. */
  class Destination {
    var nodes: map<Path, Node>
    const broken: set<Path>

    function Tree(): Fs
      reads this
    {
      Fs(nodes, broken)
    }

    constructor (fs: Fs)
      ensures Tree() == fs
    {
      nodes := fs.nodes;
      broken := fs.broken;
    }

    /** Lines 106-135: reconcile directory entries and count file entries; None when a mkdir panicked. */
    method ReconcileAndCount(files: seq<WpFile>, destDir: Path, autoCreate: bool) returns (r: Option<Scan>)
      modifies this
      ensures r == ScanAll(destDir, autoCreate, Start(old(Tree())), files)
      ensures r.Some? ==> Tree() == r.value.tree
    {
      ghost var start := Start(Tree());
      var pathErrs := false;
      var lastMissingPath := "";
      var numFilesExisting: nat, numFilesInTotal: nat := 0, 0;
      for i := 0 to |files|
        invariant ScanAll(destDir, autoCreate, start, files[..i])
          == Some(Scan(Tree(), pathErrs, lastMissingPath, numFilesExisting, numFilesInTotal))
      {
        assert files[..i + 1][..i] == files[..i];
        ghost var before := Scan(Tree(), pathErrs, lastMissingPath, numFilesExisting, numFilesInTotal);
        var srcFile := files[i];
        if srcFile.isDir {
          if lastMissingPath == "" || !(lastMissingPath <= srcFile.name) {
            var dirPath := Join(destDir, srcFile.name);
            if IsNotExist(Stat(Tree(), dirPath)) {
              if autoCreate {
                var made := Mkdir(Tree(), dirPath, DirMode);
                if made.None? {
                  assert ScanStep(destDir, autoCreate, before, srcFile) == None;
                  ScanStopsAtPanic(destDir, autoCreate, start, files, i + 1);
                  return None;
                }
                nodes := made.value.nodes;
              } else {
                lastMissingPath := srcFile.name;
                pathErrs := true;
              }
            }
          }
        } else {
          numFilesInTotal := numFilesInTotal + 1;
          var filePath := Join(destDir, srcFile.name);
          if Stat(Tree(), filePath).Failed? {
            numFilesExisting := numFilesExisting + 1;
          }
        }
        assert ScanStep(destDir, autoCreate, before, srcFile)
          == Some(Scan(Tree(), pathErrs, lastMissingPath, numFilesExisting, numFilesInTotal));
      }
      assert files[..|files|] == files;
      r := Some(Scan(Tree(), pathErrs, lastMissingPath, numFilesExisting, numFilesInTotal));
    }

    /** Lines 153-175: overwrite each file entry with the source bytes; false when a read or write panicked. */
    method CopyFiles(src: Fs, files: seq<WpFile>, sourceDir: Path, destDir: Path) returns (ok: bool)
      modifies this
      ensures ok == CopyAll(src, sourceDir, destDir, old(Tree()), files).Some?
      ensures ok ==> Tree() == CopyAll(src, sourceDir, destDir, old(Tree()), files).value
    {
      ghost var start := Tree();
      for i := 0 to |files|
        invariant CopyAll(src, sourceDir, destDir, start, files[..i]) == Some(Tree())
      {
        assert files[..i + 1][..i] == files[..i];
        var wpFile := files[i];
        if !wpFile.isDir {
          var sourceFile := Join(sourceDir, wpFile.name);
          var destFile := Join(destDir, wpFile.name);
          var input := ReadFile(src, sourceFile);
          if input.None? {
            CopyStopsAtPanic(src, sourceDir, destDir, start, files, i + 1);
            return false;
          }
          // The branch that would read a nil FileInfo's mode is never taken.
          RequestedModeIs0644(Tree(), destFile);
          var fileMode := ChooseMode(Stat(Tree(), destFile)).value;
          var written := WriteFile(Tree(), destFile, input.value, fileMode);
          if written.None? {
            CopyStopsAtPanic(src, sourceDir, destDir, start, files, i + 1);
            return false;
          }
          nodes := written.value.nodes;
        }
      }
      assert files[..|files|] == files;
      ok := true;
    }
  }

  /** init followed by main: the exit code, with the destination left as RunSpec says. */
  method Run(cfg: Config, src: Fs, visits: seq<Visit>, dst: Destination) returns (o: Outcome)
    modifies dst
    ensures o == RunSpec(cfg, src, visits, old(dst.Tree()))
    ensures o.Exited? ==> dst.Tree() == o.tree
  {
    var errs := Validate(src, dst.Tree(), cfg.sourceDir, cfg.destDir, cfg.requiredFiles);
    if errs != [] {
      return Exited(1, dst.Tree());
    }
    var srcFiles := CollectSourceFiles(cfg.sourceDir, visits);
    if srcFiles.None? {
      return Panicked;
    }
    var scan := dst.ReconcileAndCount(srcFiles.value, cfg.destDir, cfg.autoCreate);
    if scan.None? {
      return Panicked;
    }
    var s := scan.value;
    if s.pathErrs {
      return Exited(2, dst.Tree());
    }
    if s.total == 0 {
      return Exited(3, dst.Tree());
    }
    var pctFilesExist := (s.existing as real) / (s.total as real);
    if pctFilesExist < cfg.minPct {
      return Exited(4, dst.Tree());
    }
    var ok := dst.CopyFiles(src, srcFiles.value, cfg.sourceDir, cfg.destDir);
    if !ok {
      return Panicked;
    }
    o := Exited(0, dst.Tree());
  }

  /** Exit code 1 comes from validation alone, and then nothing is touched. */
  lemma ExitOneIffInvalid(cfg: Config, src: Fs, visits: seq<Visit>, dest: Fs)
    ensures var o := RunSpec(cfg, src, visits, dest);
      (o.Exited? && o.code == 1) <==> ValidationErrors(src, dest, cfg.sourceDir, cfg.destDir, cfg.requiredFiles) != []
    ensures ValidationErrors(src, dest, cfg.sourceDir, cfg.destDir, cfg.requiredFiles) != [] ==>
      RunSpec(cfg, src, visits, dest) == Exited(1, dest)
  {
  }

  /**
   Without auto-create, the run stops with exit code 2 iff it is valid, the
   walk succeeds and some directory entry is missing from the destination;
   the destination is then left exactly as it was.
   */
  lemma ReportOnlyExitTwo(cfg: Config, src: Fs, visits: seq<Visit>, dest: Fs)
    requires !cfg.autoCreate
    ensures var o := RunSpec(cfg, src, visits, dest);
      (o.Exited? && o.code == 2) <==>
        && ValidationErrors(src, dest, cfg.sourceDir, cfg.destDir, cfg.requiredFiles) == []
        && Enumerate(cfg.sourceDir, visits).Some?
        && var files := Enumerate(cfg.sourceDir, visits).value;
           exists i :: 0 <= i < |files| && files[i].isDir && IsNotExist(Stat(dest, EntryPath(cfg.destDir, files[i])))
    ensures RunSpec(cfg, src, visits, dest).Exited? && RunSpec(cfg, src, visits, dest).code == 2 ==>
      RunSpec(cfg, src, visits, dest).tree == dest
  {
    if ValidationErrors(src, dest, cfg.sourceDir, cfg.destDir, cfg.requiredFiles) == [] && Enumerate(cfg.sourceDir, visits).Some? {
      var files := Enumerate(cfg.sourceDir, visits).value;
      ReportOnlyFindsMissingDirs(cfg.destDir, Start(dest), files);
    }
  }

  /** With auto-create on, exit code 2 never happens. */
  lemma AutoCreateNeverExitTwo(cfg: Config, src: Fs, visits: seq<Visit>, dest: Fs)
    requires cfg.autoCreate
    ensures var o := RunSpec(cfg, src, visits, dest);
      !(o.Exited? && o.code == 2)
  {
    if ValidationErrors(src, dest, cfg.sourceDir, cfg.destDir, cfg.requiredFiles) == [] && Enumerate(cfg.sourceDir, visits).Some? {
      var files := Enumerate(cfg.sourceDir, visits).value;
      if ScanAll(cfg.destDir, true, Start(dest), files).Some? {
        AutoCreateReconciles(cfg.destDir, Start(dest), files);
      }
    }
  }

  /**
   Every exit other than 0 happens before any file is written: the
   destination has at most gained new 0755 directories, each at the
   destination path of a directory entry.
   */
  lemma FailedExitWritesNoFile(cfg: Config, src: Fs, visits: seq<Visit>, dest: Fs)
    requires RunSpec(cfg, src, visits, dest).Exited? && RunSpec(cfg, src, visits, dest).code != 0
    ensures var t := RunSpec(cfg, src, visits, dest).tree;
      && Grows(dest, t)
      && (forall p :: p in dest.nodes ==> t.nodes[p] == dest.nodes[p])
      && (forall p :: p in t.nodes && p !in dest.nodes ==>
            && t.nodes[p] == Dir(DirMode)
            && Enumerate(cfg.sourceDir, visits).Some?
            && IsDirTarget(cfg.destDir, Enumerate(cfg.sourceDir, visits).value, p))
  {
    if ValidationErrors(src, dest, cfg.sourceDir, cfg.destDir, cfg.requiredFiles) == [] {
      var files := Enumerate(cfg.sourceDir, visits).value;
      ScanOnlyAddsDirs(cfg.destDir, cfg.autoCreate, Start(dest), files);
    }
  }

  /**
   `t` is `dest` with the source overlaid: every file entry's destination
   holds the source bytes, with its old mode if it existed and 0644 if it is
   new; every other path is as it was, or is a new 0755 directory at the
   destination path of a directory entry.
   */
  ghost predicate Overlaid(src: Fs, sourceDir: Path, destDir: Path, files: seq<WpFile>, dest: Fs, t: Fs)
  {
    && t.broken == dest.broken
    && (forall i :: 0 <= i < |files| && !files[i].isDir ==>
          var p := EntryPath(destDir, files[i]);
          && ReadFile(src, EntryPath(sourceDir, files[i])).Some?
          && p in t.nodes && p !in t.broken
          && t.nodes[p] == File(ModeAfterWrite(dest, p), ReadFile(src, EntryPath(sourceDir, files[i])).value))
    && (forall p :: !IsFileTarget(destDir, files, p) && p in dest.nodes ==> p in t.nodes && t.nodes[p] == dest.nodes[p])
    && (forall p :: !IsFileTarget(destDir, files, p) && p in t.nodes && p !in dest.nodes ==>
          t.nodes[p] == Dir(DirMode) && IsDirTarget(destDir, files, p))
  }

  /** Copying over a tree that the pass only extended with directories overlays the source on the original tree. */
  lemma CopyOverScannedTree(src: Fs, sourceDir: Path, destDir: Path, files: seq<WpFile>, dest: Fs, mid: Fs)
    requires DirsAdded(dest, mid, destDir, files)
    requires CopyAll(src, sourceDir, destDir, mid, files).Some?
    ensures Overlaid(src, sourceDir, destDir, files, dest, CopyAll(src, sourceDir, destDir, mid, files).value)
  {
    var t := CopyAll(src, sourceDir, destDir, mid, files).value;
    CopyFrame(src, sourceDir, destDir, mid, files);
    forall i | 0 <= i < |files| && !files[i].isDir
      ensures var p := EntryPath(destDir, files[i]);
        && ReadFile(src, EntryPath(sourceDir, files[i])).Some?
        && p in t.nodes && p !in t.broken
        && t.nodes[p] == File(ModeAfterWrite(dest, p), ReadFile(src, EntryPath(sourceDir, files[i])).value)
    {
      CopyWrites(src, sourceDir, destDir, mid, files, i);
    }
  }

  /** Exit code 0 means: valid, the walk, the pass and the copy all completed, and every gate passed. */
  lemma SuccessPath(cfg: Config, src: Fs, visits: seq<Visit>, dest: Fs)
    requires RunSpec(cfg, src, visits, dest).Exited? && RunSpec(cfg, src, visits, dest).code == 0
    ensures ValidationErrors(src, dest, cfg.sourceDir, cfg.destDir, cfg.requiredFiles) == []
    ensures Enumerate(cfg.sourceDir, visits).Some?
    ensures var files := Enumerate(cfg.sourceDir, visits).value;
      && ScanAll(cfg.destDir, cfg.autoCreate, Start(dest), files).Some?
      && var s := ScanAll(cfg.destDir, cfg.autoCreate, Start(dest), files).value;
         && Gate(s, cfg.minPct) == 0
         && CopyAll(src, cfg.sourceDir, cfg.destDir, s.tree, files) == Some(RunSpec(cfg, src, visits, dest).tree)
  {
  }

  /**
   After exit code 0 the fraction the gate saw was at least min-pct, and the
   destination is the old one with the source overlaid.
   */
  lemma SuccessOverlaysSource(cfg: Config, src: Fs, visits: seq<Visit>, dest: Fs)
    requires RunSpec(cfg, src, visits, dest).Exited? && RunSpec(cfg, src, visits, dest).code == 0
    ensures Enumerate(cfg.sourceDir, visits).Some?
    ensures var files := Enumerate(cfg.sourceDir, visits).value;
      && ScanAll(cfg.destDir, cfg.autoCreate, Start(dest), files).Some?
      && var s := ScanAll(cfg.destDir, cfg.autoCreate, Start(dest), files).value;
         && !s.pathErrs && s.total > 0 && (s.existing as real) / (s.total as real) >= cfg.minPct
         && Overlaid(src, cfg.sourceDir, cfg.destDir, files, dest, RunSpec(cfg, src, visits, dest).tree)
  {
    SuccessPath(cfg, src, visits, dest);
    var files := Enumerate(cfg.sourceDir, visits).value;
    var s := ScanAll(cfg.destDir, cfg.autoCreate, Start(dest), files).value;
    ScanOnlyAddsDirs(cfg.destDir, cfg.autoCreate, Start(dest), files);
    CopyOverScannedTree(src, cfg.sourceDir, cfg.destDir, files, dest, s.tree);
  }

  /** A root that loses no path and no regular file, and keeps `broken`, keeps its markers. */
  lemma MarkersKept(a: Fs, b: Fs, markers: seq<string>, dir: Path)
    requires Grows(a, b) && MarkersPresent(a, markers, dir)
    ensures MarkersPresent(b, markers, dir)
  {
    forall i | 0 <= i < |markers| ensures !IsNotExist(Stat(b, Join(dir, markers[i]))) {
      StatGrows(a, b, Join(dir, markers[i]));
    }
  }

  /** There is a file entry iff the file count is positive. */
  lemma {:induction false} CountFilesPositive(files: seq<WpFile>)
    ensures CountFiles(files) > 0 <==> exists i :: 0 <= i < |files| && !files[i].isDir
  {
    if files != [] {
      var init := files[..|files| - 1];
      CountFilesPositive(init);
      if exists i :: 0 <= i < |init| && !init[i].isDir {
        var i :| 0 <= i < |init| && !init[i].isDir;
        assert files[i] == init[i];
      }
      if exists i :: 0 <= i < |files| && !files[i].isDir {
        var i :| 0 <= i < |files| && !files[i].isDir;
        if i < |init| {
          assert init[i] == files[i];
        }
      }
    }
  }

  /**
   A destination that already holds every directory and every file of the
   source is refused with exit code 4 whenever min-pct is positive: the
   counter at line 131 counts absent files, so it sees a fraction of 0.
   */
  lemma CompleteDestinationRefused(cfg: Config, src: Fs, visits: seq<Visit>, dest: Fs)
    requires ValidationErrors(src, dest, cfg.sourceDir, cfg.destDir, cfg.requiredFiles) == []
    requires Enumerate(cfg.sourceDir, visits).Some?
    requires var files := Enumerate(cfg.sourceDir, visits).value;
      && (exists i :: 0 <= i < |files| && !files[i].isDir)
      && (forall i :: 0 <= i < |files| ==> Stat(dest, EntryPath(cfg.destDir, files[i])).Found?)
    requires cfg.minPct > 0.0
    ensures RunSpec(cfg, src, visits, dest) == Exited(4, dest)
  {
    var files := Enumerate(cfg.sourceDir, visits).value;
    CountFilesPositive(files);
    CompleteDestinationGate(cfg, dest, files);
    var s := Start(dest).(total := CountFiles(files));
    assert AfterWalk(cfg, src, dest, files) == AfterScan(cfg, src, files, s);
  }

  /**
   Over a destination holding every directory entry and every file entry the
   pass changes nothing and counts no file as "existing": the gate gives 4
   when min-pct is positive, and lets the copy run otherwise.
   */
  lemma CompleteDestinationGate(cfg: Config, t: Fs, files: seq<WpFile>)
    requires CountFiles(files) > 0
    requires forall i :: 0 <= i < |files| && files[i].isDir ==> !IsNotExist(Stat(t, EntryPath(cfg.destDir, files[i])))
    requires forall i :: 0 <= i < |files| && !files[i].isDir ==> Stat(t, EntryPath(cfg.destDir, files[i])).Found?
    ensures ScanAll(cfg.destDir, cfg.autoCreate, Start(t), files) == Some(Start(t).(total := CountFiles(files)))
    ensures Gate(Start(t).(total := CountFiles(files)), cfg.minPct) == if cfg.minPct > 0.0 then 4 else 0
  {
    ScanOverPresentDirs(cfg.destDir, cfg.autoCreate, Start(t), files);
    NoAbsentFiles(t, cfg.destDir, files);
    GateWithNoneCounted(Start(t).(total := CountFiles(files)), cfg.minPct);
  }

  /**
   A destination that lacks every file of the source passes the coverage gate
   for any min-pct up to 1: the fraction the gate sees is 1. The run goes on
   to the copy phase.
   */
  lemma EmptyDestinationAccepted(cfg: Config, src: Fs, visits: seq<Visit>, dest: Fs)
    requires ValidationErrors(src, dest, cfg.sourceDir, cfg.destDir, cfg.requiredFiles) == []
    requires Enumerate(cfg.sourceDir, visits).Some?
    requires var files := Enumerate(cfg.sourceDir, visits).value;
      && (exists i :: 0 <= i < |files| && !files[i].isDir)
      && (forall i :: 0 <= i < |files| && files[i].isDir ==> Stat(dest, EntryPath(cfg.destDir, files[i])).Found?)
      && (forall i :: 0 <= i < |files| && !files[i].isDir ==> IsNotExist(Stat(dest, EntryPath(cfg.destDir, files[i]))))
    requires cfg.minPct <= 1.0
    ensures var files := Enumerate(cfg.sourceDir, visits).value;
      RunSpec(cfg, src, visits, dest)
        == match CopyAll(src, cfg.sourceDir, cfg.destDir, dest, files)
           case None => Panicked
           case Some(t) => Exited(0, t)
  {
    var files := Enumerate(cfg.sourceDir, visits).value;
    EmptyDestinationPassesGate(cfg, src, dest, files);
  }

  lemma EmptyDestinationPassesGate(cfg: Config, src: Fs, dest: Fs, files: seq<WpFile>)
    requires exists i :: 0 <= i < |files| && !files[i].isDir
    requires forall i :: 0 <= i < |files| && files[i].isDir ==> Stat(dest, EntryPath(cfg.destDir, files[i])).Found?
    requires forall i :: 0 <= i < |files| && !files[i].isDir ==> IsNotExist(Stat(dest, EntryPath(cfg.destDir, files[i])))
    requires cfg.minPct <= 1.0
    ensures AfterWalk(cfg, src, dest, files)
        == match CopyAll(src, cfg.sourceDir, cfg.destDir, dest, files)
           case None => Panicked
           case Some(t) => Exited(0, t)
  {
    EmptyDestinationScan(cfg.destDir, cfg.autoCreate, dest, files);
    CountFilesPositive(files);
    var n := CountFiles(files);
    var s := Start(dest).(existing := n, total := n);
    GateWithAllCounted(s, cfg.minPct);
    assert AfterWalk(cfg, src, dest, files) == AfterScan(cfg, src, files, s);
  }

  /** Over present directories and absent files, the pass counts every file entry as "existing". */
  lemma EmptyDestinationScan(destDir: Path, autoCreate: bool, dest: Fs, files: seq<WpFile>)
    requires forall i :: 0 <= i < |files| && files[i].isDir ==> Stat(dest, EntryPath(destDir, files[i])).Found?
    requires forall i :: 0 <= i < |files| && !files[i].isDir ==> IsNotExist(Stat(dest, EntryPath(destDir, files[i])))
    ensures ScanAll(destDir, autoCreate, Start(dest), files)
      == Some(Start(dest).(existing := CountFiles(files), total := CountFiles(files)))
  {
    ScanOverPresentDirs(destDir, autoCreate, Start(dest), files);
    AllFilesAbsent(dest, destDir, files);
  }

  /** Every file entry counts as absent iff each one's destination stat fails. */
  lemma {:induction false} AllFilesAbsent(fs: Fs, destDir: Path, files: seq<WpFile>)
    requires forall i :: 0 <= i < |files| && !files[i].isDir ==> Stat(fs, EntryPath(destDir, files[i])).Failed?
    ensures CountAbsent(fs, destDir, files) == CountFiles(files)
  {
    if files != [] {
      var init := files[..|files| - 1];
      forall i | 0 <= i < |init| && !init[i].isDir ensures Stat(fs, EntryPath(destDir, init[i])).Failed? {
        assert init[i] == files[i];
      }
      AllFilesAbsent(fs, destDir, init);
    }
  }

  /** Validation that passed keeps passing on a destination that only grew. */
  lemma ValidationKept(src: Fs, dest: Fs, t: Fs, sourceDir: Path, destDir: Path, requiredFiles: string)
    requires Grows(dest, t)
    requires ValidationErrors(src, dest, sourceDir, destDir, requiredFiles) == []
    ensures ValidationErrors(src, t, sourceDir, destDir, requiredFiles) == []
  {
    if requiredFiles != "" && destDir != "" {
      MarkersKept(dest, t, Split(requiredFiles), destDir);
    }
  }

  /** The copy phase removes no path. */
  lemma CopyKeepsPaths(src: Fs, sourceDir: Path, destDir: Path, fs: Fs, files: seq<WpFile>)
    requires CopyAll(src, sourceDir, destDir, fs, files).Some?
    ensures Grows(fs, CopyAll(src, sourceDir, destDir, fs, files).value)
  {
    var t := CopyAll(src, sourceDir, destDir, fs, files).value;
    CopyFrame(src, sourceDir, destDir, fs, files);
    forall p | p in fs.nodes ensures p in t.nodes {
      if IsFileTarget(destDir, files, p) {
        var i :| 0 <= i < |files| && !files[i].isDir && EntryPath(destDir, files[i]) == p;
        CopyWrites(src, sourceDir, destDir, fs, files, i);
      }
    }
  }

  /**
   Main over a destination that holds every directory entry and every file
   entry, and that the copy would leave as it is: with a positive min-pct it
   is refused with exit code 4, otherwise the copy runs and changes nothing.
   */
  lemma RerunOverComplete(cfg: Config, src: Fs, files: seq<WpFile>, t: Fs)
    requires CountFiles(files) > 0
    requires forall i :: 0 <= i < |files| && files[i].isDir ==> !IsNotExist(Stat(t, EntryPath(cfg.destDir, files[i])))
    requires forall i :: 0 <= i < |files| && !files[i].isDir ==> Stat(t, EntryPath(cfg.destDir, files[i])).Found?
    requires CopyAll(src, cfg.sourceDir, cfg.destDir, t, files) == Some(t)
    ensures AfterWalk(cfg, src, t, files) == if cfg.minPct > 0.0 then Exited(4, t) else Exited(0, t)
  {
    CompleteDestinationGate(cfg, t, files);
    var s := Start(t).(total := CountFiles(files));
    assert AfterWalk(cfg, src, t, files) == AfterScan(cfg, src, files, s);
  }

  /**
   Running again after a successful run over a closed destination: with a
   positive min-pct the second run is refused with exit code 4 and touches
   nothing; otherwise it succeeds and leaves the destination as the first run
   left it.
   */
  lemma SecondRun(cfg: Config, src: Fs, visits: seq<Visit>, dest: Fs)
    requires Closed(dest)
    requires RunSpec(cfg, src, visits, dest).Exited? && RunSpec(cfg, src, visits, dest).code == 0
    ensures var t := RunSpec(cfg, src, visits, dest).tree;
      RunSpec(cfg, src, visits, t) == if cfg.minPct > 0.0 then Exited(4, t) else Exited(0, t)
  {
    SuccessPath(cfg, src, visits, dest);
    var t := RunSpec(cfg, src, visits, dest).tree;
    var files := Enumerate(cfg.sourceDir, visits).value;
    var s := ScanAll(cfg.destDir, cfg.autoCreate, Start(dest), files).value;
    assert !s.pathErrs && s.total > 0;
    ScanCounts(cfg.destDir, cfg.autoCreate, Start(dest), files);
    ScanOnlyAddsDirs(cfg.destDir, cfg.autoCreate, Start(dest), files);
    CopyKeepsPaths(src, cfg.sourceDir, cfg.destDir, s.tree, files);
    CopyOverScannedTree(src, cfg.sourceDir, cfg.destDir, files, dest, s.tree);
    ValidationKept(src, dest, t, cfg.sourceDir, cfg.destDir, cfg.requiredFiles);
    if cfg.autoCreate {
      AutoCreateReconciles(cfg.destDir, Start(dest), files);
    } else {
      ReportOnlyFindsMissingDirs(cfg.destDir, Start(dest), files);
    }
    forall i | 0 <= i < |files| && files[i].isDir
      ensures !IsNotExist(Stat(t, EntryPath(cfg.destDir, files[i])))
    {
      assert !IsNotExist(Stat(s.tree, EntryPath(cfg.destDir, files[i])));
      StatGrows(s.tree, t, EntryPath(cfg.destDir, files[i]));
    }
    ScanKeepsClosed(cfg.destDir, cfg.autoCreate, Start(dest), files);
    CopyIdempotent(src, cfg.sourceDir, cfg.destDir, s.tree, files);
    CopyKeepsClosed(src, cfg.sourceDir, cfg.destDir, s.tree, files);
    forall i | 0 <= i < |files| && !files[i].isDir
      ensures Stat(t, EntryPath(cfg.destDir, files[i])).Found?
    {
      ClosedNotBlocked(t, EntryPath(cfg.destDir, files[i]));
    }
    RerunOverComplete(cfg, src, files, t);
  }
}
