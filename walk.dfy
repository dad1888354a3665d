/**
 The enumeration of the source tree: the callback main hands to
 filepath.Walk, which turns each visited path into a name relative to the
 source root, drops hidden entries and appends the rest to srcFiles.
 */
module SourceWalk {
  import opened Wrappers
  import opened FileSystem

  /** One call of the walk callback: a visited path and whether it is a directory, or a walk error. */
  datatype Visit = Visit(path: Path, isDir: bool) | VisitError(path: Path)

  /** An entry of srcFiles: the path relative to the source root, and whether it is a directory. */
  datatype WpFile = WpFile(name: string, isDir: bool)

  /** The path of an entry below a root (the joins at lines 114, 130, 155 and 156). */
  function EntryPath(root: Path, f: WpFile): Path
  {
    Join(root, f.name)
  }

  /** What the callback does with one visit. */
  datatype Step = Keep(file: WpFile) | Ignore | Panic

  /**
   The walk callback. A path no longer than the root (the root itself) is
   passed over; otherwise the root and one separator are cut off by length,
   and the entry is kept unless its first character is '.'. A walk error
   panics, and so does a path exactly one character longer than the root,
   whose relative name is empty and cannot be sliced.
   */
  function Callback(sourceDir: Path, v: Visit): (s: Step)
    ensures s.Keep? <==> v.Visit? && |v.path| > |sourceDir| + 1 && v.path[|sourceDir| + 1] != '.'
    ensures s.Keep? ==> s.file == WpFile(v.path[|sourceDir| + 1..], v.isDir)
    ensures s == Panic <==> v.VisitError? || |v.path| == |sourceDir| + 1
  {
    match v
    case VisitError(_) => Panic
    case Visit(filePath, isDir) =>
      if |filePath| > |sourceDir| then
        var abbrPath := filePath[|sourceDir| + 1..];
        if abbrPath == "" then Panic
        else if abbrPath[0] == '.' then Ignore
        else Keep(WpFile(abbrPath, isDir))
      else Ignore
  }

  /** srcFiles after the walk, or None when the callback panicked. */
  function Enumerate(sourceDir: Path, visits: seq<Visit>): Option<seq<WpFile>>
  {
    if visits == [] then Some([])
    else match Enumerate(sourceDir, visits[..|visits| - 1])
      case None => None
      case Some(files) =>
        match Callback(sourceDir, visits[|visits| - 1])
        case Panic => None
        case Ignore => Some(files)
        case Keep(f) => Some(files + [f])
  }

  /** filepath.Walk driving the callback: srcFiles grows by one entry per kept visit. */
  method CollectSourceFiles(sourceDir: Path, visits: seq<Visit>) returns (r: Option<seq<WpFile>>)
    ensures r == Enumerate(sourceDir, visits)
  {
    var srcFiles: seq<WpFile> := [];
    for i := 0 to |visits|
      invariant Enumerate(sourceDir, visits[..i]) == Some(srcFiles)
    {
      assert visits[..i + 1][..i] == visits[..i];
      match visits[i]
      case VisitError(_) =>
        EnumerateStopsAtPanic(sourceDir, visits, i + 1);
        return None;
      case Visit(filePath, isDir) =>
        if |filePath| > |sourceDir| {
          var abbrPath := filePath[|sourceDir| + 1..];
          if abbrPath == "" {
            EnumerateStopsAtPanic(sourceDir, visits, i + 1);
            return None;
          }
          if abbrPath[0] != '.' {
            srcFiles := srcFiles + [WpFile(abbrPath, isDir)];
          }
        }
    }
    assert visits[..|visits|] == visits;
    r := Some(srcFiles);
  }

  /** Once the callback has panicked, the walk as a whole has panicked. */
  lemma {:induction false} EnumerateStopsAtPanic(sourceDir: Path, visits: seq<Visit>, n: nat)
    requires n <= |visits| && Enumerate(sourceDir, visits[..n]) == None
    ensures Enumerate(sourceDir, visits) == None
    decreases |visits| - n
  {
    if n < |visits| {
      assert visits[..n + 1][..n] == visits[..n];
      EnumerateStopsAtPanic(sourceDir, visits, n + 1);
    } else {
      assert visits[..n] == visits;
    }
  }

  /** A completed walk went through every prefix of the visits. */
  lemma {:induction false} EnumeratePrefix(sourceDir: Path, visits: seq<Visit>, n: nat)
    requires n <= |visits| && Enumerate(sourceDir, visits).Some?
    ensures Enumerate(sourceDir, visits[..n]).Some?
    ensures |Enumerate(sourceDir, visits[..n]).value| <= |Enumerate(sourceDir, visits).value|
    ensures Enumerate(sourceDir, visits[..n]).value == Enumerate(sourceDir, visits).value[..|Enumerate(sourceDir, visits[..n]).value|]
    decreases |visits| - n
  {
    if n == |visits| {
      assert visits[..n] == visits;
    } else {
      var last := visits[..|visits| - 1];
      assert last[..n] == visits[..n];
      EnumeratePrefix(sourceDir, last, n);
    }
  }

  /** The walk panics iff the callback panics on some visit. */
  lemma {:induction false} EnumeratePanics(sourceDir: Path, visits: seq<Visit>)
    ensures Enumerate(sourceDir, visits) == None <==>
      exists j :: 0 <= j < |visits| && Callback(sourceDir, visits[j]) == Panic
  {
    if visits != [] {
      var last := visits[..|visits| - 1];
      EnumeratePanics(sourceDir, last);
      if Enumerate(sourceDir, last) == None {
        var j :| 0 <= j < |last| && Callback(sourceDir, last[j]) == Panic;
        assert visits[j] == last[j];
      }
      if Enumerate(sourceDir, visits) != None {
        forall j | 0 <= j < |visits| ensures Callback(sourceDir, visits[j]) != Panic {
          if j < |last| {
            assert visits[j] == last[j];
          }
        }
      }
    }
  }

  /**
   Every entry comes from a visit strictly below the root: its name is that
   visit's path with len(sourceDir)+1 leading characters cut off, and it is
   neither empty nor starts with '.'.
   */
  lemma {:induction false} EnumerateSound(sourceDir: Path, visits: seq<Visit>, k: nat)
    requires Enumerate(sourceDir, visits).Some? && k < |Enumerate(sourceDir, visits).value|
    ensures var f := Enumerate(sourceDir, visits).value[k];
      && f.name != "" && f.name[0] != '.'
      && exists j :: 0 <= j < |visits| && visits[j].Visit? && |visits[j].path| > |sourceDir| + 1
           && f == WpFile(visits[j].path[|sourceDir| + 1..], visits[j].isDir)
  {
    var last := visits[..|visits| - 1];
    var files := Enumerate(sourceDir, last).value;
    var v := visits[|visits| - 1];
    if k < |files| {
      EnumerateSound(sourceDir, last, k);
      var j :| 0 <= j < |last| && last[j].Visit? && |last[j].path| > |sourceDir| + 1
           && files[k] == WpFile(last[j].path[|sourceDir| + 1..], last[j].isDir);
      assert visits[j] == last[j];
    } else {
      assert Callback(sourceDir, v).Keep?;
    }
  }

  /**
   Every visit the callback keeps is in srcFiles, at the position given by the
   number of entries kept before it; so entries appear in walk order, and a
   directory the walk visits before its contents precedes them.
   */
  lemma {:induction false} EnumerateComplete(sourceDir: Path, visits: seq<Visit>, j: nat)
    requires Enumerate(sourceDir, visits).Some? && j < |visits| && Callback(sourceDir, visits[j]).Keep?
    ensures Enumerate(sourceDir, visits[..j]).Some? && Enumerate(sourceDir, visits[..j + 1]).Some?
    ensures var pos := |Enumerate(sourceDir, visits[..j]).value|;
      && pos < |Enumerate(sourceDir, visits).value|
      && Enumerate(sourceDir, visits).value[pos] == Callback(sourceDir, visits[j]).file
      && |Enumerate(sourceDir, visits[..j + 1]).value| == pos + 1
  {
    EnumeratePrefix(sourceDir, visits, j + 1);
    var pre := visits[..j + 1];
    assert pre[..j] == visits[..j];
    assert pre[j] == visits[j];
  }

  /** Two kept visits keep their relative order in srcFiles. */
  lemma EnumerateKeepsOrder(sourceDir: Path, visits: seq<Visit>, i: nat, j: nat)
    requires Enumerate(sourceDir, visits).Some? && i < j < |visits|
    requires Callback(sourceDir, visits[i]).Keep? && Callback(sourceDir, visits[j]).Keep?
    ensures var files := Enumerate(sourceDir, visits).value;
      exists p, q ::
        (0 <= p < q < |files| && files[p] == Callback(sourceDir, visits[i]).file
         && files[q] == Callback(sourceDir, visits[j]).file)
  {
    EnumerateComplete(sourceDir, visits, i);
    EnumerateComplete(sourceDir, visits, j);
    var p := |Enumerate(sourceDir, visits[..i]).value|;
    var q := |Enumerate(sourceDir, visits[..j]).value|;
    EnumeratePrefix(sourceDir, visits[..j], i + 1);
    assert visits[..j][..i + 1] == visits[..i + 1];
    assert p < q;
  }

  /** Only the first character is compared: a dot-file below a visible directory is kept. */
  lemma NestedDotFileKept()
    ensures Callback("src", Visit("src/wp-admin/.htaccess", false)) == Keep(WpFile("wp-admin/.htaccess", false))
    ensures Callback("src", Visit("src/.git/config", false)) == Ignore
  {
    assert "src/wp-admin/.htaccess"[4..] == "wp-admin/.htaccess";
  }

  /**
   The cut is by length, not by path: when the root is ".", the walk reports
   "index.php" without a "./" prefix, two characters are cut off, and a
   two-character name panics.
   */
  lemma DotRootCutsNames()
    ensures Callback(".", Visit("index.php", false)) == Keep(WpFile("dex.php", false))
    ensures Callback(".", Visit("wp", true)) == Panic
  {
    assert "index.php"[2..] == "dex.php";
  }
}
