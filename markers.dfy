/**
 The marker-file check (hasRequiredFiles) and the validation half of init,
 which decides whether the run stops with exit code 1.
 */
module Markers {
  import opened FileSystem

  /** strings.Split(s, ","): the pieces between commas, in order; "" splits into [""]. */
  function Split(s: string): (pieces: seq<string>)
    ensures |pieces| >= 1
    ensures forall i :: 0 <= i < |pieces| ==> ',' !in pieces[i]
    decreases |s|
  {
    if s == [] then [""]
    else
      var rest := Split(s[1..]);
      if s[0] == ',' then [""] + rest
      else [[s[0]] + rest[0]] + rest[1..]
  }

  /** strings.Join(pieces, ","), the inverse of Split. */
  function JoinPieces(pieces: seq<string>): string
    requires |pieces| >= 1
  {
    if |pieces| == 1 then pieces[0]
    else pieces[0] + "," + JoinPieces(pieces[1..])
  }

  /** Splitting loses nothing: the pieces joined back with commas give the input. */
  lemma {:induction false} JoinSplit(s: string)
    ensures JoinPieces(Split(s)) == s
    decreases |s|
  {
    if s != [] {
      var rest := Split(s[1..]);
      JoinSplit(s[1..]);
      if s[0] == ',' {
        assert s == "," + s[1..];
      } else if |rest| == 1 {
        assert Split(s) == [[s[0]] + rest[0]];
        assert s == [s[0]] + s[1..];
      } else {
        var pieces := Split(s);
        assert pieces[1..] == rest[1..];
        assert JoinPieces(rest) == rest[0] + "," + JoinPieces(rest[1..]);
        assert s == [s[0]] + s[1..];
      }
    }
  }

  /** Splitting a comma-free prefix glues it onto the first piece of the rest. */
  lemma {:induction false} SplitGlue(w: string, t: string)
    requires ',' !in w
    ensures Split(w + t) == [w + Split(t)[0]] + Split(t)[1..]
    decreases |w|
  {
    if w != [] {
      assert (w + t)[1..] == w[1..] + t;
      SplitGlue(w[1..], t);
      var r, rest := Split(t), Split(w[1..] + t);
      assert rest[0] == w[1..] + r[0] && rest[1..] == r[1..];
      assert w + r[0] == [w[0]] + (w[1..] + r[0]);
    } else {
      var r := Split(t);
      assert w + t == t && w + r[0] == r[0];
      assert r == [r[0]] + r[1..];
    }
  }

  /** Joining comma-free pieces and splitting again gives the pieces back. */
  lemma {:induction false} SplitJoin(pieces: seq<string>)
    requires |pieces| >= 1
    requires forall i :: 0 <= i < |pieces| ==> ',' !in pieces[i]
    ensures Split(JoinPieces(pieces)) == pieces
    decreases |pieces|
  {
    if |pieces| == 1 {
      SplitGlue(pieces[0], "");
      assert pieces[0] + "" == pieces[0];
    } else {
      var t := JoinPieces(pieces[1..]);
      SplitJoin(pieces[1..]);
      assert Split("," + t) == [""] + Split(t);
      assert pieces[0] + "," + t == pieces[0] + ("," + t);
      SplitGlue(pieces[0], "," + t);
      assert pieces[0] + "" == pieces[0];
    }
  }

  /** Each marker's path under `dir` is something other than "does not exist". */
  predicate MarkersPresent(fs: Fs, markers: seq<string>, dir: Path)
  {
    forall i :: 0 <= i < |markers| ==> !IsNotExist(Stat(fs, Join(dir, markers[i])))
  }

  /**
   hasRequiredFiles: the directory is valid iff no marker reports "does not
   exist"; any other stat error counts as present. The loop stops at the first
   missing marker: `probed` is the number of stats made.
   */
  method HasRequiredFiles(fs: Fs, requiredFiles: string, dir: Path) returns (valid: bool, ghost probed: nat)
    ensures valid <==> MarkersPresent(fs, Split(requiredFiles), dir)
    ensures 1 <= probed <= |Split(requiredFiles)|
    ensures valid ==> probed == |Split(requiredFiles)|
    ensures !valid ==> IsNotExist(Stat(fs, Join(dir, Split(requiredFiles)[probed - 1])))
    ensures !valid ==> MarkersPresent(fs, Split(requiredFiles)[..probed - 1], dir)
  {
    var fileList := Split(requiredFiles);
    valid := true;
    probed := 0;
    for i := 0 to |fileList|
      invariant valid && probed == i
      invariant MarkersPresent(fs, fileList[..i], dir)
    {
      var requiredFilePath := Join(dir, fileList[i]);
      probed := probed + 1;
      if IsNotExist(Stat(fs, requiredFilePath)) {
        valid := false;
        assert fileList[..i] == fileList[..probed - 1];
        return;
      }
      assert fileList[..i + 1] == fileList[..i] + [fileList[i]];
    }
    assert fileList[..|fileList|] == fileList;
  }

  /** The complaints init prints before it exits with code 1. */
  datatype ConfigError = NoSourceDir | InvalidSourceDir | NoDestDir | InvalidDestDir

  /** The complaints about one root: none given, or markers missing below it. */
  function RootErrors(fs: Fs, root: Path, requiredFiles: string, none: ConfigError, invalid: ConfigError): seq<ConfigError>
  {
    if root == "" then [none]
    else if requiredFiles != "" && !MarkersPresent(fs, Split(requiredFiles), root) then [invalid]
    else []
  }

  /** All complaints of init, source root first; both roots are always examined. */
  function ValidationErrors(src: Fs, dest: Fs, sourceDir: Path, destDir: Path, requiredFiles: string): seq<ConfigError>
  {
    RootErrors(src, sourceDir, requiredFiles, NoSourceDir, InvalidSourceDir)
    + RootErrors(dest, destDir, requiredFiles, NoDestDir, InvalidDestDir)
  }

  /** The validation half of init, with the marker check done by HasRequiredFiles. */
  method Validate(src: Fs, dest: Fs, sourceDir: Path, destDir: Path, requiredFiles: string)
    returns (errs: seq<ConfigError>)
    ensures errs == ValidationErrors(src, dest, sourceDir, destDir, requiredFiles)
  {
    errs := [];
    if sourceDir == "" {
      errs := errs + [NoSourceDir];
    } else if requiredFiles != "" {
      var ok, _ := HasRequiredFiles(src, requiredFiles, sourceDir);
      if !ok {
        errs := errs + [InvalidSourceDir];
      }
    }
    if destDir == "" {
      errs := errs + [NoDestDir];
    } else if requiredFiles != "" {
      var ok, _ := HasRequiredFiles(dest, requiredFiles, destDir);
      if !ok {
        errs := errs + [InvalidDestDir];
      }
    }
  }

  /**
   init exits with code 1 iff a root is missing, or markers are given and one
   of the roots lacks one. Each complaint is reported on its own, so a bad
   source does not hide a bad destination.
   */
  lemma ValidationVerdict(src: Fs, dest: Fs, sourceDir: Path, destDir: Path, requiredFiles: string)
    ensures var errs := ValidationErrors(src, dest, sourceDir, destDir, requiredFiles);
      && (errs != [] <==>
            || sourceDir == ""
            || destDir == ""
            || (requiredFiles != "" && (!MarkersPresent(src, Split(requiredFiles), sourceDir)
                                        || !MarkersPresent(dest, Split(requiredFiles), destDir))))
      && (NoSourceDir in errs <==> sourceDir == "")
      && (InvalidSourceDir in errs <==>
            sourceDir != "" && requiredFiles != "" && !MarkersPresent(src, Split(requiredFiles), sourceDir))
      && (NoDestDir in errs <==> destDir == "")
      && (InvalidDestDir in errs <==>
            destDir != "" && requiredFiles != "" && !MarkersPresent(dest, Split(requiredFiles), destDir))
  {
  }

  /** An empty piece (as in "a,,b") names the root itself. */
  lemma EmptyMarkerIsRoot(fs: Fs, requiredFiles: string, dir: Path, i: nat)
    requires i < |Split(requiredFiles)| && Split(requiredFiles)[i] == ""
    ensures MarkersPresent(fs, Split(requiredFiles), dir) ==> !IsNotExist(Stat(fs, dir))
  {
    var markers := Split(requiredFiles);
    assert Join(dir, markers[i]) == dir;
  }
}
