/**
 The file-system operations the upgrader relies on (os.Stat, os.Mkdir,
 ioutil.ReadFile, ioutil.WriteFile, path.Join), stated on an abstract tree
 value. A tree maps full path strings to nodes; every path in `broken` makes
 each of these calls fail with an error other than "does not exist"
 (permission denied, an I/O error), and so does every path below an
 inaccessible path or below a regular file (ENOTDIR).
 */
module FileSystem {
  import opened Wrappers

  type Path = string
  type Bytes = seq<bv8>

  /** Permission bits of an os.FileMode. */
  type Mode = nat

  /** 0755: the mode the upgrader passes to os.Mkdir. */
  const DirMode: Mode := 493
  /** 0644: the default mode the upgrader passes to ioutil.WriteFile. */
  const FileMode: Mode := 420

  datatype Node = Dir(mode: Mode) | File(mode: Mode, data: Bytes)

  datatype Fs = Fs(nodes: map<Path, Node>, broken: set<Path>)

  /** The three classes of error the code tells apart: os.IsNotExist, os.IsExist, anything else. */
  datatype ErrorKind = NotExist | Exist | Other

  /** The outcome of os.Stat: a FileInfo, or an error. */
  datatype StatResult = Found(node: Node) | Failed(kind: ErrorKind)

  predicate IsNotExist(r: StatResult) {
    r == Failed(NotExist)
  }

  predicate IsExist(r: StatResult) {
    r == Failed(Exist)
  }

  /** The directory part of `p`, everything before its last '/'; None when `p` has no '/'. */
  function Dirname(p: Path): (r: Option<Path>)
    ensures r.Some? ==> |r.value| < |p| && r.value == p[..|r.value|] && p[|r.value|] == '/'
  {
    if p == "" then None
    else if p[|p| - 1] == '/' then Some(p[..|p| - 1])
    else Dirname(p[..|p| - 1])
  }

  /**
   Some directory above `p` is inaccessible or is a regular file, so resolving
   `p` fails with a permission error or ENOTDIR before `p` itself is looked at.
   */
  predicate Blocked(fs: Fs, p: Path)
    decreases |p|
  {
    match Dirname(p)
    case None => false
    case Some(d) => d != "" && (d in fs.broken || (d in fs.nodes && fs.nodes[d].File?) || Blocked(fs, d))
  }

  /** Every call on `p` fails with an error other than "does not exist". */
  predicate FailsOtherwise(fs: Fs, p: Path)
  {
    p in fs.broken || Blocked(fs, p)
  }

  /**
   os.Stat never reports "already exists": os.IsExist is false for each of its
   results. It reports "does not exist" exactly for a path with no node that
   nothing above blocks, and finds exactly the nodes that do not fail otherwise.
   */
  function Stat(fs: Fs, p: Path): (r: StatResult)
    ensures !IsExist(r)
    ensures IsNotExist(r) <==> p !in fs.nodes && !FailsOtherwise(fs, p)
    ensures r.Found? <==> p in fs.nodes && !FailsOtherwise(fs, p)
  {
    if FailsOtherwise(fs, p) then Failed(Other)
    else if p in fs.nodes then Found(fs.nodes[p])
    else Failed(NotExist)
  }

  /** path.Join of a cleaned root and a normalised relative name. */
  function Join(root: Path, name: Path): Path
  {
    if name == "" then root
    else if root == "" then name
    else root + "/" + name
  }

  /** Under one root, different names never join to the same path. */
  lemma JoinInjective(root: Path, a: Path, b: Path)
    requires Join(root, a) == Join(root, b)
    ensures a == b
  {
    if a != "" && b != "" && root != "" {
      assert a == (root + "/" + a)[|root| + 1..];
      assert b == (root + "/" + b)[|root| + 1..];
    }
  }

  /** The directory that would hold `p` exists (a name without '/' lives in the working directory). */
  predicate ParentIsDir(fs: Fs, p: Path)
  {
    match Dirname(p)
    case None => true
    case Some(d) => d == "" || (d !in fs.broken && d in fs.nodes && fs.nodes[d].Dir?)
  }

  /**
   The owner-write bit (0200) of a mode: whether the upgrader, which owns the
   tree, may change a file's contents or add entries to a directory.
   */
  predicate Writable(m: Mode)
  {
    (m / 128) % 2 == 1
  }

  /** The directory that would hold `p` accepts new entries (the working directory and "/" always do). */
  predicate ParentWritable(fs: Fs, p: Path)
  {
    match Dirname(p)
    case None => true
    case Some(d) => d == "" || (d in fs.nodes && Writable(fs.nodes[d].mode))
  }

  /**
   os.Mkdir: fails when `p` exists or fails otherwise, or when its parent is
   not a directory or refuses new entries.
   */
  function Mkdir(fs: Fs, p: Path, perm: Mode): Option<Fs>
  {
    if FailsOtherwise(fs, p) || p in fs.nodes || !ParentIsDir(fs, p) || !ParentWritable(fs, p) then None
    else Some(Fs(fs.nodes[p := Dir(perm)], fs.broken))
  }

  /** ioutil.ReadFile: the bytes of a regular file. */
  function ReadFile(fs: Fs, p: Path): Option<Bytes>
  {
    if FailsOtherwise(fs, p) || p !in fs.nodes || fs.nodes[p].Dir? then None
    else Some(fs.nodes[p].data)
  }

  /**
   ioutil.WriteFile: opens with create and truncate; `perm` is used only when
   the file is created, an existing file keeps its mode. Fails on a directory,
   a path that fails otherwise, a missing parent, a read-only existing file, and a
   new file in a directory that refuses new entries.
   */
  function WriteFile(fs: Fs, p: Path, data: Bytes, perm: Mode): Option<Fs>
  {
    if FailsOtherwise(fs, p) || !ParentIsDir(fs, p) then None
    else if p !in fs.nodes then
      if ParentWritable(fs, p) then Some(Fs(fs.nodes[p := File(perm, data)], fs.broken)) else None
    else match fs.nodes[p]
      case Dir(_) => None
      case File(m, _) => if Writable(m) then Some(Fs(fs.nodes[p := File(m, data)], fs.broken)) else None
  }

  /** Every directory of `a` is still there, unchanged, in `b`. */
  ghost predicate DirsKept(a: Fs, b: Fs)
  {
    forall d :: d in a.nodes && a.nodes[d].Dir? ==> d in b.nodes && b.nodes[d] == a.nodes[d]
  }

  /** A successful write replaces one regular file, or adds one; directories are left alone. */
  lemma WriteFileEffect(fs: Fs, p: Path, data: Bytes, perm: Mode)
    requires WriteFile(fs, p, data, perm).Some?
    ensures var after := WriteFile(fs, p, data, perm).value;
      && after.broken == fs.broken
      && !FailsOtherwise(fs, p) && ParentIsDir(fs, p)
      && (p in fs.nodes ==> fs.nodes[p].File? && Writable(fs.nodes[p].mode))
      && (p !in fs.nodes ==> ParentWritable(fs, p))
      && after.nodes == fs.nodes[p := File(if p in fs.nodes then fs.nodes[p].mode else perm, data)]
      && DirsKept(fs, after)
  {
  }

  /**
   Permission is separate from access: an existing read-only file stats
   successfully, yet a write to it fails; a missing directory under a
   read-only parent stats as "does not exist", yet creating it fails.
   */
  lemma StatDoesNotGrantWrite(fs: Fs, p: Path, data: Bytes, perm: Mode)
    requires !FailsOtherwise(fs, p)
    ensures p in fs.nodes && fs.nodes[p].File? && !Writable(fs.nodes[p].mode) ==>
      Stat(fs, p).Found? && WriteFile(fs, p, data, perm) == None
    ensures p !in fs.nodes && !ParentWritable(fs, p) ==>
      IsNotExist(Stat(fs, p)) && Mkdir(fs, p, perm) == None && WriteFile(fs, p, data, perm) == None
  {
  }

  /** The modes the upgrader creates with, 0755 and 0644, both let it write. */
  lemma CreatedModesWritable()
    ensures Writable(DirMode) && Writable(FileMode)
  {
  }

  /** Once a parent directory exists it keeps existing while directories are kept. */
  lemma ParentIsDirKept(a: Fs, b: Fs, p: Path)
    requires ParentIsDir(a, p) && DirsKept(a, b) && a.broken == b.broken
    ensures ParentIsDir(b, p)
  {
  }

  /**
   A path right below a regular file is not missing: os.Stat fails with
   ENOTDIR, which os.IsNotExist rejects, and nothing can be read, made or
   written there.
   */
  lemma BelowFileIsNotMissing(fs: Fs, p: Path, data: Bytes, perm: Mode)
    requires Dirname(p).Some? && Dirname(p).value != ""
    requires Dirname(p).value in fs.nodes && fs.nodes[Dirname(p).value].File?
    ensures Stat(fs, p) == Failed(Other) && !IsNotExist(Stat(fs, p))
    ensures ReadFile(fs, p) == None && Mkdir(fs, p, perm) == None && WriteFile(fs, p, data, perm) == None
  {
  }

  /** Whether a path is blocked depends only on `broken` and on where the regular files are. */
  lemma {:induction false} BlockedByFiles(a: Fs, b: Fs, p: Path)
    requires a.broken == b.broken
    requires forall d :: d in a.nodes && a.nodes[d].File? ==> d in b.nodes && b.nodes[d].File?
    requires Blocked(a, p)
    ensures Blocked(b, p)
    decreases |p|
  {
    var d := Dirname(p).value;
    if !(d in a.broken || (d in a.nodes && a.nodes[d].File?)) {
      BlockedByFiles(a, b, d);
    }
  }

  /**
   `b` has a node at every path `a` has one, every regular file of `a` is still
   a regular file, and `broken` is the same.
   */
  ghost predicate Grows(a: Fs, b: Fs)
  {
    && b.broken == a.broken
    && forall p :: p in a.nodes ==> p in b.nodes && (a.nodes[p].File? ==> b.nodes[p].File?)
  }

  /** A path that is present or fails otherwise stays so while the tree grows. */
  lemma StatGrows(a: Fs, b: Fs, p: Path)
    requires Grows(a, b) && !IsNotExist(Stat(a, p))
    ensures !IsNotExist(Stat(b, p))
  {
    if Blocked(a, p) {
      BlockedByFiles(a, b, p);
    }
  }

  /**
   A successful os.Mkdir makes `p` a directory that stats as found, and leaves
   the outcome of os.Stat on every other path as it was.
   */
  lemma MkdirEffect(fs: Fs, p: Path, perm: Mode)
    requires Mkdir(fs, p, perm).Some?
    ensures var after := Mkdir(fs, p, perm).value;
      && after.nodes == fs.nodes[p := Dir(perm)] && after.broken == fs.broken
      && IsNotExist(Stat(fs, p)) && Stat(after, p) == Found(Dir(perm))
      && forall q :: q != p ==> Stat(after, q) == Stat(fs, q)
  {
    var after := Mkdir(fs, p, perm).value;
    forall q
      ensures Blocked(after, q) == Blocked(fs, q)
    {
      if Blocked(after, q) {
        BlockedByFiles(after, fs, q);
      }
      if Blocked(fs, q) {
        BlockedByFiles(fs, after, q);
      }
    }
  }

  /**
   Every node and every path in `broken` sits in a directory node outside
   `broken`, as on a real disk: no path of the tree lies below a missing directory.
   */
  ghost predicate Closed(fs: Fs)
  {
    && (forall p :: p in fs.nodes ==> ParentIsDir(fs, p))
    && (forall p :: p in fs.broken ==> ParentIsDir(fs, p))
  }

  /** An inaccessible path below a missing directory makes a tree not closed, as no disk holds one. */
  lemma BrokenBelowMissingNotClosed()
    ensures !Closed(Fs(map["d" := Dir(DirMode)], {"d/m/x"}))
  {
    var fs := Fs(map["d" := Dir(DirMode)], {"d/m/x"});
    var p := "d/m/x";
    assert p[|p| - 1] == 'x' && p[..|p| - 1] == "d/m/";
    assert "d/m/"[..3] == "d/m";
    assert Dirname("d/m/") == Some("d/m");
    assert Dirname(p) == Some("d/m");
    assert p in fs.broken && !ParentIsDir(fs, p);
  }

  /** In a closed tree nothing above a node blocks it. */
  lemma {:induction false} ClosedNotBlocked(fs: Fs, p: Path)
    requires Closed(fs) && p in fs.nodes
    ensures !Blocked(fs, p)
    decreases |p|
  {
    match Dirname(p)
    case None =>
    case Some(d) =>
      if d != "" {
        ClosedNotBlocked(fs, d);
      }
  }

  /** os.Mkdir keeps a tree closed. */
  lemma MkdirKeepsClosed(fs: Fs, p: Path, perm: Mode)
    requires Closed(fs) && Mkdir(fs, p, perm).Some?
    ensures Closed(Mkdir(fs, p, perm).value)
  {
    var after := Mkdir(fs, p, perm).value;
    forall q | q in after.nodes ensures ParentIsDir(after, q) {
      ParentIsDirKept(fs, after, q);
    }
    forall q | q in after.broken ensures ParentIsDir(after, q) {
      ParentIsDirKept(fs, after, q);
    }
  }

  /** ioutil.WriteFile keeps a tree closed. */
  lemma WriteFileKeepsClosed(fs: Fs, p: Path, data: Bytes, perm: Mode)
    requires Closed(fs) && WriteFile(fs, p, data, perm).Some?
    ensures Closed(WriteFile(fs, p, data, perm).value)
  {
    var after := WriteFile(fs, p, data, perm).value;
    WriteFileEffect(fs, p, data, perm);
    forall q | q in after.nodes ensures ParentIsDir(after, q) {
      ParentIsDirKept(fs, after, q);
    }
    forall q | q in after.broken ensures ParentIsDir(after, q) {
      ParentIsDirKept(fs, after, q);
    }
  }
}
