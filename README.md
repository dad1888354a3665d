# wp-upgrade overlay-copy engine, modelled in Dafny

`wp-upgrade.go` upgrades an installed copy of a product (WordPress, originally)
in place. It overlays a pristine SOURCE tree onto an existing DESTINATION tree.
The program runs in four steps:

1. `init` checks both roots, and optionally a comma-separated list of marker
   files under each root (`hasRequiredFiles`). A failure exits with code 1.
2. `main` walks SOURCE. It keeps every entry whose relative name does not start
   with '.', in walk order.
3. One pass over those entries reconciles each directory with DESTINATION,
   either creating it (mode 0755) or reporting it missing. The same pass counts
   the file entries. Exit gates follow:
   - 2: a directory is missing;
   - 3: no files;
   - 4: the "existing" fraction is below `-min-pct`.
4. Each source file's bytes are written over its destination path.

The model is built as follows:

- The file system is a value `FileSystem.Fs`. It maps full paths to directory
  and file nodes. Its set `broken` holds the inaccessible paths: every call on
  one of them fails with an error other than "does not exist".
- A path is blocked (`FileSystem.Blocked`) when a directory above it is in
  `broken` or is a regular file. Every call on a blocked path fails with an
  error other than "does not exist", as Go's calls fail with a permission error
  or ENOTDIR. A path that is in `broken` or blocked fails otherwise
  (`FileSystem.FailsOtherwise`). So a marker or a directory entry below a regular file counts as
  present.
- A tree is closed (`FileSystem.Closed`) when the parent directory of every node
  and of every path in `broken` is a directory node outside `broken`, as on a
  real disk. The pass and the copy keep
  a tree closed.
- Permission to write is separate from access. A node's owner-write bit (0200)
  decides two things. An existing file without it refuses `WriteFile`. A
  directory without it refuses `Mkdir` and the creation of new files in it.
  `Stat` still succeeds on such paths.
- `os.Stat`, `os.Mkdir`, `ioutil.ReadFile`, `ioutil.WriteFile` and `path.Join`
  are functions over that value.
- The walk is a sequence of visits, given as a parameter (`SourceWalk.Visit`).
- Every step of `main` is specified by a function:
  - `SourceWalk.Enumerate` for the walk;
  - `Reconcile.ScanAll` for the pass;
  - `Reconcile.Gate` for the exit gates;
  - `Overlay.CopyAll` for the copy;
  - `Upgrade.RunSpec` for the whole run.
- The imperative code is a class `Upgrade.Destination`. Its `nodes` map is
  updated in place by `ReconcileAndCount` and `CopyFiles`. Each loop is proved
  against the function over the prefix it has processed.
- `Upgrade.Run` strings `init` and `main` together and is proved equal to
  `RunSpec`.
- A Go panic is the value `None` in the step functions and `Panicked` in the
  outcome. A real panic exits with status 2, the same number as the
  missing-directory gate. The model keeps the two apart.

## Where the code differs from its stated intent

The model follows the code as written. The design intent, as the program's own
names and messages state it, differs in four places.

- **The counter named `numFilesExisting` counts absent files.** Line 131 bumps it
  when `os.Stat` *fails* (`err != nil`), so it counts the destination files
  that are missing or fail otherwise. `Reconcile.ExistingCountsAbsentFiles`
  proves this. The consequences:
  - A destination that already holds every source file is refused with exit
    code 4 whenever `-min-pct` is positive (`Upgrade.CompleteDestinationRefused`).
  - A destination that holds none of the files passes the gate for any
    `-min-pct` up to 1 (`Upgrade.EmptyDestinationAccepted`).
  - A second run after a successful one is refused with code 4 unless
    `-min-pct` is 0 or below. It is not a no-op success (`Upgrade.SecondRun`).
- **The branch that keeps an existing file's mode is dead.** `os.IsExist` is
  never true for an error from `os.Stat`, so `ioutil.WriteFile` is always asked
  for 0644 (`Overlay.RequestedModeIs0644`). Existing files still keep their mode,
  because `WriteFile` applies the permission only when it creates the file.
  Files that are new get 0644 (`Overlay.CopyWrites`).
- **Marker check: only "does not exist" counts as missing.** A stat that fails
  for another reason (permission denied, or ENOTDIR below a regular file) counts
  as present (`Markers.HasRequiredFiles`).
- **Prefixes are cut by length, not by path.**
  - The walk callback cuts `len(sourceDir)+1` bytes from each path. With
    root `.` the walk reports `index.php` without a `./` prefix, so the entry
    becomes `dex.php`, and a two-byte name panics (`SourceWalk.DotRootCutsNames`,
    stated for ASCII names).
  - The skip test at line 113 is a raw string prefix. After a missing
    `wp-content`, the directory `wp-contents` is skipped too
    (`Reconcile.RawPrefixSkipsSibling`).
  - Only the first character of the relative name is compared with '.', so
    `wp-admin/.htaccess` is kept (`SourceWalk.NestedDotFileKept`).

## Model

| member | source | states |
|---|---|---|
| FileSystem.Blocked | wp-upgrade.go:30 | no contract: defines a path whose resolution fails above it, at a directory in `broken` or a regular file |
| FileSystem.Stat | wp-upgrade.go:30 | a stat result is never "already exists"; it is "does not exist" iff the path has no node and neither it nor anything above it is in `broken`, nor is anything above it a regular file; it finds exactly the nodes that do not fail otherwise |
| FileSystem.BelowFileIsNotMissing | wp-upgrade.go:30 | a path right below a regular file stats as an error other than "does not exist", and cannot be read, made or written |
| FileSystem.BlockedByFiles | wp-upgrade.go:30 | whether a path is blocked depends only on the set `broken` and on which paths are regular files |
| FileSystem.StatGrows | wp-upgrade.go:30 | a path that is present or fails otherwise stays so while the tree only gains nodes, keeps its regular files and keeps the set `broken` |
| FileSystem.MkdirEffect | wp-upgrade.go:115-118 | a successful mkdir follows a "does not exist" stat, makes the path stat as the new directory, and changes the stat of no other path |
| FileSystem.BrokenBelowMissingNotClosed | wp-upgrade.go:30 | a tree with a path in `broken` below a missing directory is not closed |
| FileSystem.ClosedNotBlocked | wp-upgrade.go:30 | in a closed tree nothing above a node blocks it |
| FileSystem.MkdirKeepsClosed | wp-upgrade.go:118 | a successful mkdir keeps a tree closed |
| FileSystem.WriteFileKeepsClosed | wp-upgrade.go:169 | a successful write keeps a tree closed |
| FileSystem.JoinInjective | wp-upgrade.go:130 | under one destination root, two different entry names never join to the same path |
| FileSystem.Join | wp-upgrade.go:29 | no contract: defines path.Join of a cleaned root and a relative name, as used at lines 29, 114, 130, 155 and 156 |
| FileSystem.Mkdir | wp-upgrade.go:118 | no contract: defines os.Mkdir, which fails on an existing path, a path in `broken` or a blocked one, a missing parent, or a parent without write permission |
| FileSystem.ReadFile | wp-upgrade.go:158 | no contract: defines ioutil.ReadFile, which gives the bytes of a regular file that does not fail otherwise, and fails on anything else |
| FileSystem.WriteFile | wp-upgrade.go:169 | no contract: defines ioutil.WriteFile, which truncates and writes, uses the given mode only for a new file, and fails on a directory, a path in `broken` or a blocked one, a missing parent, a read-only file, or a new file under a read-only directory |
| FileSystem.WriteFileEffect | wp-upgrade.go:169 | a successful write replaces or adds exactly one regular file and keeps an existing file's mode; it needs a path that does not fail otherwise, with an existing parent directory, a writable existing file, or a writable parent for a new one |
| FileSystem.StatDoesNotGrantWrite | wp-upgrade.go:115-118 | a read-only existing file stats successfully yet refuses a write; a missing path under a read-only parent stats as "does not exist" yet refuses mkdir and creation |
| FileSystem.CreatedModesWritable | wp-upgrade.go:118 | the modes the upgrader creates with, 0755 and 0644, both keep the owner-write bit |
| Markers.Split | wp-upgrade.go:26 | strings.Split on ',' gives at least one piece and no piece contains ',' |
| Markers.JoinSplit | wp-upgrade.go:26 | joining the pieces back with ',' gives the marker list unchanged |
| Markers.SplitJoin | wp-upgrade.go:26 | splitting comma-free pieces joined with ',' gives the pieces back |
| Markers.HasRequiredFiles | wp-upgrade.go:25-37 | the directory is valid iff no marker's stat reports "does not exist"; when invalid, the loop stopped at the first such marker and every earlier one was present |
| Markers.RootErrors | wp-upgrade.go:49-58 | no contract: defines the complaint for one root, "not given" or "markers missing" |
| Markers.ValidationErrors | wp-upgrade.go:48-69 | no contract: defines all complaints of init, source root first |
| Markers.Validate | wp-upgrade.go:48-74 | computes the complaints of init: for each root, "not given" or "markers missing", source first |
| Markers.ValidationVerdict | wp-upgrade.go:48-74 | init exits 1 iff a root is empty, or markers are given and either root lacks one; each of the four complaints appears iff its own condition holds |
| Markers.EmptyMarkerIsRoot | wp-upgrade.go:26-30 | an empty marker, as in "a,,b", tests the root itself |
| SourceWalk.Callback | wp-upgrade.go:82-101 | a visit is kept iff it is longer than the root plus one separator and its relative name does not start with '.'; the kept name is the path with that prefix cut off; a walk error or an empty relative name panics |
| SourceWalk.Enumerate | wp-upgrade.go:82-104 | no contract: defines srcFiles after the walk, applying Callback to each visit in order, or a panic |
| SourceWalk.CollectSourceFiles | wp-upgrade.go:79-104 | the walk loop builds srcFiles exactly as Enumerate says, or reports the panic |
| SourceWalk.EnumerateStopsAtPanic | wp-upgrade.go:83-85 | once the callback has panicked, the whole walk has panicked |
| SourceWalk.EnumeratePanics | wp-upgrade.go:83-91 | the walk panics iff the callback panics on some visit |
| SourceWalk.EnumerateSound | wp-upgrade.go:88-99 | every entry is non-empty, does not start with '.', and is some visit's path with the root prefix cut off |
| SourceWalk.EnumerateComplete | wp-upgrade.go:95-99 | every kept visit appears in srcFiles, at the position given by the number of entries kept before it |
| SourceWalk.EnumerateKeepsOrder | wp-upgrade.go:99 | two kept visits appear in srcFiles in walk order |
| SourceWalk.NestedDotFileKept | wp-upgrade.go:91-93 | a dot-file below a visible directory is kept; a hidden top-level entry is ignored |
| SourceWalk.DotRootCutsNames | wp-upgrade.go:88-91 | with root ".", "index.php" becomes "dex.php" and a two-byte ASCII name panics |
| Reconcile.ScanStep | wp-upgrade.go:112-134 | no contract: defines one iteration of the pass over srcFiles |
| Reconcile.ScanAll | wp-upgrade.go:111-135 | no contract: defines the pass over srcFiles, or a panic from mkdir |
| Reconcile.Gate | wp-upgrade.go:137-151 | no contract: defines the exit gates 2, 3 and 4 in that order, 0 when the copy runs |
| Reconcile.ScanStopsAtPanic | wp-upgrade.go:118-121 | once a mkdir has panicked, the whole pass has panicked |
| Reconcile.ScanOnlyAddsDirs | wp-upgrade.go:111-135 | the pass only adds 0755 directories at destination paths of directory entries, and changes nothing without auto-create |
| Reconcile.ScanCounts | wp-upgrade.go:128-134 | the total grows by the number of file entries, and "existing" grows by at most that many |
| Reconcile.ExistingCountsAbsentFiles | wp-upgrade.go:128-134 | numFilesExisting ends as the number of file entries whose destination stat fails on the tree before the pass; with auto-create, this needs that no name is both a directory and a file entry |
| Reconcile.DirsAddedKeepStats | wp-upgrade.go:115-131 | adding directories leaves the stat of every path that gained no node as it was |
| Reconcile.ScanKeepsClosed | wp-upgrade.go:111-135 | the pass keeps a closed tree closed |
| Reconcile.DirBelowFileNotMissing | wp-upgrade.go:112-126 | a directory entry whose destination lies below a regular file is neither created nor reported missing, with or without auto-create |
| Reconcile.ExistingAtMostTotal | wp-upgrade.go:109-134 | numFilesExisting never exceeds numFilesInTotal |
| Reconcile.AutoCreateReconciles | wp-upgrade.go:112-121 | with auto-create, no path error is recorded and afterwards every directory entry's destination exists or fails otherwise |
| Reconcile.AutoCreateMakesMissingDirs | wp-upgrade.go:115-121 | with auto-create, each missing directory entry is created with mode 0755 |
| Reconcile.ReportOnlyFindsMissingDirs | wp-upgrade.go:112-127 | without auto-create, the pass never panics and changes nothing; it records a path error iff some directory entry is missing; the last missing path names a missing directory |
| Reconcile.RawPrefixSkipsSibling | wp-upgrade.go:113 | after a missing "wp-content", "wp-contents" is passed over without a stat, whatever the tree holds, with or without auto-create |
| Reconcile.ScanOverPresentDirs | wp-upgrade.go:111-135 | when every directory entry is present, the pass leaves the tree alone and only counts the file entries and the absent ones |
| Reconcile.NoAbsentFiles | wp-upgrade.go:131-133 | no file entry is counted iff every file entry's destination stats successfully |
| Reconcile.GateVerdict | wp-upgrade.go:137-151 | exit 2 iff a path error; 3 iff none and no files; 4 iff existing < min-pct × total; otherwise the copy runs |
| Reconcile.GateWithNoneCounted | wp-upgrade.go:137-151 | with no file counted as "existing", the run stops with 4 exactly when min-pct is positive, otherwise the copy runs |
| Reconcile.GateWithAllCounted | wp-upgrade.go:137-151 | with every file counted as "existing", every gate passes for min-pct up to 1 |
| Overlay.ChooseMode | wp-upgrade.go:163-167 | no contract: defines the mode handed to WriteFile, with a panic where a nil FileInfo's mode would be read |
| Overlay.CopyStep | wp-upgrade.go:154-172 | no contract: defines one iteration of the copy loop |
| Overlay.CopyAll | wp-upgrade.go:153-175 | no contract: defines the copy loop over srcFiles, or a panic from a read or write |
| Overlay.RequestedModeIs0644 | wp-upgrade.go:163-167 | the mode requested for every write is 0644, because os.IsExist is never true after os.Stat |
| Overlay.CopyStopsAtPanic | wp-upgrade.go:158-172 | once a read or write has panicked, the whole copy has panicked |
| Overlay.CopyFrame | wp-upgrade.go:153-175 | the copy keeps every directory and the set `broken`, and leaves every path that is not a file entry's destination unchanged |
| Overlay.CopyWrites | wp-upgrade.go:153-173 | after the copy, each file entry's destination is a regular file holding the source bytes, with its old mode or 0644 if new; a file that existed before was writable |
| Overlay.CopyFixedPoint | wp-upgrade.go:153-175 | a tree that every copy step leaves alone comes through the whole copy unchanged |
| Overlay.CopyKeepsClosed | wp-upgrade.go:153-175 | the copy keeps a closed tree closed |
| Overlay.CopyIdempotent | wp-upgrade.go:153-175 | over a closed tree, copying again over the copied tree changes nothing |
| Upgrade.AfterScan | wp-upgrade.go:137-175 | no contract: defines the exit gates and, past them, the copy |
| Upgrade.AfterWalk | wp-upgrade.go:106-175 | no contract: defines everything main does after the walk |
| Upgrade.RunSpec | wp-upgrade.go:48-175 | no contract: defines the whole run, init then main, as an exit code with the destination tree, or a panic |
| Upgrade.Destination.ReconcileAndCount | wp-upgrade.go:106-135 | the in-place pass returns the counters and flags ScanAll gives, and the destination becomes ScanAll's tree |
| Upgrade.Destination.CopyFiles | wp-upgrade.go:153-175 | the in-place copy succeeds iff CopyAll does, and the destination becomes CopyAll's tree |
| Upgrade.Run | wp-upgrade.go:48-175 | init then main: the outcome is RunSpec's, and on exit the destination is the tree RunSpec gives |
| Upgrade.ExitOneIffInvalid | wp-upgrade.go:71-74 | exit 1 happens iff validation complains, and then the destination is untouched |
| Upgrade.ReportOnlyExitTwo | wp-upgrade.go:137-140 | without auto-create, exit 2 iff the run is valid, the walk completes and some directory entry is missing; the destination is then untouched |
| Upgrade.AutoCreateNeverExitTwo | wp-upgrade.go:117-121 | with auto-create, exit 2 never happens |
| Upgrade.FailedExitWritesNoFile | wp-upgrade.go:137-151 | every nonzero exit leaves every old path as it was; the only additions are 0755 directories at destination paths of directory entries |
| Upgrade.CopyOverScannedTree | wp-upgrade.go:153-173 | copying over a tree the pass extended with directories overlays the source onto the original destination |
| Upgrade.SuccessPath | wp-upgrade.go:137-175 | exit 0 means valid, walk, pass and copy completed, and every gate passed |
| Upgrade.SuccessOverlaysSource | wp-upgrade.go:147-175 | after exit 0, the fraction passed min-pct and every file entry holds the source bytes with its old mode or 0644; every other path is unchanged or a new 0755 directory at a directory entry's destination |
| Upgrade.MarkersKept | wp-upgrade.go:25-37 | a root that loses no path and no regular file, and keeps the set `broken`, keeps its markers |
| Upgrade.CountFilesPositive | wp-upgrade.go:129 | the file total is positive iff some entry is not a directory |
| Upgrade.CompleteDestinationRefused | wp-upgrade.go:129-150 | a valid run over a destination holding every entry is refused with exit 4 and untouched whenever min-pct > 0 |
| Upgrade.CompleteDestinationGate | wp-upgrade.go:106-151 | over a destination holding every entry, the pass changes nothing and counts no file as "existing", so the gate gives 4 if min-pct > 0 and lets the copy run otherwise |
| Upgrade.EmptyDestinationScan | wp-upgrade.go:106-135 | over present directories and absent files, the pass changes nothing and counts every file entry as "existing" |
| Upgrade.EmptyDestinationPassesGate | wp-upgrade.go:129-150 | when every directory is present and every file absent, the pass sees a fraction of 1, so with min-pct ≤ 1 the copy runs on the destination as it was |
| Upgrade.EmptyDestinationAccepted | wp-upgrade.go:129-150 | a valid run over a destination lacking every file passes all gates for min-pct ≤ 1 and goes on to the copy |
| Upgrade.AllFilesAbsent | wp-upgrade.go:131-132 | when every file entry's stat fails, every file entry is counted as "existing" |
| Upgrade.ValidationKept | wp-upgrade.go:60-69 | validation that passed still passes on a destination that only gained paths |
| Upgrade.CopyKeepsPaths | wp-upgrade.go:169 | the copy removes no path, keeps regular files regular and keeps the set `broken` |
| Upgrade.RerunOverComplete | wp-upgrade.go:106-175 | over a destination holding every entry that the copy would leave as it is: exit 4 if min-pct > 0, otherwise exit 0 with no change |
| Upgrade.SecondRun | wp-upgrade.go:39-176 | after a successful run over a closed destination, the same run again gives exit 4 with no change if min-pct > 0, otherwise exit 0 with no change |

## Left out

- Flag parsing (lines 40-46): the settings arrive as `Upgrade.Config`. The
  messages printed, `flag.PrintDefaults` and the process exit are also left out.
  An exit is the `Exited` outcome.
- `path.Clean` (lines 53 and 64): the roots are taken as already cleaned.
  `FileSystem.Join` glues a root and a relative name with one '/'. It does not
  collapse `//`, `.` or `..`.
- `filepath.Walk` itself is not modelled: the sequence of visits is an input.
  The model does not derive the walk's lexical, directories-first order from a
  tree. The order it proves is the order of the visits.
- `pathMap` (lines 80 and 100): it is filled and never read.
- The process umask and symbolic links. The modes are the ones passed to
  `os.Mkdir` and `ioutil.WriteFile`.
- Ownership, groups and the superuser. A write is allowed exactly when the
  owner-write bit (0200) is set, as if the upgrader owned every destination
  path. The working directory and "/" always accept new entries. A file owned
  by another user that stats fine but refuses writes can only be modelled
  through the mode bit.
- Byte lengths. Paths are sequences of characters, but Go's `len` and slicing
  at lines 88-91 count bytes. The two agree when every walked path starts with
  the root followed by "/". They differ only for the roots "." and "/" with
  non-ASCII names: for example, Go cuts two bytes from "éa" where the model
  cuts two characters.
- `FileSystem.Blocked` looks at every directory above a path. Go stops at the
  first missing directory with "does not exist". The two differ only on a tree
  that is not closed, with a node or a path in `broken` below a missing
  directory, which no disk holds.
- Overlay.CopyIdempotent and Upgrade.SecondRun: stated for closed trees only.
  In a tree that is not closed, a file the copy creates at a missing directory
  can block a file written earlier below it, and a second copy then panics.
- Source and destination are separate values, so an overlap between them
  (DESTINATION inside SOURCE) is not modelled.
- `float64` rounding: the counters are whole numbers, and the fraction is an
  exact real division.
- Upgrade.Run: states nothing about the destination after a panic. In the
  source, work done before the panic stays on disk.
- Upgrade.Destination.CopyFiles: states nothing about the destination after a
  failed read or write, for the same reason.
- Upgrade.Destination.ReconcileAndCount: states nothing about the destination
  after a failed mkdir, for the same reason.
