/** Day 7 (`src/days/day07/mod.rs`): directory sizes from a terminal
    session. The session (`cd`, `ls`, `dir x` and `<size> <name>` lines)
    builds a directory tree in which every directory knows the total size of
    the files below it. Part one adds up the totals of at most 100000, part
    two finds the smallest directory whose deletion frees enough space.

    The source links directories with shared pointers; here they live in an
    arena, a sequence indexed by number, with the root at index 0. A child is
    always created after its parent, so it has the larger index. */
module Day07 {
  import opened Wrappers
  import opened Utils

  /** `Directory`: the named sub-directories (arena indices), the parent and
      the total size of the files below. */
  datatype Directory = Directory(subDirectories: map<string, nat>, parent: Option<nat>, totalSize: nat)

  /** A file line of the session, recorded with the directory it was listed in. */
  datatype File = File(dir: nat, size: nat)

  /** The state of `construct_file_system`: the arena, the current directory
      and the file lines read so far. */
  datatype FileSystem = FileSystem(dirs: seq<Directory>, current: nat, files: seq<File>)

  /** `Directory::empty_with_parent`. */
  function EmptyWithParent(parent: Option<nat>): Directory
  {
    Directory(map[], parent, 0)
  }

  // ---------------------------------------------------------------------------
  // Ancestors and `add_file_size`
  // ---------------------------------------------------------------------------

  /** Every parent was created before its child. */
  predicate ParentsBefore(dirs: seq<Directory>)
  {
    forall i :: 0 <= i < |dirs| && dirs[i].parent.Some? ==> dirs[i].parent.value < i
  }

  /** `a` is `d` or lies on the chain of parents from `d` to the root. */
  predicate IsAncestor(dirs: seq<Directory>, a: nat, d: nat)
    requires ParentsBefore(dirs) && d < |dirs|
    decreases d
  {
    a == d || (dirs[d].parent.Some? && IsAncestor(dirs, a, dirs[d].parent.value))
  }

  lemma {:induction false} AncestorBelow(dirs: seq<Directory>, a: nat, d: nat)
    requires ParentsBefore(dirs) && d < |dirs|
    ensures IsAncestor(dirs, a, d) ==> a <= d
    decreases d
  {
    if a != d && dirs[d].parent.Some? {
      AncestorBelow(dirs, a, dirs[d].parent.value);
    }
  }

  /** Ancestry only depends on the parents of the directories up to `d`. */
  lemma {:induction false} AncestorSameParents(dirs: seq<Directory>, other: seq<Directory>, a: nat, d: nat)
    requires ParentsBefore(dirs) && ParentsBefore(other) && d < |dirs| && d < |other|
    requires forall j :: 0 <= j <= d ==> dirs[j].parent == other[j].parent
    ensures IsAncestor(dirs, a, d) == IsAncestor(other, a, d)
    decreases d
  {
    if dirs[d].parent.Some? {
      AncestorSameParents(dirs, other, a, dirs[d].parent.value);
    }
  }

  /** `add_file_size`: `size` is added to the directory and to every
      ancestor, and to no other directory; nothing else changes. */
  function AddFileSize(dirs: seq<Directory>, d: nat, size: nat): (r: seq<Directory>)
    requires ParentsBefore(dirs) && d < |dirs|
    ensures |r| == |dirs| && ParentsBefore(r)
    ensures forall i :: 0 <= i < |dirs| ==>
      r[i].subDirectories == dirs[i].subDirectories && r[i].parent == dirs[i].parent
    ensures forall i :: 0 <= i < |dirs| ==>
      r[i].totalSize == dirs[i].totalSize + (if IsAncestor(dirs, i, d) then size else 0)
    decreases d
  {
    var added := dirs[d := dirs[d].(totalSize := dirs[d].totalSize + size)];
    assert ParentsBefore(added);
    match dirs[d].parent
    case None => added
    case Some(p) =>
      var r := AddFileSize(added, p, size);
      forall i | 0 <= i < |dirs|
        ensures IsAncestor(added, i, p) == IsAncestor(dirs, i, p)
        ensures IsAncestor(dirs, i, d) == (i == d || IsAncestor(dirs, i, p))
        ensures i == d ==> !IsAncestor(dirs, i, p)
      {
        AncestorSameParents(added, dirs, i, p);
        AncestorBelow(dirs, i, p);
      }
      r
  }

  // ---------------------------------------------------------------------------
  // The invariant of the construction
  // ---------------------------------------------------------------------------

  /** The sizes of the files listed in `i` or in a directory below it. */
  function FilesBelow(dirs: seq<Directory>, files: seq<File>, i: nat): nat
    requires ParentsBefore(dirs) && FilesKnown(dirs, files)
  {
    if |files| == 0 then 0
    else
      var last := files[|files| - 1];
      FilesBelow(dirs, files[..|files| - 1], i) + (if IsAncestor(dirs, i, last.dir) then last.size else 0)
  }

  lemma {:induction false} FilesBelowSameParents(dirs: seq<Directory>, other: seq<Directory>, files: seq<File>, i: nat)
    requires ParentsBefore(dirs) && ParentsBefore(other) && |dirs| <= |other|
    requires forall j :: 0 <= j < |dirs| ==> dirs[j].parent == other[j].parent
    requires FilesKnown(dirs, files)
    ensures FilesKnown(other, files)
    ensures FilesBelow(dirs, files, i) == FilesBelow(other, files, i)
  {
    if |files| > 0 {
      FilesBelowSameParents(dirs, other, files[..|files| - 1], i);
      AncestorSameParents(dirs, other, i, files[|files| - 1].dir);
    }
  }

  /** No file lies below a directory created after all of them were listed. */
  lemma {:induction false} FilesBelowNewDirectory(dirs: seq<Directory>, files: seq<File>, n: nat)
    requires ParentsBefore(dirs) && FilesKnown(dirs, files)
    requires forall k :: 0 <= k < |files| ==> files[k].dir < n
    ensures FilesBelow(dirs, files, n) == 0
  {
    if |files| > 0 {
      FilesBelowNewDirectory(dirs, files[..|files| - 1], n);
      AncestorBelow(dirs, n, files[|files| - 1].dir);
    }
  }

  /** Sub-directory entries point forward, so recursion down the tree ends. */
  predicate PointsForward(dirs: seq<Directory>)
  {
    forall i, c :: 0 <= i < |dirs| && c in dirs[i].subDirectories.Values ==> i < c < |dirs|
  }

  /** A sub-directory's parent is the directory holding its entry. */
  predicate ChildrenKnowParent(dirs: seq<Directory>)
  {
    forall i, c :: 0 <= i < |dirs| && c in dirs[i].subDirectories.Values && c < |dirs| ==> dirs[c].parent == Some(i)
  }

  /** No two entries of a directory point to the same directory. */
  predicate EntriesDistinct(dirs: seq<Directory>)
  {
    forall i, x, y :: 0 <= i < |dirs| && x in dirs[i].subDirectories && y in dirs[i].subDirectories && x != y
      ==> dirs[i].subDirectories[x] != dirs[i].subDirectories[y]
  }

  /** Index 0 is the root and is the only directory without a parent. */
  predicate RootFirst(dirs: seq<Directory>)
  {
    |dirs| > 0 && dirs[0].parent.None? && forall i :: 0 < i < |dirs| ==> dirs[i].parent.Some?
  }

  /** The shape of the tree. */
  predicate Structured(dirs: seq<Directory>)
  {
    RootFirst(dirs) && ParentsBefore(dirs) && PointsForward(dirs) && ChildrenKnowParent(dirs) && EntriesDistinct(dirs)
  }

  /** Every file was listed in a directory of the arena. */
  predicate FilesKnown(dirs: seq<Directory>, files: seq<File>)
  {
    forall k :: 0 <= k < |files| ==> files[k].dir < |dirs|
  }

  /** Every total is the sum of the files below its directory. */
  predicate TotalsAgree(dirs: seq<Directory>, files: seq<File>)
    requires ParentsBefore(dirs) && FilesKnown(dirs, files)
  {
    forall i :: 0 <= i < |dirs| ==> dirs[i].totalSize == FilesBelow(dirs, files, i)
  }

  /** The file system is well formed and every total is the sum of the files
      below its directory. */
  predicate Valid(fs: FileSystem)
  {
    Structured(fs.dirs) && fs.current < |fs.dirs| && FilesKnown(fs.dirs, fs.files) && TotalsAgree(fs.dirs, fs.files)
  }

  /** The root is an ancestor of every directory. */
  lemma {:induction false} RootIsAncestor(dirs: seq<Directory>, d: nat)
    requires Structured(dirs) && d < |dirs|
    ensures IsAncestor(dirs, 0, d)
    decreases d
  {
    if d > 0 {
      RootIsAncestor(dirs, dirs[d].parent.value);
    }
  }

  /** The file system the session starts with: the root alone. */
  function Initial(): (fs: FileSystem)
    ensures Valid(fs) && fs.dirs[0].totalSize == 0
  {
    FileSystem([EmptyWithParent(None)], 0, [])
  }

  // ---------------------------------------------------------------------------
  // The lines of the session
  // ---------------------------------------------------------------------------

  /** `$ cd <path>`: `/` is the root, `..` the parent (`unwrap` panics at the
      root) and any other name a sub-directory (`unwrap` panics when there is
      none). The tree is not changed. */
  function ChangeDirectory(fs: FileSystem, path: string): (r: Option<FileSystem>)
    requires Valid(fs)
    ensures r.Some? ==> Valid(r.value) && r.value.dirs == fs.dirs && r.value.files == fs.files
    ensures path == "/" ==> r == Some(fs.(current := 0))
    ensures path == ".." ==>
      (r.Some? <==> fs.dirs[fs.current].parent.Some?)
      && (r.Some? ==> Some(r.value.current) == fs.dirs[fs.current].parent)
    ensures path != "/" && path != ".." ==>
      (r.Some? <==> path in fs.dirs[fs.current].subDirectories)
      && (r.Some? ==> r.value.current == fs.dirs[fs.current].subDirectories[path])
  {
    var dir := fs.dirs[fs.current];
    if path == "/" then Some(MoveTo(fs, 0))
    else if path == ".." then
      (match dir.parent
       case None => None
       case Some(p) => Some(MoveTo(fs, p)))
    else if path in dir.subDirectories then
      assert dir.subDirectories[path] in dir.subDirectories.Values;
      Some(MoveTo(fs, dir.subDirectories[path]))
    else None
  }

  /** Another current directory leaves the file system valid. */
  function MoveTo(fs: FileSystem, d: nat): (r: FileSystem)
    requires Valid(fs) && d < |fs.dirs|
    ensures Valid(r) && r == fs.(current := d)
  {
    fs.(current := d)
  }

  /** The arena after `dir <name>` in directory `cwd`: a new empty
      directory at the end, entered under `name` in `cwd`. */
  function WithNewDirectory(dirs: seq<Directory>, cwd: nat, name: string): (r: seq<Directory>)
    requires cwd < |dirs|
    ensures |r| == |dirs| + 1
  {
    var entry := dirs[cwd];
    dirs[cwd := entry.(subDirectories := entry.subDirectories[name := |dirs|])] + [EmptyWithParent(Some(cwd))]
  }

  /** A new directory keeps the tree well shaped. */
  lemma WithNewDirectoryStructured(dirs: seq<Directory>, cwd: nat, name: string)
    requires Structured(dirs) && cwd < |dirs|
    ensures Structured(WithNewDirectory(dirs, cwd, name))
    ensures forall j :: 0 <= j < |dirs| ==> WithNewDirectory(dirs, cwd, name)[j].parent == dirs[j].parent
  {
    var r := WithNewDirectory(dirs, cwd, name);
    assert forall j :: 0 <= j < |dirs| ==> r[j].parent == dirs[j].parent;
    assert RootFirst(r) && ParentsBefore(r);
    NewEntryPointsForward(dirs, cwd, name);
    NewEntriesDistinct(dirs, cwd, name);
  }

  lemma NewEntryPointsForward(dirs: seq<Directory>, cwd: nat, name: string)
    requires Structured(dirs) && cwd < |dirs|
    ensures PointsForward(WithNewDirectory(dirs, cwd, name))
    ensures ChildrenKnowParent(WithNewDirectory(dirs, cwd, name))
  {
    var r := WithNewDirectory(dirs, cwd, name);
    forall i, c | 0 <= i < |r| && c in r[i].subDirectories.Values
      ensures i < c < |r|
    {
      NewEntryTarget(dirs, cwd, name, i, c);
    }
    forall i, c | 0 <= i < |r| && c in r[i].subDirectories.Values && c < |r|
      ensures r[c].parent == Some(i)
    {
      NewEntryTarget(dirs, cwd, name, i, c);
    }
  }

  lemma NewEntryTarget(dirs: seq<Directory>, cwd: nat, name: string, i: nat, c: nat)
    requires Structured(dirs) && cwd < |dirs|
    requires i < |dirs| + 1 && c in WithNewDirectory(dirs, cwd, name)[i].subDirectories.Values
    ensures i < c < |dirs| + 1 && WithNewDirectory(dirs, cwd, name)[c].parent == Some(i)
  {
    var n := |dirs|;
    var r := WithNewDirectory(dirs, cwd, name);
    var subs := dirs[cwd].subDirectories;
    if i == cwd {
      var x :| x in r[i].subDirectories && r[i].subDirectories[x] == c;
      if x != name {
        assert subs[x] in subs.Values;
      }
    } else {
      assert i < n && r[i] == dirs[i];
    }
  }

  lemma NewEntriesDistinct(dirs: seq<Directory>, cwd: nat, name: string)
    requires Structured(dirs) && cwd < |dirs|
    ensures EntriesDistinct(WithNewDirectory(dirs, cwd, name))
  {
    var n := |dirs|;
    var r := WithNewDirectory(dirs, cwd, name);
    var subs := dirs[cwd].subDirectories;
    forall i, x, y | 0 <= i < |r| && x in r[i].subDirectories && y in r[i].subDirectories && x != y
      ensures r[i].subDirectories[x] != r[i].subDirectories[y]
    {
      if i == cwd {
        if x != name {
          assert subs[x] in subs.Values;
        }
        if y != name {
          assert subs[y] in subs.Values;
        }
      } else {
        assert i < n && r[i] == dirs[i];
      }
    }
  }

  /** A new directory holds no files and leaves every other total right. */
  lemma WithNewDirectoryTotals(dirs: seq<Directory>, cwd: nat, name: string, files: seq<File>)
    requires Structured(dirs) && cwd < |dirs| && FilesKnown(dirs, files) && TotalsAgree(dirs, files)
    ensures Structured(WithNewDirectory(dirs, cwd, name)) && FilesKnown(WithNewDirectory(dirs, cwd, name), files)
    ensures TotalsAgree(WithNewDirectory(dirs, cwd, name), files)
  {
    var r := WithNewDirectory(dirs, cwd, name);
    WithNewDirectoryStructured(dirs, cwd, name);
    forall i | 0 <= i < |r|
      ensures r[i].totalSize == FilesBelow(r, files, i)
    {
      FilesBelowSameParents(dirs, r, files, i);
      if i == |dirs| {
        FilesBelowNewDirectory(r, files, i);
      }
    }
  }

  /** `dir <name>`: a new empty directory whose parent is the current one is
      entered under `name` in the current directory, replacing any earlier
      entry of that name. */
  function MakeDirectory(fs: FileSystem, name: string): (r: FileSystem)
    requires Valid(fs)
    ensures Valid(r)
    ensures |r.dirs| == |fs.dirs| + 1 && r.current == fs.current && r.files == fs.files
    ensures r.dirs[|fs.dirs|] == Directory(map[], Some(fs.current), 0)
    ensures r.dirs[fs.current].subDirectories == fs.dirs[fs.current].subDirectories[name := |fs.dirs|]
    ensures forall i :: 0 <= i < |fs.dirs| ==>
      r.dirs[i].parent == fs.dirs[i].parent && r.dirs[i].totalSize == fs.dirs[i].totalSize
    ensures forall i :: 0 <= i < |fs.dirs| && i != fs.current ==> r.dirs[i] == fs.dirs[i]
  {
    WithNewDirectoryTotals(fs.dirs, fs.current, name, fs.files);
    FileSystem(WithNewDirectory(fs.dirs, fs.current, name), fs.current, fs.files)
  }

  /** `<size> <name>`: the size is added to the current directory and its
      ancestors, and the file is recorded as listed in the current directory. */
  function AddFile(fs: FileSystem, size: nat): (r: FileSystem)
    requires Valid(fs)
    ensures Valid(r)
    ensures |r.dirs| == |fs.dirs| && r.current == fs.current && r.files == fs.files + [File(fs.current, size)]
    ensures forall i :: 0 <= i < |fs.dirs| ==>
      r.dirs[i].subDirectories == fs.dirs[i].subDirectories && r.dirs[i].parent == fs.dirs[i].parent
    ensures forall i :: 0 <= i < |fs.dirs| ==>
      r.dirs[i].totalSize == fs.dirs[i].totalSize + (if IsAncestor(fs.dirs, i, fs.current) then size else 0)
    ensures r.dirs[0].totalSize == fs.dirs[0].totalSize + size
  {
    var dirs := AddFileSize(fs.dirs, fs.current, size);
    var files := fs.files + [File(fs.current, size)];
    var r := FileSystem(dirs, fs.current, files);
    RootIsAncestor(fs.dirs, fs.current);
    forall i | 0 <= i < |dirs|
      ensures dirs[i].totalSize == FilesBelow(dirs, files, i)
    {
      assert files[..|files| - 1] == fs.files;
      FilesBelowSameParents(fs.dirs, dirs, fs.files, i);
      AncestorSameParents(fs.dirs, dirs, i, fs.current);
    }
    r
  }

  /** One line of the loop of `construct_file_system`. `None` stands for a
      panic: an empty line, a command without its argument, a failed `cd` or
      a file line whose size is not a number. Commands other than `cd` (that
      is, `ls`) change nothing. */
  function ExecuteLine(fs: FileSystem, line: string): (r: Option<FileSystem>)
    requires Valid(fs)
    ensures r.Some? ==> Valid(r.value)
    ensures r.Some? ==> r.value.dirs[0].totalSize == fs.dirs[0].totalSize + FileLineSize(line)
  {
    var parts := Words(line);
    if |parts| == 0 then None
    else if parts[0] == "$" then
      if |parts| < 2 then None
      else if parts[1] == "cd" then
        if |parts| < 3 then None else ChangeDirectory(fs, parts[2])
      else Some(fs)
    else if parts[0] == "dir" then
      if |parts| < 2 then None else Some(MakeDirectory(fs, parts[1]))
    else
      match ParseNat(parts[0])
      case None => None
      case Some(size) => Some(AddFile(fs, size))
  }

  /** The size a line lists: that of a file line, 0 for any other line. */
  function FileLineSize(line: string): nat
  {
    var parts := Words(line);
    if |parts| == 0 || parts[0] == "$" || parts[0] == "dir" then 0
    else match ParseNat(parts[0])
      case None => 0
      case Some(size) => size
  }

  function TotalFileSize(lines: seq<string>): nat
  {
    if |lines| == 0 then 0 else FileLineSize(lines[0]) + TotalFileSize(lines[1..])
  }

  /** The loop of `construct_file_system` over the given lines. */
  function ExecuteLines(fs: FileSystem, lines: seq<string>): (r: Option<FileSystem>)
    requires Valid(fs)
    ensures r.Some? ==> Valid(r.value)
    decreases |lines|
  {
    if |lines| == 0 then Some(fs)
    else
      match ExecuteLine(fs, lines[0])
      case None => None
      case Some(next) => ExecuteLines(next, lines[1..])
  }

  /** The root's total grows by the size of every file line of the session. */
  lemma {:induction false} ExecuteLinesRootTotal(fs: FileSystem, lines: seq<string>)
    requires Valid(fs)
    ensures ExecuteLines(fs, lines).Some? ==>
      ExecuteLines(fs, lines).value.dirs[0].totalSize == fs.dirs[0].totalSize + TotalFileSize(lines)
    decreases |lines|
  {
    if |lines| > 0 {
      match ExecuteLine(fs, lines[0])
      case None =>
      case Some(next) => ExecuteLinesRootTotal(next, lines[1..]);
    }
  }

  /** `construct_file_system`: the session run from the root. */
  function ConstructFileSystem(input: string): (r: Option<FileSystem>)
    ensures r.Some? ==> Valid(r.value)
    ensures r.Some? ==> r.value.dirs[0].totalSize == TotalFileSize(Lines(input))
  {
    ExecuteLinesRootTotal(Initial(), Lines(input));
    ExecuteLines(Initial(), Lines(input))
  }

  // ---------------------------------------------------------------------------
  // Selecting directories
  // ---------------------------------------------------------------------------

  /** The directories reachable from `i` through sub-directory entries, `i`
      itself excluded. */
  function Descendants(dirs: seq<Directory>, i: nat): (r: set<nat>)
    requires PointsForward(dirs) && i < |dirs|
    ensures forall d :: d in r ==> i < d < |dirs|
    decreases |dirs| - i
  {
    var subs := dirs[i].subDirectories.Values;
    subs + (set c, d | c in subs && d in Descendants(dirs, c) :: d)
  }

  /** `dirs_with_size_constraint`: every sub-directory whose total meets the
      constraint, then those below it. The order of the source's `Vec`
      follows the `HashMap`'s and no sum or minimum depends on it, so the
      result is a set. */
  function DirsWithSizeConstraint(dirs: seq<Directory>, i: nat, constraint: nat -> bool): (r: set<nat>)
    requires PointsForward(dirs) && i < |dirs|
    ensures forall d :: d in r ==> i < d < |dirs|
    decreases |dirs| - i
  {
    var subs := dirs[i].subDirectories.Values;
    (set c | c in subs && constraint(dirs[c].totalSize))
      + (set c, d | c in subs && d in DirsWithSizeConstraint(dirs, c, constraint) :: d)
  }

  /** The selection is exactly the descendants whose totals meet the constraint. */
  lemma {:induction false} DirsWithSizeConstraintFilters(dirs: seq<Directory>, i: nat, constraint: nat -> bool)
    requires PointsForward(dirs) && i < |dirs|
    ensures forall d :: d in DirsWithSizeConstraint(dirs, i, constraint) <==>
      d in Descendants(dirs, i) && constraint(dirs[d].totalSize)
    decreases |dirs| - i
  {
    var subs := dirs[i].subDirectories.Values;
    forall d
      ensures d in DirsWithSizeConstraint(dirs, i, constraint) <==>
        d in Descendants(dirs, i) && constraint(dirs[d].totalSize)
    {
      if d in DirsWithSizeConstraint(dirs, i, constraint) && !(d in subs && constraint(dirs[d].totalSize)) {
        var c :| c in subs && d in DirsWithSizeConstraint(dirs, c, constraint);
        DirsWithSizeConstraintFilters(dirs, c, constraint);
      }
      if d in Descendants(dirs, i) && constraint(dirs[d].totalSize) && d !in subs {
        var c :| c in subs && d in Descendants(dirs, c);
        DirsWithSizeConstraintFilters(dirs, c, constraint);
      }
    }
  }

  /** Every descendant of `i` comes after it and has `i` as an ancestor; in
      particular the root is never selected. */
  lemma {:induction false} DescendantsBelow(dirs: seq<Directory>, i: nat)
    requires Structured(dirs) && i < |dirs|
    ensures forall d :: d in Descendants(dirs, i) ==> i < d < |dirs| && IsAncestor(dirs, i, d)
    decreases |dirs| - i
  {
    forall d | d in Descendants(dirs, i)
      ensures i < d < |dirs| && IsAncestor(dirs, i, d)
    {
      var subs := dirs[i].subDirectories.Values;
      if d !in subs {
        var c :| c in subs && d in Descendants(dirs, c);
        DescendantsBelow(dirs, c);
        AncestorChain(dirs, i, c, d);
      }
    }
  }

  /** An ancestor of an ancestor is an ancestor. */
  lemma {:induction false} AncestorChain(dirs: seq<Directory>, a: nat, b: nat, d: nat)
    requires ParentsBefore(dirs) && b < |dirs| && d < |dirs|
    requires dirs[b].parent == Some(a) && IsAncestor(dirs, b, d)
    ensures IsAncestor(dirs, a, d)
    decreases d
  {
    if b != d {
      AncestorChain(dirs, a, b, dirs[d].parent.value);
    }
  }

  /** The sum of the totals of the selected directories. */
  function SumTotals(dirs: seq<Directory>, selected: set<nat>, k: nat): nat
    requires k <= |dirs|
  {
    if k == 0 then 0
    else SumTotals(dirs, selected, k - 1) + (if k - 1 in selected then dirs[k - 1].totalSize else 0)
  }

  /** A sum of totals each at most `bound` is at most `bound` per directory. */
  lemma {:induction false} SumTotalsBound(dirs: seq<Directory>, selected: set<nat>, k: nat, bound: nat)
    requires k <= |dirs|
    requires forall d :: d in selected && d < k ==> dirs[d].totalSize <= bound
    ensures SumTotals(dirs, selected, k) <= bound * k
  {
    if k > 0 {
      SumTotalsBound(dirs, selected, k - 1, bound);
    }
  }

  /** The smallest total of the selected directories among the first `k`;
      `None` when there is none (`min().unwrap()` panics). */
  function SmallestTotal(dirs: seq<Directory>, selected: set<nat>, k: nat): (r: Option<nat>)
    requires k <= |dirs|
    ensures r.None? <==> forall d :: 0 <= d < k ==> d !in selected
    ensures r.Some? ==> exists d :: 0 <= d < k && d in selected && dirs[d].totalSize == r.value
    ensures r.Some? ==> forall d :: 0 <= d < k && d in selected ==> r.value <= dirs[d].totalSize
  {
    if k == 0 then None
    else
      var rest := SmallestTotal(dirs, selected, k - 1);
      if k - 1 !in selected then rest
      else match rest
        case None => Some(dirs[k - 1].totalSize)
        case Some(m) => Some(if dirs[k - 1].totalSize < m then dirs[k - 1].totalSize else m)
  }

  // ---------------------------------------------------------------------------
  // The two parts
  // ---------------------------------------------------------------------------

  const MaxDirectorySize: nat := 100_000
  const DiskSpace: nat := 70_000_000
  const RequiredUnusedSpace: nat := 30_000_000

  /** The answer of `part_one` for a built tree: the sum of the totals of at
      most 100000, the root left out. */
  function SmallDirectoriesTotal(dirs: seq<Directory>): (r: nat)
    requires PointsForward(dirs) && |dirs| > 0
    ensures r == SumTotals(dirs, set d | d in Descendants(dirs, 0) && dirs[d].totalSize <= MaxDirectorySize, |dirs|)
    ensures r <= MaxDirectorySize * |dirs|
  {
    var selected := DirsWithSizeConstraint(dirs, 0, size => size <= MaxDirectorySize);
    DirsWithSizeConstraintFilters(dirs, 0, size => size <= MaxDirectorySize);
    assert selected == set d | d in Descendants(dirs, 0) && dirs[d].totalSize <= MaxDirectorySize;
    SumTotalsBound(dirs, selected, |dirs|, MaxDirectorySize);
    SumTotals(dirs, selected, |dirs|)
  }

  /** `part_one`: `None` when the construction panics. */
  function PartOne(input: string): (r: Option<nat>)
    ensures r.Some? <==> ConstructFileSystem(input).Some?
    ensures r.Some? ==> r.value == SmallDirectoriesTotal(ConstructFileSystem(input).value.dirs)
  {
    match ConstructFileSystem(input)
    case None => None
    case Some(fs) => Some(SmallDirectoriesTotal(fs.dirs))
  }

  /** The size a deleted directory must have: what is missing of the required
      unused space. `None` when a `u32` subtraction of the source underflows:
      more used than the disk holds, or more free than required. */
  function RequiredDirSize(used: nat): (r: Option<nat>)
    ensures r.Some? <==> DiskSpace - RequiredUnusedSpace <= used <= DiskSpace
    ensures r.Some? ==> DiskSpace - used + r.value == RequiredUnusedSpace
  {
    if used > DiskSpace then None
    else
      var remaining := DiskSpace - used;
      if remaining > RequiredUnusedSpace then None else Some(RequiredUnusedSpace - remaining)
  }

  /** The answer of `part_two` for a built tree: the smallest total, the
      root left out, that frees enough space. `None` when a subtraction
      underflows or no directory is large enough. */
  function DirectoryToDelete(dirs: seq<Directory>): (r: Option<nat>)
    requires PointsForward(dirs) && |dirs| > 0
    ensures r.Some? ==>
      var required := RequiredDirSize(dirs[0].totalSize);
      && required.Some?
      && (exists d :: d in Descendants(dirs, 0) && dirs[d].totalSize == r.value) && r.value >= required.value
      && (forall d :: d in Descendants(dirs, 0) && dirs[d].totalSize >= required.value ==> r.value <= dirs[d].totalSize)
    ensures r.None? ==>
      var required := RequiredDirSize(dirs[0].totalSize);
      required.None? || forall d :: d in Descendants(dirs, 0) ==> dirs[d].totalSize < required.value
  {
    match RequiredDirSize(dirs[0].totalSize)
    case None => None
    case Some(required) =>
      var selected := DirsWithSizeConstraint(dirs, 0, size => size >= required);
      DirsWithSizeConstraintFilters(dirs, 0, size => size >= required);
      SmallestTotal(dirs, selected, |dirs|)
  }

  /** `part_two`: `None` when the construction panics or the tree has no
      answer. */
  function PartTwo(input: string): (r: Option<nat>)
    ensures r.Some? ==> ConstructFileSystem(input).Some?
    ensures ConstructFileSystem(input).Some? ==> r == DirectoryToDelete(ConstructFileSystem(input).value.dirs)
  {
    match ConstructFileSystem(input)
    case None => None
    case Some(fs) => DirectoryToDelete(fs.dirs)
  }

  /** The tree the example session of the tests builds: `/` holds `a` and
      `d`, `a` holds `e`. */
  predicate IsExampleTree(dirs: seq<Directory>)
  {
    dirs == [
      Directory(map["a" := 1, "d" := 2], None, 48381165),
      Directory(map["e" := 3], Some(0), 94853),
      Directory(map[], Some(0), 24933642),
      Directory(map[], Some(1), 584)]
  }

  /** The values of a map with two entries. */
  lemma TwoEntryValues(m: map<string, nat>, x: string, y: string, a: nat, b: nat)
    requires x != y && m == map[x := a, y := b]
    ensures m.Values == {a, b}
  {
    assert m[x] == a && m[y] == b;
    forall v | v in m.Values
      ensures v == a || v == b
    {
      var k :| k in m && m[k] == v;
    }
  }

  /** The values of a map with one entry. */
  lemma OneEntryValues(m: map<string, nat>, x: string, a: nat)
    requires m == map[x := a]
    ensures m.Values == {a}
  {
    assert m[x] == a;
    forall v | v in m.Values
      ensures v == a
    {
      var k :| k in m && m[k] == v;
    }
  }

  lemma ExampleStructured(dirs: seq<Directory>)
    requires IsExampleTree(dirs)
    ensures Structured(dirs)
    ensures Descendants(dirs, 0) == {1, 2, 3}
  {
    ExampleLinks(dirs);
    assert Descendants(dirs, 3) == {};
    assert Descendants(dirs, 2) == {};
    assert Descendants(dirs, 1) == {3};
  }

  /** Every link of the example tree points forward to a child of its parent. */
  lemma ExampleLinks(dirs: seq<Directory>)
    requires IsExampleTree(dirs)
    ensures Structured(dirs)
    ensures dirs[0].subDirectories.Values == {1, 2} && dirs[1].subDirectories.Values == {3}
    ensures dirs[2].subDirectories.Values == {} && dirs[3].subDirectories.Values == {}
  {
    TwoEntryValues(dirs[0].subDirectories, "a", "d", 1, 2);
    OneEntryValues(dirs[1].subDirectories, "e", 3);
    assert dirs[2].subDirectories.Values == {};
    assert dirs[3].subDirectories.Values == {};
  }

  /** On the example tree part one gives 95437. */
  lemma ExamplePartOne(dirs: seq<Directory>)
    requires IsExampleTree(dirs)
    ensures PointsForward(dirs) && SmallDirectoriesTotal(dirs) == 95437
  {
    ExampleStructured(dirs);
    var small := ExampleSmall(dirs);
    assert SumTotals(dirs, small, 1) == 0;
    assert SumTotals(dirs, small, 2) == 94853;
    assert SumTotals(dirs, small, 3) == 94853;
  }

  /** The directories of the example of at most 100000 bytes: `a` and `e`. */
  lemma ExampleSmall(dirs: seq<Directory>) returns (small: set<nat>)
    requires IsExampleTree(dirs) && PointsForward(dirs) && Descendants(dirs, 0) == {1, 2, 3}
    ensures small == set d | d in Descendants(dirs, 0) && dirs[d].totalSize <= MaxDirectorySize
    ensures small == {1, 3}
  {
    small := set d | d in Descendants(dirs, 0) && dirs[d].totalSize <= MaxDirectorySize;
  }

  /** On the example tree part two gives 24933642: 8381165 more bytes must
      be freed, and `d` is the only directory that large. */
  lemma ExamplePartTwo(dirs: seq<Directory>)
    requires IsExampleTree(dirs)
    ensures PointsForward(dirs) && DirectoryToDelete(dirs) == Some(24933642)
  {
    ExampleStructured(dirs);
    assert RequiredDirSize(dirs[0].totalSize) == Some(8381165);
    var large := DirsWithSizeConstraint(dirs, 0, size => size >= 8381165);
    DirsWithSizeConstraintFilters(dirs, 0, size => size >= 8381165);
    assert large == {2};
    assert SmallestTotal(dirs, large, 2) == None;
    assert SmallestTotal(dirs, large, 3) == Some(24933642);
  }
}
