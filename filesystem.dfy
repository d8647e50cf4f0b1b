// No space left on device (year 2022, day 7): a shell transcript of `cd`,
// `ls`, `dir` and file-size lines is replayed into a map from directory
// paths to directories; directory sizes are then summed bottom-up.

module FileSystem {
  import opened Common

  /** A path as its sequence of components; the root is the empty path. */
  type Path = seq<string>

  /** A directory: its files with their sizes, its listed subdirectories (full paths) and its computed size. */
  datatype Directory = Directory(files: map<string, nat>, directories: set<Path>, totalSize: nat)

  type FileSystem = map<Path, Directory>

  /** `Directory::default()`. */
  const Empty := Directory(map[], {}, 0)

  /** `a` is a leading part of `b`. */
  predicate Prefix(a: Path, b: Path)
  {
    |a| <= |b| && b[..|a|] == a
  }

  /** Every listed subdirectory is its parent's path plus one component, as `dir x` builds it. */
  predicate WF(fs: FileSystem)
  {
    forall p, c :: p in fs && c in fs[p].directories ==> |c| == |p| + 1 && Prefix(p, c)
  }

  /** Two maps with the same paths, files and subdirectories, whatever their computed sizes. */
  predicate SameShape(a: FileSystem, b: FileSystem)
  {
    && a.Keys == b.Keys
    && forall q :: q in a ==> a[q].files == b[q].files && a[q].directories == b[q].directories
  }

  // ---------------------------------------------------------------- parsing

  /** `split(' ')` into exactly two parts: the line holds exactly one space. */
  function SplitSpace(line: string): (r: Option<(string, string)>)
    ensures r.Some? ==> line == r.value.0 + [' '] + r.value.1 && ' ' !in r.value.0 && ' ' !in r.value.1
    ensures r.None? ==> ' ' !in line || exists i, j :: 0 <= i < j < |line| && line[i] == ' ' && line[j] == ' '
  {
    if line == [] then None
    else if line[0] == ' ' then
      if ' ' in line[1..] then
        var j :| 0 <= j < |line[1..]| && line[1..][j] == ' ';
        assert line[j + 1] == ' ';
        None
      else
        Some(([], line[1..]))
    else
      match SplitSpace(line[1..])
      case Some((a, b)) => Some(([line[0]] + a, b))
      case None =>
        if ' ' in line[1..] then
          var i, j :| 0 <= i < j < |line[1..]| && line[1..][i] == ' ' && line[1..][j] == ' ';
          assert line[i + 1] == ' ' && line[j + 1] == ' ';
          None
        else
          None
  }

  /**
   * One transcript line applied to the map and the current path. `cd /`
   * goes to the root, `cd ..` to the parent (panicking at the root, where
   * `parent()` is `None`), `cd x` into `path/x`; a path reached by `cd` is
   * added to the map. `$ ls` changes nothing, `dir x` lists `path/x` as a
   * subdirectory, and any other line is `size name` (panicking unless it
   * splits into two parts with a numeric size).
   */
  function Step(fs: FileSystem, path: Path, line: string): (r: Result<(FileSystem, Path)>)
    requires path in fs
    ensures r.Ok? ==> r.value.1 in r.value.0 && fs.Keys <= r.value.0.Keys
    ensures r.Ok? && WF(fs) ==> WF(r.value.0)
    ensures r.Ok? ==> forall q :: q in fs && q != path ==> r.value.0[q] == fs[q]
    ensures r.Panic? <==>
      (if StartsWith(line, "$ cd ") then line[5..] == ".." && path == []
       else
         && !StartsWith(line, "$ ls") && !StartsWith(line, "dir ")
         && (SplitSpace(line).None? || ParseNat(SplitSpace(line).value.0).None?))
    ensures StartsWith(line, "$ cd ") && r.Ok? ==>
      && r.value.0.Keys == fs.Keys + {r.value.1}
      && (path in fs ==> r.value.0[path] == fs[path])
      && (line[5..] == "/" ==> r.value.1 == [])
      && (line[5..] == ".." ==> r.value.1 + [path[|path| - 1]] == path)
      && (line[5..] != "/" && line[5..] != ".." ==> r.value.1 == path + [line[5..]])
    ensures !StartsWith(line, "$ cd ") && StartsWith(line, "$ ls") ==> r == Ok((fs, path))
    ensures !StartsWith(line, "$ cd ") && !StartsWith(line, "$ ls") && r.Ok? ==>
      && r.value.0.Keys == fs.Keys && r.value.1 == path
      && (StartsWith(line, "dir ") ==>
           r.value.0[path] == fs[path].(directories := fs[path].directories + {path + [line[4..]]}))
      && (!StartsWith(line, "dir ") ==>
           var parts := SplitSpace(line).value;
           r.value.0[path] == fs[path].(files := fs[path].files[parts.1 := ParseNat(parts.0).value]))
  {
    if StartsWith(line, "$ cd ") then
      var arg := line[5..];
      if arg == ".." && path == [] then Panic
      else Ok(ChangeDirectory(fs, path, arg))
    else if StartsWith(line, "$ ls") then Ok((fs, path))
    else if StartsWith(line, "dir ") then
      Ok((AddDirectory(fs, path, line[4..]), path))
    else
      match SplitSpace(line)
      case None => Panic
      case Some((size, name)) =>
        match ParseNat(size)
        case None => Panic
        case Some(n) => Ok((AddFile(fs, path, name, n), path))
  }

  /** `cd`: the root for `/`, the parent for `..`, else the child; a path reached for the first time is added empty. */
  function ChangeDirectory(fs: FileSystem, path: Path, arg: string): (r: (FileSystem, Path))
    requires path in fs && !(arg == ".." && path == [])
    ensures r.1 in r.0 && r.0.Keys == fs.Keys + {r.1}
    ensures forall q :: q in fs ==> r.0[q] == fs[q]
    ensures WF(fs) ==> WF(r.0)
    ensures arg == "/" ==> r.1 == []
    ensures arg == ".." ==> r.1 + [path[|path| - 1]] == path
    ensures arg != "/" && arg != ".." ==> r.1 == path + [arg]
  {
    var next := if arg == "/" then [] else if arg == ".." then path[..|path| - 1] else path + [arg];
    assert arg == ".." ==> next + [path[|path| - 1]] == path;
    (if next in fs then fs else fs[next := Empty], next)
  }

  /** `dir name`: `path/name` listed as a subdirectory of `path`. */
  function AddDirectory(fs: FileSystem, path: Path, name: string): (r: FileSystem)
    requires path in fs
    ensures r.Keys == fs.Keys
    ensures r[path] == fs[path].(directories := fs[path].directories + {path + [name]})
    ensures forall q :: q in fs && q != path ==> r[q] == fs[q]
    ensures WF(fs) ==> WF(r)
  {
    var sub := path + [name];
    assert sub[..|path|] == path;
    fs[path := fs[path].(directories := fs[path].directories + {sub})]
  }

  /** `size name`: the file `name` of `path` recorded with its size. */
  function AddFile(fs: FileSystem, path: Path, name: string, size: nat): (r: FileSystem)
    requires path in fs
    ensures r.Keys == fs.Keys
    ensures r[path] == fs[path].(files := fs[path].files[name := size])
    ensures forall q :: q in fs && q != path ==> r[q] == fs[q]
    ensures WF(fs) ==> WF(r)
  {
    fs[path := fs[path].(files := fs[path].files[name := size])]
  }

  /** The map and current path after replaying `lines` from the root of a map holding only the root. */
  function Build(lines: seq<string>): (r: Result<(FileSystem, Path)>)
    ensures r.Ok? ==> [] in r.value.0 && r.value.1 in r.value.0 && WF(r.value.0)
  {
    if lines == [] then Ok((map[[] := Empty], []))
    else
      match Build(lines[..|lines| - 1])
      case Panic => Panic
      case Ok((fs, path)) => Step(fs, path, lines[|lines| - 1])
  }

  /** `build_file_system`: replays the transcript line by line. */
  method BuildFileSystem(lines: seq<string>) returns (r: Result<FileSystem>)
    ensures r.Ok? <==> Build(lines).Ok?
    ensures r.Ok? ==> r.value == Build(lines).value.0
  {
    var fs: FileSystem := map[[] := Empty];
    var path: Path := [];
    for k := 0 to |lines|
      invariant Build(lines[..k]) == Ok((fs, path))
    {
      assert lines[..k + 1][..k] == lines[..k];
      var next := Step(fs, path, lines[k]);
      if next.Panic? {
        assert Build(lines[..k + 1]).Panic?;
        assert Build(lines).Panic? by {
          BuildPanicStays(lines, k + 1);
        }
        return Panic;
      }
      fs, path := next.value.0, next.value.1;
    }
    assert lines[..|lines|] == lines;
    return Ok(fs);
  }

  /** Once the replay panics, every longer transcript panics too. */
  lemma {:induction false} BuildPanicStays(lines: seq<string>, k: nat)
    requires k <= |lines| && Build(lines[..k]).Panic?
    ensures Build(lines).Panic?
    decreases |lines| - k
  {
    if k < |lines| {
      assert lines[..k + 1][..k] == lines[..k];
      BuildPanicStays(lines, k + 1);
    } else {
      assert lines[..k] == lines;
    }
  }

  // ------------------------------------------------------------ reachability

  /** Level `k + 1` of `q` is listed as a subdirectory of level `k`. */
  predicate Edge(fs: FileSystem, q: Path, k: nat)
    requires k < |q|
  {
    q[..k] in fs && q[..k + 1] in fs[q[..k]].directories
  }

  /** `q` is reached from `p` by following listed subdirectories. */
  ghost predicate Linked(fs: FileSystem, p: Path, q: Path)
  {
    Prefix(p, q) && forall k: nat :: |p| <= k < |q| ==> Edge(fs, q, k)
  }

  /** The directories reachable from `p` through listed subdirectories, `p` included. */
  ghost function Descendants(fs: FileSystem, p: Path): set<Path>
  {
    set q | q in fs.Keys && Linked(fs, p, q)
  }

  /** The descendants of the directories in `kids`. */
  ghost function Family(fs: FileSystem, kids: set<Path>): set<Path>
  {
    set c, q | c in kids && q in Descendants(fs, c) :: q
  }

  /** A prefix of a prefix is a prefix. */
  lemma PrefixTrans(a: Path, b: Path, c: Path)
    requires Prefix(a, b) && Prefix(b, c)
    ensures Prefix(a, c)
  {
    assert c[..|a|] == c[..|b|][..|a|];
  }

  lemma SelfDescendant(fs: FileSystem, p: Path)
    requires p in fs
    ensures p in Descendants(fs, p)
  {
    assert Linked(fs, p, p);
  }

  /** A listed subdirectory that is in the map is a descendant. */
  lemma ChildDescendant(fs: FileSystem, p: Path, c: Path)
    requires WF(fs) && p in fs && c in fs[p].directories && c in fs
    ensures c in Descendants(fs, p)
  {
    assert c[..|p|] == p && c[..|p| + 1] == c;
    assert Edge(fs, c, |p|);
  }

  /** What is reachable from a descendant is reachable. */
  lemma DescendantsTrans(fs: FileSystem, p: Path, q: Path)
    requires q in Descendants(fs, p)
    ensures Descendants(fs, q) <= Descendants(fs, p)
  {
    forall t | t in Descendants(fs, q) ensures Linked(fs, p, t) {
      PrefixTrans(p, q, t);
      forall k: nat | |p| <= k < |t| ensures Edge(fs, t, k) {
        if k < |q| {
          assert t[..k] == q[..k] && t[..k + 1] == q[..k + 1];
          assert Edge(fs, q, k);
        }
      }
    }
  }

  /** The directories below `p` are `p` itself and, apart from it, the descendants of its subdirectories. */
  lemma DescendantsSplit(fs: FileSystem, p: Path)
    requires WF(fs) && p in fs
    ensures Descendants(fs, p) == {p} + Family(fs, fs[p].directories)
    ensures p !in Family(fs, fs[p].directories)
  {
    var kids := fs[p].directories;
    SelfDescendant(fs, p);
    forall q | q in Descendants(fs, p) && q != p ensures q in Family(fs, kids) {
      var c := q[..|p| + 1];
      assert Edge(fs, q, |p|);
      assert q[..|p|] == p;
      assert Linked(fs, c, q) by {
        forall k: nat | |c| <= k < |q| ensures Edge(fs, q, k) {
        }
      }
      assert q in Descendants(fs, c);
    }
    forall q | q in Family(fs, kids) ensures q in Descendants(fs, p) && q != p {
      var c :| c in kids && q in Descendants(fs, c);
      assert q[..|c|] == c && c[..|p|] == p;
      PrefixTrans(p, c, q);
      forall k: nat | |p| <= k < |q| ensures Edge(fs, q, k) {
        if k == |p| {
          assert q[..k] == p && q[..k + 1] == c;
        }
      }
    }
  }

  /** A map of the same shape has the same descendants. */
  lemma DescendantsShape(a: FileSystem, b: FileSystem, p: Path)
    requires SameShape(a, b)
    ensures Descendants(a, p) == Descendants(b, p)
  {
    forall q | q in a ensures Linked(a, p, q) == Linked(b, p, q) {
      forall k: nat | |p| <= k < |q| ensures Edge(a, q, k) == Edge(b, q, k) {
      }
    }
  }

  /**
   * Every subdirectory listed anywhere below `p` is in the map, so
   * `file_system[directory]` never panics on the way down from `p`.
   */
  ghost predicate Complete(fs: FileSystem, p: Path)
  {
    forall q, c :: q in Descendants(fs, p) && q in fs && c in fs[q].directories ==> c in fs
  }

  lemma CompleteChild(fs: FileSystem, p: Path, c: Path)
    requires WF(fs) && p in fs && Complete(fs, p) && c in fs[p].directories
    ensures c in fs && Complete(fs, c)
  {
    SelfDescendant(fs, p);
    ChildDescendant(fs, p, c);
    DescendantsTrans(fs, p, c);
  }

  lemma CompleteParent(fs: FileSystem, p: Path)
    requires WF(fs) && p in fs
    requires forall c :: c in fs[p].directories ==> c in fs && Complete(fs, c)
    ensures Complete(fs, p)
  {
    DescendantsSplit(fs, p);
  }

  /** A map of the same shape is complete where the other is. */
  lemma CompleteShape(a: FileSystem, b: FileSystem, p: Path)
    requires SameShape(a, b) && Complete(a, p)
    ensures Complete(b, p)
  {
    DescendantsShape(a, b, p);
  }

  // ------------------------------------------------------------ directory sizes

  /** 1 for a path longer than `n`, as a function for `SetSum`. */
  function Longer(n: nat): Path -> int
  {
    q => if |q| > n then 1 else 0
  }

  /** The number of paths in the map longer than `p`: it drops when the recursion moves to a subdirectory. */
  ghost function Measure(fs: FileSystem, p: Path): nat
  {
    var m := SetSum(fs.Keys, Longer(|p|));
    if m < 0 then 0 else m
  }

  lemma MeasureDecreases(fs: FileSystem, p: Path, c: Path)
    requires c in fs && |c| == |p| + 1
    ensures Measure(fs, c) < Measure(fs, p)
  {
    SetSumNonNegative(fs.Keys, Longer(|c|));
    SetSumLess(fs.Keys, Longer(|c|), Longer(|p|), c);
  }

  /** The sizes of a directory's files, as a function for `SetSum`. */
  function FileSizes(files: map<string, nat>): string -> int
  {
    name => if name in files then files[name] else 0
  }

  ghost function FileTotal(files: map<string, nat>): int
  {
    SetSum(files.Keys, FileSizes(files))
  }

  /** The stored sizes of a map, as a function for `SetSum`. */
  function TotalsOf(fs: FileSystem): Path -> int
  {
    q => if q in fs then fs[q].totalSize else 0
  }

  /** The size of a directory: its files plus the sizes of its subdirectories. */
  ghost function DirSize(fs: FileSystem, p: Path): int
    requires WF(fs) && p in fs && Complete(fs, p)
    decreases Measure(fs, p), 1
  {
    FileTotal(fs[p].files) + SetSum(fs[p].directories, DirSizes(fs, p))
  }

  /** The sizes of `p`'s subdirectories, as a function for `SetSum`. */
  ghost function DirSizes(fs: FileSystem, p: Path): Path -> int
    requires WF(fs) && p in fs && Complete(fs, p)
    decreases Measure(fs, p), 0
  {
    c => if c in fs[p].directories then (CompleteChild(fs, p, c); MeasureDecreases(fs, p, c); DirSize(fs, c)) else 0
  }

  /** The stored size of `q` is its file sizes plus the stored sizes of its subdirectories (shape read from `orig`). */
  ghost predicate LocalSized(r: FileSystem, orig: FileSystem, q: Path)
  {
    q in orig && q in r && r[q].totalSize == FileTotal(orig[q].files) + SetSum(orig[q].directories, TotalsOf(r))
  }

  /** The stored sizes of `r` obey the size equation at every directory reachable from `p`. */
  ghost predicate Sized(r: FileSystem, orig: FileSystem, p: Path)
  {
    forall q :: q in Descendants(orig, p) ==> LocalSized(r, orig, q)
  }

  /** Sizes below `p` stay right when only entries outside `p`'s subtree change. */
  lemma SizedFrame(r: FileSystem, r2: FileSystem, orig: FileSystem, p: Path)
    requires WF(orig) && SameShape(orig, r) && SameShape(orig, r2)
    requires Sized(r, orig, p)
    requires forall q :: q in orig && Prefix(p, q) ==> r2[q] == r[q]
    ensures Sized(r2, orig, p)
  {
    forall q | q in Descendants(orig, p) ensures LocalSized(r2, orig, q) {
      assert LocalSized(r, orig, q) && Linked(orig, p, q);
      forall c | c in orig[q].directories ensures TotalsOf(r2)(c) == TotalsOf(r)(c) {
        PrefixTrans(p, q, c);
      }
      SetSumAgree(orig[q].directories, TotalsOf(r), TotalsOf(r2));
    }
  }

  /** Stored sizes that obey the size equation are the directory sizes. */
  lemma {:induction false} SizedIsDirSize(r: FileSystem, orig: FileSystem, p: Path)
    requires WF(orig) && p in orig && Complete(orig, p) && Sized(r, orig, p)
    ensures p in r && r[p].totalSize == DirSize(orig, p)
    decreases Measure(orig, p)
  {
    var kids := orig[p].directories;
    SelfDescendant(orig, p);
    assert LocalSized(r, orig, p);
    forall c | c in kids ensures TotalsOf(r)(c) == DirSizes(orig, p)(c) {
      CompleteChild(orig, p, c);
      MeasureDecreases(orig, p, c);
      ChildDescendant(orig, p, c);
      DescendantsTrans(orig, p, c);
      SizedIsDirSize(r, orig, c);
    }
    SetSumAgree(kids, TotalsOf(r), DirSizes(orig, p));
  }

  /** Adds up the sizes of a directory's files (in the map's iteration order). */
  method SumFiles(files: map<string, nat>) returns (total: int)
    ensures total == FileTotal(files)
  {
    total := 0;
    var todo := files.Keys;
    while todo != {}
      invariant todo <= files.Keys
      invariant total + SetSum(todo, FileSizes(files)) == FileTotal(files)
      decreases |todo|
    {
      var name :| name in todo;
      SetSumRemove(todo, FileSizes(files), name);
      total := total + files[name];
      todo := todo - {name};
    }
  }

  /** The size of every complete directory, as a function for `SetSum`. */
  ghost function SizesOf(orig: FileSystem): Path -> int
  {
    c => SizeOf(orig, c)
  }

  /** The size of `c` when it is a complete directory, and 0 otherwise. */
  ghost function SizeOf(orig: FileSystem, c: Path): int
  {
    if WF(orig) && c in orig && Complete(orig, c) then DirSize(orig, c) else 0
  }

  /**
   * `compute_directory_size`: computes the size of every subdirectory of
   * `path` (recursively), then stores at `path` their sum plus the sizes of
   * its files. Panics when a listed subdirectory below `path` is not in the
   * map. Only entries in `path`'s subtree change. `orig` is the map's shape,
   * which stays fixed.
   */
  method ComputeDirectorySize(fs: FileSystem, path: Path, ghost orig: FileSystem) returns (r: Result<FileSystem>)
    requires WF(orig) && path in orig && SameShape(orig, fs)
    ensures r.Ok? <==> Complete(orig, path)
    ensures r.Ok? ==> SameShape(orig, r.value) && Sized(r.value, orig, path)
    ensures r.Ok? ==> forall q :: q in orig && !Prefix(path, q) ==> r.value[q] == fs[q]
    decreases Measure(orig, path), 2
  {
    var children := ComputeSubdirectories(fs, path, orig);
    if children.Panic? {
      assert !Complete(orig, path) by {
        if Complete(orig, path) {
          forall c | c in orig[path].directories ensures c in orig && Complete(orig, c) {
            CompleteChild(orig, path, c);
          }
          assert AllComplete(orig, orig[path].directories);
        }
      }
      return Panic;
    }
    var (cur, total) := children.value;
    var files := SumFiles(cur[path].files);
    SubdirectorySizes(orig, path, cur);
    SetSumNonNegative(orig[path].directories, TotalsOf(cur));
    SetSumNonNegative(cur[path].files.Keys, FileSizes(cur[path].files));
    SizeParent(orig, path, cur, total + files);
    return Ok(cur[path := cur[path].(totalSize := total + files)]);
  }

  /**
   * The first loop of `compute_directory_size`: computes each subdirectory
   * of `path` in turn (in the set's iteration order) and adds up their
   * sizes.
   */
  method ComputeSubdirectories(fs: FileSystem, path: Path, ghost orig: FileSystem) returns (r: Result<(FileSystem, int)>)
    requires WF(orig) && path in orig && SameShape(orig, fs)
    ensures r.Ok? <==> AllComplete(orig, orig[path].directories)
    ensures r.Ok? ==> Partial(fs, r.value.0, orig, path, orig[path].directories)
    ensures r.Ok? ==> r.value.1 == SetSum(orig[path].directories, SizesOf(orig))
    decreases Measure(orig, path), 1
  {
    var total := 0;
    var cur := fs;
    var directories := fs[path].directories;
    while directories != {}
      invariant Pending(fs, cur, total, orig, path, directories)
      decreases directories
    {
      var d :| d in directories;
      var next := ComputeChild(fs, cur, total, path, d, directories, orig);
      if next.Panic? {
        assert !AllComplete(orig, orig[path].directories) by {
          assert d in orig[path].directories;
        }
        return Panic;
      }
      cur, total := next.value.0, next.value.1;
      directories := directories - {d};
    }
    PendingNone(fs, cur, total, orig, path);
    return Ok((cur, total));
  }

  /** The state of the first loop once the subdirectories in `done` are computed. */
  ghost predicate Partial(fs: FileSystem, cur: FileSystem, orig: FileSystem, path: Path, done: set<Path>)
    requires path in orig
  {
    && SameShape(orig, cur) && path in cur && path in fs && cur[path] == fs[path]
    && (forall q :: q in orig && !Prefix(path, q) ==> q in fs && q in cur && cur[q] == fs[q])
    && Done(cur, orig, done)
  }

  /**
   * The invariant of the first loop while the subdirectories in
   * `directories` are still to be computed: the others are, and `total`
   * holds their sizes.
   */
  ghost predicate Pending(fs: FileSystem, cur: FileSystem, total: int, orig: FileSystem, path: Path, directories: set<Path>)
    requires path in orig
  {
    var kids := orig[path].directories;
    && directories <= kids
    && Partial(fs, cur, orig, path, kids - directories)
    && total + SetSum(directories, SizesOf(orig)) == SetSum(kids, SizesOf(orig))
  }

  /** When no subdirectory is pending, all are complete and sized and `total` is the sum of their sizes. */
  lemma PendingNone(fs: FileSystem, cur: FileSystem, total: int, orig: FileSystem, path: Path)
    requires path in orig && Pending(fs, cur, total, orig, path, {})
    ensures AllComplete(orig, orig[path].directories)
    ensures Partial(fs, cur, orig, path, orig[path].directories)
    ensures total == SetSum(orig[path].directories, SizesOf(orig))
  {
    assert orig[path].directories - {} == orig[path].directories;
  }

  /** One turn of the first loop: computes subdirectory `d` and adds its size to `total`. */
  method ComputeChild(fs: FileSystem, cur: FileSystem, total: int, path: Path, d: Path, ghost directories: set<Path>,
                      ghost orig: FileSystem)
      returns (r: Result<(FileSystem, int)>)
    requires WF(orig) && path in orig && d in directories
    requires Pending(fs, cur, total, orig, path, directories)
    ensures r.Ok? <==> d in orig && Complete(orig, d)
    ensures r.Ok? ==> Pending(fs, r.value.0, r.value.1, orig, path, directories - {d})
    decreases Measure(orig, path), 0
  {
    ghost var kids := orig[path].directories;
    if d !in cur {
      return Panic;
    }
    MeasureDecreases(orig, path, d);
    var sub := ComputeDirectorySize(cur, d, orig);
    if sub.Panic? {
      return Panic;
    }
    ChildStep(orig, path, d, kids - directories, cur, sub.value);
    SizedIsDirSize(sub.value, orig, d);
    SetSumRemove(directories, SizesOf(orig), d);
    assert kids - (directories - {d}) == (kids - directories) + {d};
    return Ok((sub.value, total + sub.value[d].totalSize));
  }

  /** Once every subdirectory is computed, their stored sizes are their directory sizes. */
  lemma SubdirectorySizes(orig: FileSystem, path: Path, cur: FileSystem)
    requires WF(orig) && path in orig && SameShape(orig, cur) && Done(cur, orig, orig[path].directories)
    ensures SetSum(orig[path].directories, TotalsOf(cur)) == SetSum(orig[path].directories, SizesOf(orig))
  {
    forall c | c in orig[path].directories ensures TotalsOf(cur)(c) == SizesOf(orig)(c) {
      SizedIsDirSize(cur, orig, c);
    }
    SetSumAgree(orig[path].directories, TotalsOf(cur), SizesOf(orig));
  }

  /** Each of `kids` is in the map and complete. */
  ghost predicate AllComplete(orig: FileSystem, kids: set<Path>)
  {
    forall c :: c in kids ==> c in orig && Complete(orig, c)
  }

  /** The subdirectories in `done` are complete and sized in `cur`. */
  ghost predicate Done(cur: FileSystem, orig: FileSystem, done: set<Path>)
  {
    forall c :: c in done ==> c in orig && Complete(orig, c) && Sized(cur, orig, c)
  }

  /**
   * After subdirectory `d` is computed, the subdirectories done before it
   * keep their sizes and stay sized, and `path` and everything outside its
   * subtree are untouched.
   */
  lemma ChildStep(orig: FileSystem, path: Path, d: Path, done: set<Path>, before: FileSystem, after: FileSystem)
    requires WF(orig) && path in orig && d in orig[path].directories && d !in done && done <= orig[path].directories
    requires SameShape(orig, before) && SameShape(orig, after) && Done(before, orig, done)
    requires d in orig && Complete(orig, d) && Sized(after, orig, d)
    requires forall q :: q in orig && !Prefix(d, q) ==> after[q] == before[q]
    ensures after[path] == before[path]
    ensures forall q :: q in orig && !Prefix(path, q) ==> after[q] == before[q]
    ensures Done(after, orig, done + {d})
  {
    assert !Prefix(d, path);
    forall q | q in orig && !Prefix(path, q) ensures after[q] == before[q] {
      if Prefix(d, q) {
        PrefixTrans(path, d, q);
      }
    }
    forall c | c in done ensures Sized(after, orig, c) {
      forall q | q in orig && Prefix(c, q) ensures after[q] == before[q] {
        assert !Prefix(d, q);
      }
      assert Prefix(c, c);
      SizedFrame(before, after, orig, c);
    }
  }

  /** With every subdirectory sized, storing their sum plus the file sizes at `path` sizes `path`. */
  lemma SizeParent(orig: FileSystem, path: Path, cur: FileSystem, total: nat)
    requires WF(orig) && path in orig && SameShape(orig, cur)
    requires Done(cur, orig, orig[path].directories)
    requires total == SetSum(orig[path].directories, TotalsOf(cur)) + FileTotal(orig[path].files)
    ensures Complete(orig, path)
    ensures
      var next := cur[path := cur[path].(totalSize := total)];
      SameShape(orig, next) && Sized(next, orig, path)
  {
    var kids := orig[path].directories;
    var next := cur[path := cur[path].(totalSize := total)];
    CompleteParent(orig, path);
    forall c | c in kids ensures Sized(next, orig, c) && TotalsOf(next)(c) == TotalsOf(cur)(c) {
      forall q | q in orig && Prefix(c, q) ensures next[q] == cur[q] {
        assert |q| > |path|;
      }
      assert Prefix(c, c);
      SizedFrame(cur, next, orig, c);
    }
    SetSumAgree(kids, TotalsOf(cur), TotalsOf(next));
    DescendantsSplit(orig, path);
    forall q | q in Descendants(orig, path) ensures LocalSized(next, orig, q) {
      if q != path {
        var c :| c in kids && q in Descendants(orig, c);
      }
    }
  }

  /** `preprocess`: the replayed map with every size below the root computed. */
  method Preprocess(lines: seq<string>) returns (r: Result<FileSystem>)
    ensures r.Ok? <==> Build(lines).Ok? && Complete(Build(lines).value.0, [])
    ensures r.Ok? ==>
      var orig := Build(lines).value.0;
      SameShape(orig, r.value) && Sized(r.value, orig, [])
  {
    var built := BuildFileSystem(lines);
    if built.Panic? {
      return Panic;
    }
    r := ComputeDirectorySize(built.value, [], built.value);
  }

  // -------------------------------------------------------------- part one

  /** The sum over descendants of `c`, as a function for `SetSum`. */
  ghost function DescSums(fs: FileSystem, f: Path -> int): Path -> int
  {
    c => SetSum(Descendants(fs, c), f)
  }

  /** The family of `kids` is the subtree of one of them plus the family of the others. */
  lemma FamilySplit(fs: FileSystem, kids: set<Path>, c: Path)
    requires c in kids
    ensures Family(fs, kids) == Descendants(fs, c) + Family(fs, kids - {c})
  {
  }

  /** The subtree of `c` shares nothing with the subtrees of other paths of the same length. */
  lemma FamilyDisjoint(fs: FileSystem, rest: set<Path>, c: Path, n: nat)
    requires c !in rest && |c| == n && forall c' :: c' in rest ==> |c'| == n
    ensures Descendants(fs, c) !! Family(fs, rest)
  {
  }

  /** Subdirectories of one length have disjoint subtrees, so sums over the family add up. */
  lemma {:induction false} FamilySum(fs: FileSystem, kids: set<Path>, n: nat, f: Path -> int)
    requires forall c :: c in kids ==> |c| == n
    ensures SetSum(Family(fs, kids), f) == SetSum(kids, DescSums(fs, f))
    decreases |kids|
  {
    if kids == {} {
      assert Family(fs, kids) == {};
    } else {
      var c :| c in kids;
      var rest := kids - {c};
      FamilySplit(fs, kids, c);
      FamilyDisjoint(fs, rest, c, n);
      SetSumUnion(Descendants(fs, c), Family(fs, rest), f);
      FamilySum(fs, rest, n, f);
      SetSumRemove(kids, DescSums(fs, f), c);
    }
  }

  /** A directory's stored size when it is below 100000, and 0 otherwise. */
  function SmallOf(fs: FileSystem): Path -> int
  {
    q => if q in fs && fs[q].totalSize < 100000 then fs[q].totalSize else 0
  }

  /**
   * `compute_directory_size_100000_sum`: the stored size of `p` if below
   * 100000, plus the same sum for each subdirectory.
   */
  ghost function SmallSum(fs: FileSystem, p: Path): int
    requires WF(fs) && p in fs && Complete(fs, p)
    decreases Measure(fs, p), 1
  {
    SmallOf(fs)(p) + SetSum(fs[p].directories, SmallSums(fs, p))
  }

  ghost function SmallSums(fs: FileSystem, p: Path): Path -> int
    requires WF(fs) && p in fs && Complete(fs, p)
    decreases Measure(fs, p), 0
  {
    c => if c in fs[p].directories then (CompleteChild(fs, p, c); MeasureDecreases(fs, p, c); SmallSum(fs, c)) else 0
  }

  /** The recursive sum counts each directory reachable from `p` once, with its size when below 100000. */
  lemma {:induction false} SmallSumOverDescendants(fs: FileSystem, p: Path)
    requires WF(fs) && p in fs && Complete(fs, p)
    ensures SmallSum(fs, p) == SetSum(Descendants(fs, p), SmallOf(fs))
    decreases Measure(fs, p)
  {
    var kids := fs[p].directories;
    assert SetSum(kids, SmallSums(fs, p)) == SetSum(kids, DescSums(fs, SmallOf(fs))) by {
      forall c | c in kids ensures SmallSums(fs, p)(c) == DescSums(fs, SmallOf(fs))(c) {
        CompleteChild(fs, p, c);
        MeasureDecreases(fs, p, c);
        SmallSumOverDescendants(fs, c);
      }
      SetSumAgree(kids, SmallSums(fs, p), DescSums(fs, SmallOf(fs)));
    }
    assert SetSum(Family(fs, kids), SmallOf(fs)) == SetSum(kids, DescSums(fs, SmallOf(fs))) by {
      FamilySum(fs, kids, |p| + 1, SmallOf(fs));
    }
    assert SetSum(Descendants(fs, p), SmallOf(fs)) == SmallOf(fs)(p) + SetSum(Family(fs, kids), SmallOf(fs)) by {
      DescendantsSplit(fs, p);
      SetSumRemove(Descendants(fs, p), SmallOf(fs), p);
      assert Descendants(fs, p) - {p} == Family(fs, kids);
    }
    assert SmallSum(fs, p) == SmallOf(fs)(p) + SetSum(kids, SmallSums(fs, p));
  }

  /** A directory's size when below 100000, and 0 otherwise. */
  ghost function SmallDirs(fs: FileSystem): Path -> int
  {
    q => if WF(fs) && q in fs && Complete(fs, q) && DirSize(fs, q) < 100000 then DirSize(fs, q) else 0
  }

  /**
   * `compute_directory_size_100000_sum` as the program runs it: the stored
   * size of `p` if below 100000, plus the same sum for each subdirectory in
   * turn.
   */
  method SmallDirectorySum(fs: FileSystem, p: Path) returns (total: int)
    requires WF(fs) && p in fs && Complete(fs, p)
    ensures total == SmallSum(fs, p)
    decreases Measure(fs, p)
  {
    total := if fs[p].totalSize < 100000 then fs[p].totalSize else 0;
    ghost var kids := fs[p].directories;
    var directories := fs[p].directories;
    while directories != {}
      invariant directories <= kids
      invariant total + SetSum(directories, SmallSums(fs, p)) == SmallSum(fs, p)
      decreases directories
    {
      var d :| d in directories;
      CompleteChild(fs, p, d);
      MeasureDecreases(fs, p, d);
      var sub := SmallDirectorySum(fs, d);
      SetSumRemove(directories, SmallSums(fs, p), d);
      total := total + sub;
      directories := directories - {d};
    }
  }

  /** On a sized map, the recursive sum adds up the sizes below 100000 of the directories reachable from the root. */
  lemma Part1Meaning(orig: FileSystem, r: FileSystem)
    requires WF(orig) && [] in orig && Complete(orig, []) && SameShape(orig, r) && Sized(r, orig, [])
    ensures WF(r) && Complete(r, [])
    ensures SmallSum(r, []) == SetSum(Descendants(orig, []), SmallDirs(orig))
  {
    WFShape(orig, r);
    CompleteShape(orig, r, []);
    SmallSumOverDescendants(r, []);
    DescendantsShape(orig, r, []);
    SmallAgree(orig, r);
    assert SmallSum(r, []) == SetSum(Descendants(orig, []), SmallOf(r));
  }

  /** Well-formedness depends only on the shape of the map. */
  lemma WFShape(a: FileSystem, b: FileSystem)
    requires WF(a) && SameShape(a, b)
    ensures WF(b)
  {
    forall p, c | p in b && c in b[p].directories ensures |c| == |p| + 1 && Prefix(p, c) {
      assert p in a && c in a[p].directories;
    }
  }

  /** Below a complete root, the stored sizes of a sized map are the directory sizes. */
  lemma SmallAgree(orig: FileSystem, r: FileSystem)
    requires WF(orig) && [] in orig && Complete(orig, []) && SameShape(orig, r) && Sized(r, orig, [])
    ensures SetSum(Descendants(orig, []), SmallOf(r)) == SetSum(Descendants(orig, []), SmallDirs(orig))
  {
    forall q | q in Descendants(orig, []) ensures SmallOf(r)(q) == SmallDirs(orig)(q) {
      DescendantsTrans(orig, [], q);
      SizedIsDirSize(r, orig, q);
    }
    SetSumAgree(Descendants(orig, []), SmallOf(r), SmallDirs(orig));
  }

  /**
   * `part1`: replays the session, computes the sizes and sums, over the
   * directories reachable from the root, their sizes below 100000.
   */
  method Part1(lines: seq<string>) returns (r: Result<int>)
    ensures r.Ok? <==> Build(lines).Ok? && Complete(Build(lines).value.0, [])
    ensures r.Ok? ==>
      var orig := Build(lines).value.0;
      r.value == SetSum(Descendants(orig, []), SmallDirs(orig))
  {
    var fs := Preprocess(lines);
    if fs.Panic? {
      return Panic;
    }
    ghost var orig := Build(lines).value.0;
    Part1Meaning(orig, fs.value);
    var total := SmallDirectorySum(fs.value, []);
    return Ok(total);
  }

  // -------------------------------------------------------------- part two

  const UsizeMax: nat := 0xFFFF_FFFF_FFFF_FFFF

  /**
   * `part2` on a preprocessed map: the smallest stored size above the
   * amount to delete, `30000000 - (70000000 - root)`, starting from
   * `usize::MAX`. Panics when either subtraction underflows.
   */
  method Part2(fs: FileSystem) returns (r: Result<nat>)
    requires [] in fs
    ensures r.Ok? <==> fs[[]].totalSize <= 70000000 && 70000000 - fs[[]].totalSize <= 30000000
    ensures r.Ok? ==>
      var delete := 30000000 - (70000000 - fs[[]].totalSize);
      && r.value <= UsizeMax
      && (forall q :: q in fs && fs[q].totalSize > delete ==> r.value <= fs[q].totalSize)
      && (r.value == UsizeMax || exists q :: q in fs && fs[q].totalSize > delete && r.value == fs[q].totalSize)
  {
    if fs[[]].totalSize > 70000000 {
      return Panic;
    }
    var free := 70000000 - fs[[]].totalSize;
    if free > 30000000 {
      return Panic;
    }
    var delete := 30000000 - free;
    var best := UsizeMax;
    var todo := fs.Keys;
    while todo != {}
      invariant todo <= fs.Keys && best <= UsizeMax
      invariant forall q :: q in fs && q !in todo && fs[q].totalSize > delete ==> best <= fs[q].totalSize
      invariant best == UsizeMax || exists q :: q in fs && fs[q].totalSize > delete && best == fs[q].totalSize
      decreases |todo|
    {
      var q :| q in todo;
      if fs[q].totalSize > delete && fs[q].totalSize < best {
        best := fs[q].totalSize;
      }
      todo := todo - {q};
    }
    return Ok(best);
  }
}
