/** initramfs/cmd/mkinitrd/kmod.go: which kernel modules to put into an initramfs. */
module Kmod {
  import opened Bytes
  import Graph

  datatype Info = Info(path: string, depends: seq<string>)

  type Modules = map<string, Info>

  // ----- The tree of modules -----

  /** One file found by walking the module directory, with what its metadata says. */
  datatype File = File(path: string, name: string, kernel: string, depends: seq<string>)

  datatype Tree = Tree(kernel: string, modules: Modules)

  /** parseKmodTree on the files in the order of the walk. */
  function ParseTree(files: seq<File>): Result<Tree> {
    if files == [] then Ok(Tree("", map[])) else
    match ParseTree(files[..|files| - 1])
    case Err => Err
    case Ok(t) =>
      var f := files[|files| - 1];
      var kernel := if t.kernel == "" then f.kernel else t.kernel;
      if kernel != f.kernel then Err
      else Ok(Tree(kernel, t.modules[f.name := Info(f.path, f.depends)]))
  }

  /** The walk callback of parseKmodTree, run over all files. */
  method ParseKmodTree(files: seq<File>) returns (r: Result<Tree>)
    ensures r == ParseTree(files)
  {
    var kernel, modules: Modules := "", map[];
    for i := 0 to |files|
      invariant ParseTree(files[..i]) == Ok(Tree(kernel, modules))
    {
      var f := files[i];
      assert files[..i + 1][..i] == files[..i];
      if kernel == "" {
        kernel := f.kernel;
      }
      if kernel != f.kernel {
        FailureStays(files, i + 1);
        return Err;
      }
      modules := modules[f.name := Info(f.path, f.depends)];
    }
    assert files[..|files|] == files;
    return Ok(Tree(kernel, modules));
  }

  lemma {:induction false} FailureStays(files: seq<File>, n: nat)
    requires n <= |files| && ParseTree(files[..n]).Err?
    ensures ParseTree(files).Err?
    decreases |files|
  {
    if n == |files| {
      assert files[..n] == files;
    } else {
      var front := files[..|files| - 1];
      assert front[..n] == files[..n];
      FailureStays(front, n);
    }
  }

  /** Once a file names a kernel release, the later ones name the same. */
  predicate OneKernel(files: seq<File>) {
    forall i, j :: 0 <= i < j < |files| && files[i].kernel != "" ==> files[j].kernel == files[i].kernel
  }

  predicate LastOfName(files: seq<File>, i: int)
    requires 0 <= i < |files|
  {
    forall j :: i < j < |files| ==> files[j].name != files[i].name
  }

  /** Parsing succeeds exactly when the files belong to one kernel, which is then the tree's. */
  lemma {:induction false} ParsesOneKernel(files: seq<File>)
    ensures ParseTree(files).Ok? <==> OneKernel(files)
    ensures ParseTree(files).Ok? && files != [] ==> ParseTree(files).value.kernel == files[|files| - 1].kernel
    decreases |files|
  {
    if files != [] {
      ParsesOneKernel(files[..|files| - 1]);
      KernelSnoc(files);
      hide OneKernel;
    }
  }

  /** The tree holds, for every name, the data of the last file of that name. */
  lemma {:induction false} LastFileWins(files: seq<File>, i: int)
    requires ParseTree(files).Ok? && 0 <= i < |files| && LastOfName(files, i)
    ensures files[i].name in ParseTree(files).value.modules
    ensures ParseTree(files).value.modules[files[i].name] == Info(files[i].path, files[i].depends)
    decreases |files|
  {
    var n := |files| - 1;
    if i < n {
      var front := files[..n];
      assert forall j :: 0 <= j < n ==> front[j] == files[j];
      assert LastOfName(front, i);
      LastFileWins(front, i);
    }
  }

  /** And it holds no other names. */
  lemma {:induction false} NamesFromFiles(files: seq<File>, name: string) returns (i: int)
    requires ParseTree(files).Ok? && name in ParseTree(files).value.modules
    ensures 0 <= i < |files| && files[i].name == name && LastOfName(files, i)
    decreases |files|
  {
    var n := |files| - 1;
    if files[n].name == name {
      i := n;
    } else {
      var front := files[..n];
      i := NamesFromFiles(front, name);
      assert forall j :: i < j < n ==> files[j] == front[j];
    }
  }

  lemma KernelSnoc(files: seq<File>)
    requires files != []
    ensures OneKernel(files) <==>
            OneKernel(files[..|files| - 1])
            && (|files| == 1 || files[|files| - 2].kernel == "" || files[|files| - 2].kernel == files[|files| - 1].kernel)
  {
    var n := |files| - 1;
    var front := files[..n];
    assert forall i :: 0 <= i < n ==> front[i] == files[i];
    if OneKernel(front) && n > 0 {
      assert forall i :: 0 <= i < n && front[i].kernel != "" ==> front[n - 1].kernel == front[i].kernel;
    }
  }

  predicate DistinctPaths(files: seq<File>) {
    forall i, j :: 0 <= i < j < |files| ==> files[i].path != files[j].path
  }

  /** No two modules share a file. */
  predicate Injective(m: Modules) {
    forall a, b :: a in m && b in m && m[a].path == m[b].path ==> a == b
  }

  /** A walk meets every file once, so every path names one module. */
  lemma {:induction false} ParsedInjective(files: seq<File>)
    requires DistinctPaths(files) && ParseTree(files).Ok?
    ensures Injective(ParseTree(files).value.modules)
    ensures forall a :: a in ParseTree(files).value.modules ==>
                          exists i :: 0 <= i < |files| && files[i].path == ParseTree(files).value.modules[a].path
    decreases |files|
  {
    if files != [] {
      var n := |files| - 1;
      var front := files[..n];
      ParsedInjective(front);
      var before, after := ParseTree(front).value.modules, ParseTree(files).value.modules;
      forall a | a in after
        ensures exists i :: 0 <= i < |files| && files[i].path == after[a].path
        ensures a != files[n].name ==> after[a].path != files[n].path
      {
        if a == files[n].name {
          assert files[n].path == after[a].path;
        } else {
          var i :| 0 <= i < |front| && front[i].path == before[a].path;
          assert files[i].path == after[a].path;
        }
      }
    }
  }

  // ----- Reachability -----

  function Edges(m: Modules): Graph.Graph {
    map a | a in m :: m[a].depends
  }

  ghost predicate ReachableFrom(m: Modules, start: string, name: string) {
    Graph.Reachable(Edges(m), start, name)
  }

  lemma ReachesItself(m: Modules, name: string)
    ensures ReachableFrom(m, name, name)
  {
    Graph.ReachSelf(Edges(m), name);
  }

  lemma ReachesThrough(m: Modules, name: string, dep: string, a: string)
    requires name in m && dep in m[name].depends && ReachableFrom(m, dep, a)
    ensures ReachableFrom(m, name, a)
  {
    Graph.ReachThrough(Edges(m), name, dep, a);
  }

  ghost predicate Reachable(m: Modules, names: seq<string>, name: string) {
    exists start :: start in names && ReachableFrom(m, start, name)
  }

  /** The module's dependencies exist and are collected. */
  predicate Expanded(m: Modules, name: string, cache: set<string>)
    requires name in m
  {
    forall d :: d in m[name].depends ==> d in m && m[d].path in cache
  }

  /** Paths of the modules reachable from a name. */
  ghost predicate FromName(m: Modules, start: string, path: string) {
    exists a :: a in m && m[a].path == path && ReachableFrom(m, start, a)
  }

  ghost predicate FromNames(m: Modules, names: seq<string>, path: string) {
    exists a :: a in m && m[a].path == path && Reachable(m, names, a)
  }

  function Paths(m: Modules): set<string> {
    set a | a in m :: m[a].path
  }

  // ----- The code -----

  class Collector {
    const modules: Modules
    var cache: set<string>

    constructor (modules: Modules)
      ensures this.modules == modules && cache == {}
    {
      this.modules, cache := modules, {};
    }

    /**
     add: collects a module and what it depends on. It terminates on cyclic dependencies too,
     because every call that goes deeper collects one more path. On success every module collected
     by this call has its dependencies collected; on failure some reachable module is missing.
     */
    method Add(name: string) returns (ok: bool)
      requires cache <= Paths(modules) && Injective(modules)
      modifies this
      ensures old(cache) <= cache <= Paths(modules)
      ensures forall p :: p in cache && p !in old(cache) ==> FromName(modules, name, p)
      ensures ok ==> name in modules && modules[name].path in cache
      ensures ok ==> forall a :: a in modules && modules[a].path in cache && modules[a].path !in old(cache) ==>
                                   Expanded(modules, a, cache)
      ensures !ok ==> exists a :: a !in modules && ReachableFrom(modules, name, a)
      decreases Paths(modules) - cache
    {
      hide ReachableFrom;
      ReachesItself(modules, name);
      if name !in modules {
        return false;
      }
      var mod := modules[name];
      if mod.path in cache {
        return true;
      }
      ghost var before := cache;
      cache := cache + {mod.path};
      assert FromName(modules, name, mod.path);
      for i := 0 to |mod.depends|
        invariant before + {mod.path} <= cache <= Paths(modules)
        invariant forall p :: p in cache && p !in before ==> FromName(modules, name, p)
        invariant forall d :: d in mod.depends[..i] ==> d in modules && modules[d].path in cache
        invariant forall a :: a in modules && modules[a].path in cache && modules[a].path !in before + {mod.path} ==>
                                Expanded(modules, a, cache)
      {
        ghost var mid := cache;
        var dep := mod.depends[i];
        ok := Add(dep);
        FoundThrough(modules, name, dep, mid, cache);
        if !ok {
          ghost var a :| a !in modules && ReachableFrom(modules, dep, a);
          ReachesThrough(modules, name, dep, a);
          return false;
        }
        StaysExpanded(modules, before + {mod.path}, mid, cache);
        assert mod.depends[..i + 1] == mod.depends[..i] + [dep];
      }
      assert mod.depends[..|mod.depends|] == mod.depends;
      return true;
    }
  }

  lemma FoundThrough(m: Modules, name: string, dep: string, before: set<string>, after: set<string>)
    requires name in m && dep in m[name].depends
    requires forall p :: p in after && p !in before ==> FromName(m, dep, p)
    ensures forall p :: p in after && p !in before ==> FromName(m, name, p)
  {
    forall p | p in after && p !in before
      ensures FromName(m, name, p)
    {
      var a :| a in m && m[a].path == p && ReachableFrom(m, dep, a);
      ReachesThrough(m, name, dep, a);
    }
  }

  /** Growing the collection by expanded modules keeps the modules outside `open` expanded. */
  lemma StaysExpanded(m: Modules, open: set<string>, mid: set<string>, after: set<string>)
    requires mid <= after
    requires forall a :: a in m && m[a].path in mid && m[a].path !in open ==> Expanded(m, a, mid)
    requires forall a :: a in m && m[a].path in after && m[a].path !in mid ==> Expanded(m, a, after)
    ensures forall a :: a in m && m[a].path in after && m[a].path !in open ==> Expanded(m, a, after)
  {
  }

  /** All modules reachable from the names are known. */
  ghost predicate Complete(m: Modules, names: seq<string>) {
    forall a :: Reachable(m, names, a) ==> a in m
  }

  function Base(path: string): string {
    if path == "" || path[|path| - 1] == '/' then "" else Base(path[..|path| - 1]) + [path[|path| - 1]]
  }

  /** Where a module goes in the archive. */
  function Dest(kernel: string, path: string): string {
    "lib/modules/" + kernel + "/" + Base(path)
  }

  /** The base is what follows the last slash. */
  lemma {:induction false} BaseIs(path: string) returns (dir: string)
    ensures path == dir + Base(path) && '/' !in Base(path) && (dir == "" || dir[|dir| - 1] == '/')
  {
    if path == "" || path[|path| - 1] == '/' {
      dir := path;
    } else {
      dir := BaseIs(path[..|path| - 1]);
      assert path == path[..|path| - 1] + [path[|path| - 1]];
    }
  }

  /** A module goes below the directory of its kernel, under the last element of its path. */
  lemma DestIs(kernel: string, path: string) returns (dir: string, base: string)
    ensures path == dir + base && '/' !in base && (dir == "" || dir[|dir| - 1] == '/')
    ensures Dest(kernel, path) == "lib/modules/" + kernel + "/" + base
  {
    dir := BaseIs(path);
    base := Base(path);
  }

  ghost predicate Wanted(tree: Tree, names: seq<string>, item: (string, string)) {
    exists a :: a in tree.modules && Reachable(tree.modules, names, a)
                && item == (tree.modules[a].path, Dest(tree.kernel, tree.modules[a].path))
  }

  /** The loop of findKernelModules over the requested names. */
  method Collect(tree: Tree, names: seq<string>) returns (r: Result<set<string>>)
    requires Injective(tree.modules)
    ensures r.Ok? <==> Complete(tree.modules, names)
    ensures r.Ok? ==> forall p :: p in r.value <==> FromNames(tree.modules, names, p)
  {
    hide ReachableFrom;
    ghost var m := tree.modules;
    var c := new Collector(tree.modules);
    for i := 0 to |names|
      invariant c.modules == m && c.cache <= Paths(m)
      invariant forall p :: p in c.cache ==> FromNames(m, names, p)
      invariant forall a :: a in m && m[a].path in c.cache ==> Expanded(m, a, c.cache)
      invariant forall n :: n in names[..i] ==> n in m && m[n].path in c.cache
    {
      ghost var before := c.cache;
      var ok := c.Add(names[i]);
      FoundFromNames(m, names, names[i], before, c.cache);
      if !ok {
        ghost var a :| a !in m && ReachableFrom(m, names[i], a);
        assert Reachable(m, names, a);
        return Err;
      }
      StaysExpanded(m, {}, before, c.cache);
      assert names[..i + 1] == names[..i] + [names[i]];
    }
    assert names[..|names|] == names;
    AllCollected(m, names, c.cache);
    return Ok(c.cache);
  }

  /**
   findKernelModules: given the files of a walk, it succeeds exactly when they parse (see
   ParsesOneKernel) and every reachable module exists, and then returns exactly the reachable modules, each with its
   place in the archive.
   */
  method FindKernelModules(files: seq<File>, names: seq<string>) returns (r: Result<set<(string, string)>>)
    requires DistinctPaths(files)
    ensures r.Ok? <==> ParseTree(files).Ok? && Complete(ParseTree(files).value.modules, names)
    ensures r.Ok? ==> forall item :: item in r.value <==> Wanted(ParseTree(files).value, names, item)
  {
    hide Complete, ParseTree, Dest, Reachable;
    var parsed := ParseKmodTree(files);
    if parsed.Err? {
      return Err;
    }
    ParsedInjective(files);
    var paths := Collect(parsed.value, names);
    if paths.Err? {
      return Err;
    }
    var kernel := parsed.value.kernel;
    r := Ok(set p | p in paths.value :: (p, Dest(kernel, p)));
    forall item
      ensures item in r.value <==> Wanted(parsed.value, names, item)
    {
      assert item in r.value <==> FromNames(parsed.value.modules, names, item.0) && item.1 == Dest(kernel, item.0);
    }
  }

  lemma FoundFromNames(m: Modules, names: seq<string>, name: string, before: set<string>, after: set<string>)
    requires name in names && forall p :: p in after && p !in before ==> FromName(m, name, p)
    ensures forall p :: p in after && p !in before ==> FromNames(m, names, p)
  {
    hide ReachableFrom;
    forall p | p in after && p !in before
      ensures FromNames(m, names, p)
    {
      var a :| a in m && m[a].path == p && ReachableFrom(m, name, a);
      assert Reachable(m, names, a);
    }
  }

  lemma AllCollected(m: Modules, names: seq<string>, cache: set<string>)
    requires forall n :: n in names ==> n in m && m[n].path in cache
    requires forall a :: a in m && m[a].path in cache ==> Expanded(m, a, cache)
    ensures forall a :: Reachable(m, names, a) ==> a in m && m[a].path in cache
  {
    var known := set a | a in m && m[a].path in cache;
    assert Graph.Closed(Edges(m), known);
    forall a | Reachable(m, names, a)
      ensures a in m && m[a].path in cache
    {
      var start :| start in names && ReachableFrom(m, start, a);
      Graph.ClosedContains(Edges(m), known, start, a);
    }
  }
}
