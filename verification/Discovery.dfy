/** The walk over a module collection (src/sampleextract/discovery.py), whose folders may link to one another in cycles.
    A folder is known by its device and inode, here its identity; a path is the names followed from the source
    folder. */
module ModuleDiscovery {
  import opened Options
  import opened Sorting

  type Identity = nat

  type Path = seq<string>

  datatype Link = Link(name: string, target: Identity)

  /** Anything a folder lists that is not a folder; only an ordinary file can be a module. */
  datatype File = File(name: string, ordinary: bool)

  datatype Folder = Folder(readable: bool, subfolders: seq<Link>, files: seq<File>)

  type Tree = map<Identity, Folder>

  ghost predicate ValidFolder(tree: Tree, folder: Folder) {
    && (forall i :: 0 <= i < |folder.subfolders| ==> folder.subfolders[i].target in tree)
    && (forall i, j :: 0 <= i < j < |folder.subfolders| ==> folder.subfolders[i].name != folder.subfolders[j].name)
    && (forall i, j :: 0 <= i < j < |folder.files| ==> folder.files[i].name != folder.files[j].name)
  }

  ghost predicate ValidTree(tree: Tree) {
    forall d :: d in tree ==> ValidFolder(tree, tree[d])
  }

  // ------------------------------------------------------------------ which names are modules

  function LastDot(name: string): (i: int)
    ensures -1 <= i < |name|
    ensures 0 <= i ==> name[i] == '.'
    ensures forall k :: i < k < |name| ==> name[k] != '.'
  {
    if name == "" then -1
    else if name[|name| - 1] == '.' then |name| - 1
    else LastDot(name[..|name| - 1])
  }

  function Suffix(name: string): string {
    var i := LastDot(name);
    if 0 < i < |name| - 1 then name[i..] else ""
  }

  function Lower(s: string): string {
    seq(|s|, i requires 0 <= i < |s| => if 'A' <= s[i] <= 'Z' then s[i] - 'A' + 'a' else s[i])
  }

  predicate IsModule(file: File) {
    file.ordinary && Lower(Suffix(file.name)) in {".xm", ".it", ".mod", ".s3m"}
  }

  /** The same letters, capital or small. */
  ghost predicate Spells(ending: string, suffix: string) {
    |ending| == |suffix| && forall i :: 0 <= i < |suffix| ==>
      ending[i] == suffix[i] || ('a' <= suffix[i] <= 'z' && ending[i] as int == suffix[i] as int - 32)
  }

  ghost predicate EndsIn(name: string, n: nat, suffix: string) {
    1 <= n <= |name| && Spells(name[n..], suffix)
  }

  ghost predicate IsASuffix(suffix: string) {
    |suffix| >= 2 && suffix[0] == '.' && forall i :: 1 <= i < |suffix| ==>
      'a' <= suffix[i] <= 'z' || '0' <= suffix[i] <= '9'
  }

  lemma LoweredSpells(ending: string, suffix: string)
    requires IsASuffix(suffix)
    ensures Lower(ending) == suffix ==> |ending| == |suffix| && ending[0] == '.' && Spells(ending, suffix)
    ensures Spells(ending, suffix) ==> Lower(ending) == suffix && forall i :: 1 <= i < |ending| ==> ending[i] != '.'
  {
    assert |Lower(ending)| == |ending|;
    forall i | 0 <= i < |ending|
      ensures Lower(ending)[i] == if 'A' <= ending[i] <= 'Z' then ending[i] - 'A' + 'a' else ending[i]
    {
    }
  }

  /** A name ends in a suffix, behind one character at least, exactly if that is its own suffix in small letters. */
  lemma SuffixesAreEndings(name: string, suffix: string)
    requires IsASuffix(suffix)
    ensures Lower(Suffix(name)) == suffix <==> exists n :: EndsIn(name, n, suffix)
  {
    var at := LastDot(name);
    if Lower(Suffix(name)) == suffix {
      LoweredSpells(Suffix(name), suffix);
      assert EndsIn(name, at, suffix);
    }
    if n: nat :| EndsIn(name, n, suffix) {
      LoweredSpells(name[n..], suffix);
      assert name[n] == name[n..][0] && forall k :: n < k < |name| ==> name[k] == name[n..][k - n];
      hide LastDot;
      assert at == n;
    }
  }

  /** A module is an ordinary file whose name ends, behind one character at least, in one of the four suffixes, in
      capital or small letters. */
  lemma ModulesEndInTheirSuffix(file: File)
    ensures IsModule(file) <==>
      && file.ordinary
      && exists suffix, n :: suffix in [".xm", ".it", ".mod", ".s3m"] && EndsIn(file.name, n, suffix)
  {
    hide Lower, Suffix, EndsIn;
    SuffixesAreEndings(file.name, ".xm");
    SuffixesAreEndings(file.name, ".it");
    SuffixesAreEndings(file.name, ".mod");
    SuffixesAreEndings(file.name, ".s3m");
  }

  // ------------------------------------------------------------------ what a path leads to

  function Followed(links: seq<Link>, name: string): Option<Identity> {
    if links == [] then None
    else if links[0].name == name then Some(links[0].target)
    else Followed(links[1..], name)
  }

  /** The folder a path reaches, when every folder on the way can be listed. */
  function Resolved(tree: Tree, root: Identity, path: Path): Option<Identity> {
    if path == [] then Some(root)
    else
      var parent := Resolved(tree, root, path[..|path| - 1]);
      if parent.Some? && parent.value in tree && tree[parent.value].readable
      then Followed(tree[parent.value].subfolders, path[|path| - 1])
      else None
  }

  /** One file of one folder, however many paths lead to it. */
  datatype Module = Module(folder: Identity, name: string)

  ghost predicate InFolder(tree: Tree, m: Module) {
    m.folder in tree && tree[m.folder].readable && exists k :: 0 <= k < |tree[m.folder].files| && IsFileOf(tree, m, k)
  }

  ghost predicate IsFileOf(tree: Tree, m: Module, k: nat)
    requires m.folder in tree && k < |tree[m.folder].files|
  {
    tree[m.folder].files[k].name == m.name && IsModule(tree[m.folder].files[k])
  }

  ghost predicate Names(tree: Tree, root: Identity, path: Path, m: Module) {
    path != [] && Resolved(tree, root, path[..|path| - 1]) == Some(m.folder) && path[|path| - 1] == m.name
      && InFolder(tree, m)
  }

  ghost predicate LeadsTo(tree: Tree, root: Identity, path: Path, d: Identity) {
    Resolved(tree, root, path) == Some(d)
  }

  lemma {:induction false} LinksAreFollowed(links: seq<Link>, k: nat)
    requires k < |links| && forall i, j :: 0 <= i < j < |links| ==> links[i].name != links[j].name
    ensures Followed(links, links[k].name) == Some(links[k].target)
  {
    if k > 0 {
      assert links[0].name != links[k].name;
      LinksAreFollowed(links[1..], k - 1);
    }
  }

  lemma {:induction false} FollowedIsALink(links: seq<Link>, name: string) returns (k: nat)
    requires Followed(links, name).Some?
    ensures k < |links| && links[k] == Link(name, Followed(links, name).value)
  {
    if links[0].name == name {
      k := 0;
    } else {
      k := FollowedIsALink(links[1..], name);
      k := k + 1;
    }
  }

  lemma OneStepFurther(tree: Tree, root: Identity, path: Path, d: Identity, k: nat)
    requires d in tree && ValidFolder(tree, tree[d]) && tree[d].readable && LeadsTo(tree, root, path, d)
      && k < |tree[d].subfolders|
    ensures LeadsTo(tree, root, path + [tree[d].subfolders[k].name], tree[d].subfolders[k].target)
  {
    LinksAreFollowed(tree[d].subfolders, k);
    var longer := path + [tree[d].subfolders[k].name];
    assert longer[..|longer| - 1] == path;
  }

  // ------------------------------------------------------------------ the walk

  datatype Visit = Visit(path: Path, folder: Identity)

  /** What the walk holds: the folders still to visit, those walked, the module paths found with the module each names,
      and the paths refused with the folder each leads to. */
  datatype Progress = Progress(stack: seq<Visit>, walked: set<Identity>, paths: seq<Path>, found: seq<Module>,
                               unreadable: seq<Path>, refused: seq<Identity>)

  predicate Waits(stack: seq<Visit>, d: Identity) {
    exists i :: 0 <= i < |stack| && stack[i].folder == d
  }

  predicate Met(p: Progress, d: Identity) {
    d in p.walked || d in p.refused || Waits(p.stack, d)
  }

  ghost predicate WellPlaced(tree: Tree, root: Identity, v: Visit) {
    v.folder in tree && LeadsTo(tree, root, v.path, v.folder)
  }

  ghost predicate FoundAre(tree: Tree, root: Identity, p: Progress) {
    && |p.found| == |p.paths|
    && (forall i :: 0 <= i < |p.paths| ==> Names(tree, root, p.paths[i], p.found[i]))
    && (forall i :: 0 <= i < |p.found| ==> p.found[i].folder in p.walked)
    && Distinct(p.found)
  }

  ghost predicate RefusedAre(tree: Tree, root: Identity, p: Progress) {
    && |p.refused| == |p.unreadable|
    && (forall i :: 0 <= i < |p.unreadable| ==> LeadsTo(tree, root, p.unreadable[i], p.refused[i]))
    && (forall i :: 0 <= i < |p.refused| ==> p.refused[i] in tree && !tree[p.refused[i]].readable)
  }

  ghost predicate Explored(tree: Tree, p: Progress, d: Identity)
    requires d in tree
  {
    && tree[d].readable
    && (forall k :: 0 <= k < |tree[d].subfolders| ==> Met(p, tree[d].subfolders[k].target))
    && (forall k :: 0 <= k < |tree[d].files| && IsModule(tree[d].files[k]) ==>
      Module(d, tree[d].files[k].name) in p.found)
  }

  ghost predicate Invariant(tree: Tree, root: Identity, p: Progress) {
    && (forall i :: 0 <= i < |p.stack| ==> WellPlaced(tree, root, p.stack[i]))
    && FoundAre(tree, root, p)
    && RefusedAre(tree, root, p)
    && Met(p, root)
    && (forall d :: d in p.walked ==> d in tree && Explored(tree, p, d))
  }

  function ModulesOf(d: Identity, files: seq<File>): seq<Module> {
    if files == [] then []
    else (if IsModule(files[0]) then [Module(d, files[0].name)] else []) + ModulesOf(d, files[1..])
  }

  function PathsOf(path: Path, files: seq<File>): seq<Path> {
    if files == [] then []
    else (if IsModule(files[0]) then [path + [files[0].name]] else []) + PathsOf(path, files[1..])
  }

  /** A folder's subfolders as they are put on the stack, so that the first listed is visited first. */
  function Pushed(path: Path, links: seq<Link>): (visits: seq<Visit>)
    ensures |visits| == |links|
    ensures forall i :: 0 <= i < |links| ==> visits[|links| - 1 - i] == Visit(path + [links[i].name], links[i].target)
  {
    seq(|links|, i requires 0 <= i < |links| =>
      Visit(path + [links[|links| - 1 - i].name], links[|links| - 1 - i].target))
  }

  lemma {:induction false} ModulesAreTheFiles(d: Identity, path: Path, files: seq<File>)
    requires forall i, j :: 0 <= i < j < |files| ==> files[i].name != files[j].name
    ensures |PathsOf(path, files)| == |ModulesOf(d, files)| && Distinct(ModulesOf(d, files))
    ensures forall i :: 0 <= i < |ModulesOf(d, files)| ==>
      PathsOf(path, files)[i] == path + [ModulesOf(d, files)[i].name]
    ensures forall m :: m in ModulesOf(d, files) ==> IsModuleOf(d, files, m)
    ensures forall k :: 0 <= k < |files| && IsModule(files[k]) ==> Module(d, files[k].name) in ModulesOf(d, files)
  {
    if files != [] {
      ModulesAreTheFiles(d, path, files[1..]);
      forall m | m in ModulesOf(d, files[1..])
        ensures IsModuleOf(d, files, m) && m.name != files[0].name
      {
        var k :| 0 <= k < |files[1..]| && files[1..][k].name == m.name && IsModule(files[1..][k]) && m.folder == d;
        assert files[k + 1] == files[1..][k];
      }
      forall k | 0 <= k < |files| && IsModule(files[k])
        ensures Module(d, files[k].name) in ModulesOf(d, files)
      {
        if k > 0 { assert files[1..][k - 1] == files[k]; }
      }
    }
  }

  ghost predicate IsModuleOf(d: Identity, files: seq<File>, m: Module) {
    m.folder == d && exists k :: 0 <= k < |files| && files[k].name == m.name && IsModule(files[k])
  }

  // ------------------------------------------------------------------ one visit

  /** A folder that cannot be listed is named, one walked before gives nothing, and any other gives its modules and
      subfolders. */
  function Visited(tree: Tree, p: Progress): Progress
    requires p.stack != [] && p.stack[|p.stack| - 1].folder in tree
  {
    var v, rest := p.stack[|p.stack| - 1], p.stack[..|p.stack| - 1];
    var folder := tree[v.folder];
    if !folder.readable then p.(stack := rest, unreadable := p.unreadable + [v.path], refused := p.refused + [v.folder])
    else if v.folder in p.walked then p.(stack := rest)
    else Progress(rest + Pushed(v.path, folder.subfolders), p.walked + {v.folder},
      p.paths + PathsOf(v.path, folder.files),
                  p.found + ModulesOf(v.folder, folder.files), p.unreadable, p.refused)
  }

  lemma MetStaysMet(tree: Tree, root: Identity, p: Progress, d: Identity)
    requires ValidTree(tree) && Invariant(tree, root, p) && p.stack != [] && Met(p, d)
    ensures Met(Visited(tree, p), d)
  {
    var n := |p.stack| - 1;
    var v, after := p.stack[n], Visited(tree, p);
    assert WellPlaced(tree, root, v);
    if v.folder == d {
      if !tree[d].readable { assert after.refused[|p.refused|] == d; }
    } else if d !in p.walked && d !in p.refused {
      var i :| 0 <= i < |p.stack| && p.stack[i].folder == d;
      assert after.stack[i] == p.stack[i];
    }
  }

  lemma StackStaysPlaced(tree: Tree, root: Identity, p: Progress)
    requires ValidTree(tree) && Invariant(tree, root, p) && p.stack != []
    ensures forall i :: 0 <= i < |Visited(tree, p).stack| ==> WellPlaced(tree, root, Visited(tree, p).stack[i])
  {
    var n := |p.stack| - 1;
    var v, after := p.stack[n], Visited(tree, p);
    assert WellPlaced(tree, root, v);
    var links := tree[v.folder].subfolders;
    forall i | 0 <= i < |after.stack|
      ensures WellPlaced(tree, root, after.stack[i])
    {
      if i < n {
        assert WellPlaced(tree, root, p.stack[i]);
      } else {
        var k := |links| - 1 - (i - n);
        assert after.stack[i] == Visit(v.path + [links[k].name], links[k].target);
        assert ValidFolder(tree, tree[v.folder]);
        OneStepFurther(tree, root, v.path, v.folder, k);
      }
    }
  }

  lemma NewModulesAreNamed(tree: Tree, root: Identity, v: Visit, i: nat)
    requires WellPlaced(tree, root, v) && ValidFolder(tree, tree[v.folder]) && tree[v.folder].readable
    requires i < |ModulesOf(v.folder, tree[v.folder].files)| && i < |PathsOf(v.path, tree[v.folder].files)|
    ensures Names(tree, root, PathsOf(v.path, tree[v.folder].files)[i], ModulesOf(v.folder, tree[v.folder].files)[i])
    ensures ModulesOf(v.folder, tree[v.folder].files)[i].folder == v.folder
  {
    var files := tree[v.folder].files;
    ModulesAreTheFiles(v.folder, v.path, files);
    var m, path := ModulesOf(v.folder, files)[i], PathsOf(v.path, files)[i];
    assert m in ModulesOf(v.folder, files) && IsModuleOf(v.folder, files, m);
    var k :| 0 <= k < |files| && files[k].name == m.name && IsModule(files[k]);
    assert IsFileOf(tree, m, k);
    assert path[..|path| - 1] == v.path;
  }

  lemma FoundStayFound(tree: Tree, root: Identity, p: Progress)
    requires ValidTree(tree) && Invariant(tree, root, p) && p.stack != []
    ensures FoundAre(tree, root, Visited(tree, p))
  {
    var v := p.stack[|p.stack| - 1];
    assert WellPlaced(tree, root, v) && FoundAre(tree, root, p);
    var folder := tree[v.folder];
    if folder.readable && v.folder !in p.walked {
      assert ValidFolder(tree, folder);
      ModulesAreTheFiles(v.folder, v.path, folder.files);
      var paths, modules := PathsOf(v.path, folder.files), ModulesOf(v.folder, folder.files);
      forall i | 0 <= i < |modules|
        ensures Names(tree, root, paths[i], modules[i]) && modules[i].folder == v.folder
      {
        NewModulesAreNamed(tree, root, v, i);
      }
      MoreAreFound(tree, root, p, Visited(tree, p), v.folder, paths, modules);
    }
  }

  lemma MoreAreFound(tree: Tree, root: Identity, p: Progress, after: Progress, d: Identity, paths: seq<Path>,
      modules: seq<Module>)
    requires FoundAre(tree, root, p) && d !in p.walked && Distinct(modules) && |paths| == |modules|
    requires forall i :: 0 <= i < |modules| ==> Names(tree, root, paths[i], modules[i]) && modules[i].folder == d
    requires after.paths == p.paths + paths && after.found == p.found + modules && after.walked == p.walked + {d}
    ensures FoundAre(tree, root, after)
  {
    hide Names;
    JoinedAreDistinct(p.found, modules);
    hide Distinct;
    forall i | 0 <= i < |after.paths|
      ensures Names(tree, root, after.paths[i], after.found[i]) && after.found[i].folder in after.walked
    {
      if i >= |p.paths| {
        assert after.paths[i] == paths[i - |p.paths|] && after.found[i] == modules[i - |p.paths|];
      } else {
        assert after.paths[i] == p.paths[i] && after.found[i] == p.found[i];
      }
    }
  }

  lemma JoinedAreDistinct(a: seq<Module>, b: seq<Module>)
    requires Distinct(a) && Distinct(b) && forall i, j :: 0 <= i < |a| && 0 <= j < |b| ==> a[i].folder != b[j].folder
    ensures Distinct(a + b)
  {
  }

  lemma RefusedStayRefused(tree: Tree, root: Identity, p: Progress)
    requires ValidTree(tree) && Invariant(tree, root, p) && p.stack != []
    ensures RefusedAre(tree, root, Visited(tree, p))
  {
    assert WellPlaced(tree, root, p.stack[|p.stack| - 1]);
  }

  lemma WalkedStayExplored(tree: Tree, root: Identity, p: Progress, d: Identity)
    requires ValidTree(tree) && Invariant(tree, root, p) && p.stack != [] && d in Visited(tree, p).walked
    ensures d in tree && Explored(tree, Visited(tree, p), d)
  {
    var v, after := p.stack[|p.stack| - 1], Visited(tree, p);
    assert WellPlaced(tree, root, v);
    assert ValidFolder(tree, tree[v.folder]);
    var links := tree[d].subfolders;
    forall k | 0 <= k < |links|
      ensures Met(after, links[k].target)
    {
      if d in p.walked {
        MetStaysMet(tree, root, p, links[k].target);
      } else {
        var at := |p.stack| - 1 + (|links| - 1 - k);
        assert after.stack[at].folder == links[k].target;
      }
    }
    ModulesAreTheFiles(v.folder, v.path, tree[v.folder].files);
  }

  /** Every visit keeps the invariant, and either walks one folder more or leaves fewer visits waiting. */
  lemma VisitsKeepTheInvariant(tree: Tree, root: Identity, p: Progress)
    requires ValidTree(tree) && Invariant(tree, root, p) && p.stack != []
    ensures Invariant(tree, root, Visited(tree, p))
    ensures Visited(tree, p).walked == p.walked ==> |Visited(tree, p).stack| < |p.stack|
    ensures p.walked <= Visited(tree, p).walked
  {
    StackStaysPlaced(tree, root, p);
    FoundStayFound(tree, root, p);
    RefusedStayRefused(tree, root, p);
    MetStaysMet(tree, root, p, root);
    forall d | d in Visited(tree, p).walked
      ensures d in tree && Explored(tree, Visited(tree, p), d)
    {
      WalkedStayExplored(tree, root, p, d);
    }
    assert WellPlaced(tree, root, p.stack[|p.stack| - 1]);
  }

  // ------------------------------------------------------------------ what the walk finds

  /** With nothing left to visit, every folder a path leads to was walked, or refused where it cannot be listed. */
  lemma {:induction false} NothingReachableIsMissed(tree: Tree, root: Identity, p: Progress, path: Path, d: Identity)
    requires ValidTree(tree) && Invariant(tree, root, p) && p.stack == [] && LeadsTo(tree, root, path, d)
    ensures d in tree && if tree[d].readable then d in p.walked else d in p.refused
    decreases |path|
  {
    if path == [] {
      assert Met(p, root);
    } else {
      var parent := Resolved(tree, root, path[..|path| - 1]).value;
      NothingReachableIsMissed(tree, root, p, path[..|path| - 1], parent);
      assert Explored(tree, p, parent);
      var k := FollowedIsALink(tree[parent].subfolders, path[|path| - 1]);
      assert Met(p, tree[parent].subfolders[k].target);
    }
  }

  /** The module of the folder its path leads to. */
  function ModuleAt(tree: Tree, root: Identity, path: Path): Module {
    if path != [] && Resolved(tree, root, path[..|path| - 1]).Some?
    then Module(Resolved(tree, root, path[..|path| - 1]).value, path[|path| - 1])
    else Module(root, "")
  }

  /** No module is named by two of the paths, and each path names one. */
  ghost predicate EachModuleOnce(tree: Tree, root: Identity, paths: seq<Path>) {
    && (forall i :: 0 <= i < |paths| ==> Names(tree, root, paths[i], ModuleAt(tree, root, paths[i])))
    && (forall i, j :: 0 <= i < j < |paths| ==> ModuleAt(tree, root, paths[i]) != ModuleAt(tree, root, paths[j]))
  }

  ghost predicate NamedIn(tree: Tree, root: Identity, paths: seq<Path>, m: Module) {
    exists i :: 0 <= i < |paths| && Names(tree, root, paths[i], m)
  }

  /** Every module of every folder that some path of readable folders reaches. */
  ghost predicate NoModuleMissed(tree: Tree, root: Identity, paths: seq<Path>) {
    forall way: Path, m: Module :: LeadsTo(tree, root, way, m.folder) && InFolder(tree, m) ==>
      NamedIn(tree, root, paths, m)
  }

  ghost predicate Refuses(tree: Tree, root: Identity, path: Path) {
    var d := Resolved(tree, root, path);
    d.Some? && d.value in tree && !tree[d.value].readable
  }

  ghost predicate LedToIn(tree: Tree, root: Identity, paths: seq<Path>, d: Identity) {
    exists i :: 0 <= i < |paths| && LeadsTo(tree, root, paths[i], d)
  }

  /** Each path listed was refused, and every folder met that cannot be listed is among them. */
  ghost predicate RefusalsNamed(tree: Tree, root: Identity, unreadable: seq<Path>) {
    && (forall i :: 0 <= i < |unreadable| ==> Refuses(tree, root, unreadable[i]))
    && (forall way: Path :: Refuses(tree, root, way) ==>
      LedToIn(tree, root, unreadable, Resolved(tree, root, way).value))
  }

  lemma TheWalkFindsTheModules(tree: Tree, root: Identity, p: Progress)
    requires ValidTree(tree) && Invariant(tree, root, p) && p.stack == []
    ensures EachModuleOnce(tree, root, p.paths) && NoModuleMissed(tree, root, p.paths)
      && RefusalsNamed(tree, root, p.unreadable)
  {
    forall way: Path, m: Module | LeadsTo(tree, root, way, m.folder) && InFolder(tree, m)
      ensures NamedIn(tree, root, p.paths, m)
    {
      NothingReachableIsMissed(tree, root, p, way, m.folder);
      var k :| 0 <= k < |tree[m.folder].files| && IsFileOf(tree, m, k);
      assert Explored(tree, p, m.folder);
      assert m == Module(m.folder, tree[m.folder].files[k].name);
      assert m in p.found;
      var i :| 0 <= i < |p.found| && p.found[i] == m;
      assert Names(tree, root, p.paths[i], m);
    }
    forall i | 0 <= i < |p.unreadable|
      ensures Refuses(tree, root, p.unreadable[i])
    {
      assert LeadsTo(tree, root, p.unreadable[i], p.refused[i]);
    }
    forall way: Path | Refuses(tree, root, way)
      ensures LedToIn(tree, root, p.unreadable, Resolved(tree, root, way).value)
    {
      var d := Resolved(tree, root, way).value;
      NothingReachableIsMissed(tree, root, p, way, d);
      var i :| 0 <= i < |p.refused| && p.refused[i] == d;
      assert LeadsTo(tree, root, p.unreadable[i], d);
    }
    forall i | 0 <= i < |p.paths|
      ensures ModuleAt(tree, root, p.paths[i]) == p.found[i] && Names(tree, root, p.paths[i], p.found[i])
    {
      assert Names(tree, root, p.paths[i], p.found[i]);
    }
  }

  // ------------------------------------------------------------------ sorting keeps it

  lemma ReorderedKeepsTheModules(tree: Tree, root: Identity, paths: seq<Path>, sorted: seq<Path>)
    requires multiset(sorted) == multiset(paths) && EachModuleOnce(tree, root, paths)
      && NoModuleMissed(tree, root, paths)
    ensures EachModuleOnce(tree, root, sorted) && NoModuleMissed(tree, root, sorted)
  {
    forall i | 0 <= i < |sorted|
      ensures Names(tree, root, sorted[i], ModuleAt(tree, root, sorted[i]))
    {
      var k := PlaceIn(sorted, paths, i);
    }
    forall i, j | 0 <= i < j < |sorted|
      ensures ModuleAt(tree, root, sorted[i]) != ModuleAt(tree, root, sorted[j])
    {
      var a := PlaceIn(sorted, paths, i);
      var b := PlaceIn(sorted, paths, j);
      if a == b {
        MultiplicityOfAPair(sorted, i, j);
        DistinctOccursOnce(paths, paths[a]);
      }
    }
    forall way: Path, m: Module | LeadsTo(tree, root, way, m.folder) && InFolder(tree, m)
      ensures NamedIn(tree, root, sorted, m)
    {
      var i :| 0 <= i < |paths| && Names(tree, root, paths[i], m);
      var k := PlaceIn(paths, sorted, i);
      assert Names(tree, root, sorted[k], m);
    }
  }

  lemma ReorderedKeepsTheRefusals(tree: Tree, root: Identity, paths: seq<Path>, sorted: seq<Path>)
    requires multiset(sorted) == multiset(paths) && RefusalsNamed(tree, root, paths)
    ensures RefusalsNamed(tree, root, sorted)
  {
    forall i | 0 <= i < |sorted|
      ensures Refuses(tree, root, sorted[i])
    {
      var k := PlaceIn(sorted, paths, i);
    }
    forall way: Path | Refuses(tree, root, way)
      ensures LedToIn(tree, root, sorted, Resolved(tree, root, way).value)
    {
      var i :| 0 <= i < |paths| && LeadsTo(tree, root, paths[i], Resolved(tree, root, way).value);
      var k := PlaceIn(paths, sorted, i);
      assert LeadsTo(tree, root, sorted[k], Resolved(tree, root, way).value);
    }
  }

  lemma PlaceIn(from: seq<Path>, to: seq<Path>, i: nat) returns (k: nat)
    requires multiset(from) == multiset(to) && i < |from|
    ensures k < |to| && to[k] == from[i]
  {
    assert from[i] in multiset(to);
    k :| 0 <= k < |to| && to[k] == from[i];
  }

  // ------------------------------------------------------------------ discovering

  datatype Source = Unset | Missing | PlainFile | Directory(root: Identity)

  datatype Discovery = Discovery(paths: seq<Path>, unreadableDirectories: seq<Path>)

  datatype Result = Found(discovery: Discovery) | NotThere | NotADirectory

  method DiscoverModules(tree: Tree, source: Source, before: (Path, Path) -> bool) returns (result: Result)
    requires ValidTree(tree) && TotalPreorder(before) && (source.Directory? ==> source.root in tree)
    ensures source.Unset? ==> result == Found(Discovery([], []))
    ensures source.Missing? <==> result.NotThere?
    ensures source.PlainFile? <==> result.NotADirectory?
    ensures source.Directory? ==>
      && Sorted(before, result.discovery.paths) && Sorted(before, result.discovery.unreadableDirectories)
      && EachModuleOnce(tree, source.root, result.discovery.paths)
      && NoModuleMissed(tree, source.root, result.discovery.paths)
      && RefusalsNamed(tree, source.root, result.discovery.unreadableDirectories)
  {
    if source.Unset? { return Found(Discovery([], [])); }
    if source.Missing? { return NotThere; }
    if source.PlainFile? { return NotADirectory; }
    var root := source.root;
    var stack: seq<Visit> := [Visit([], root)];
    var walked: set<Identity> := {};
    var paths: seq<Path>, unreadable: seq<Path> := [], [];
    ghost var found: seq<Module>, refused: seq<Identity> := [], [];
    assert stack[0].folder == root;
    while stack != []
      invariant Invariant(tree, root, Progress(stack, walked, paths, found, unreadable, refused))
      decreases tree.Keys - walked, |stack|
    {
      ghost var p := Progress(stack, walked, paths, found, unreadable, refused);
      VisitsKeepTheInvariant(tree, root, p);
      var v := stack[|stack| - 1];
      assert WellPlaced(tree, root, p.stack[|stack| - 1]);
      stack := stack[..|stack| - 1];
      var folder := tree[v.folder];
      if !folder.readable {
        unreadable := unreadable + [v.path];
        refused := refused + [v.folder];
      } else if v.folder !in walked {
        walked := walked + {v.folder};
        paths := paths + PathsOf(v.path, folder.files);
        found := found + ModulesOf(v.folder, folder.files);
        stack := stack + Pushed(v.path, folder.subfolders);
      }
      assert Progress(stack, walked, paths, found, unreadable, refused) == Visited(tree, p);
      hide *;
    }
    TheWalkFindsTheModules(tree, root, Progress(stack, walked, paths, found, unreadable, refused));
    SortIsSorted(before, paths);
    SortIsSorted(before, unreadable);
    ReorderedKeepsTheModules(tree, root, paths, Sort(before, paths));
    ReorderedKeepsTheRefusals(tree, root, unreadable, Sort(before, unreadable));
    result := Found(Discovery(Sort(before, paths), Sort(before, unreadable)));
  }
}
