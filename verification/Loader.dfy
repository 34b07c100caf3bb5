/**
 Loading a Deployfile: the depth-first resolution of include lists, shared by the Deployfile and
 the stage file, and the configuration it merges.
 */
module Loader {
  import opened Common
  import opened Deployfile
  import opened Digraph

  type Path = string

  /** The readable files, parsed, by absolute path; resolve makes an include entry absolute. */
  datatype FileSystem = FileSystem(files: map<Path, Config>, resolve: (Path, string) -> Path) {
    function Includes(p: Path): (r: seq<Path>)
      ensures p in files ==> |r| == |files[p].includes|
    {
      if p in files then
        seq(|files[p].includes|, i requires 0 <= i < |files[p].includes| => resolve(p, files[p].includes[i]))
      else []
    }

    function IncludeGraph(): Graph {
      Graph(map p | p in files :: Includes(p))
    }
  }

  // ---- The search ----

  datatype Verdict = Circular(path: Path) | Unreadable(path: Path) | Skipped | Finished {
    predicate IsError() {
      Circular? || Unreadable?
    }
  }

  /** A depth-first visit: its verdict, the files it finished in order, and the files seen after it. */
  datatype Visit = Visit(verdict: Verdict, order: seq<Path>, seen: set<Path>)

  function Search(fs: FileSystem, p: Path, chain: seq<Path>, seen: set<Path>): (v: Visit)
    ensures seen <= v.seen
    decreases fs.files.Keys - seen, 1, 0
  {
    if p in chain then Visit(Circular(p), [], seen)
    else if p in seen then Visit(Skipped, [], seen)
    else if p !in fs.files then Visit(Unreadable(p), [], seen + {p})
    else
      assert p in fs.files.Keys - seen && p !in fs.files.Keys - (seen + {p});
      var all := SearchAll(fs, fs.Includes(p), chain + [p], seen + {p});
      if all.verdict.IsError() then all else Visit(Finished, all.order + [p], all.seen)
  }

  function SearchAll(fs: FileSystem, paths: seq<Path>, chain: seq<Path>, seen: set<Path>): (v: Visit)
    ensures seen <= v.seen
    ensures v.verdict.IsError() || v.verdict.Finished?
    decreases fs.files.Keys - seen, 2, |paths|
  {
    if paths == [] then Visit(Finished, [], seen)
    else
      var n := |paths| - 1;
      var init := SearchAll(fs, paths[..n], chain, seen);
      if init.verdict.IsError() then init
      else
        assert fs.files.Keys - init.seen <= fs.files.Keys - seen;
        var last := Search(fs, paths[n], chain, init.seen);
        if last.verdict.IsError() then Visit(last.verdict, [], last.seen)
        else Visit(Finished, init.order + last.order, last.seen)
  }

  lemma SearchAllNext(fs: FileSystem, paths: seq<Path>, i: nat, chain: seq<Path>, seen: set<Path>)
    requires i < |paths| && SearchAll(fs, paths[..i], chain, seen).verdict.Finished?
    ensures var init := SearchAll(fs, paths[..i], chain, seen);
            var last := Search(fs, paths[i], chain, init.seen);
            SearchAll(fs, paths[..i + 1], chain, seen) ==
            if last.verdict.IsError() then Visit(last.verdict, [], last.seen)
            else Visit(Finished, init.order + last.order, last.seen)
  {
    var upTo := paths[..i + 1];
    assert upTo[..|upTo| - 1] == paths[..i] && upTo[|upTo| - 1] == paths[i];
  }

  /** An error among the first includes is the error of the whole list. */
  lemma {:induction false} SearchAllStops(fs: FileSystem, paths: seq<Path>, i: nat, chain: seq<Path>, seen: set<Path>)
    requires i <= |paths| && SearchAll(fs, paths[..i], chain, seen).verdict.IsError()
    ensures SearchAll(fs, paths, chain, seen).verdict == SearchAll(fs, paths[..i], chain, seen).verdict
    ensures SearchAll(fs, paths, chain, seen).seen == SearchAll(fs, paths[..i], chain, seen).seen
    decreases |paths|
  {
    if i == |paths| {
      assert paths[..i] == paths;
    } else {
      var init := paths[..|paths| - 1];
      assert init[..i] == paths[..i];
      SearchAllStops(fs, init, i, chain, seen);
    }
  }

  // ---- The imperative resolution and what it merges ----

  function Configs(fs: FileSystem, order: seq<Path>): (r: seq<Config>)
    ensures |r| == |order|
  {
    if order == [] then []
    else
      var p := order[|order| - 1];
      Configs(fs, order[..|order| - 1]) + [if p in fs.files then fs.files[p] else EMPTY]
  }

  /** One left fold of Merge over the files in the given order. */
  function Flat(fs: FileSystem, order: seq<Path>): Config {
    MergeAll(EMPTY, Configs(fs, order))
  }

  lemma {:induction false} ConfigsAppend(fs: FileSystem, a: seq<Path>, b: seq<Path>)
    ensures Configs(fs, a + b) == Configs(fs, a) + Configs(fs, b)
    decreases |b|
  {
    if b == [] {
      assert a + b == a;
    } else {
      assert (a + b)[..|a + b| - 1] == a + b[..|b| - 1];
      ConfigsAppend(fs, a, b[..|b| - 1]);
    }
  }

  /** The merge of two folds is the fold over both lists. */
  lemma FlatMerge(fs: FileSystem, a: seq<Path>, b: seq<Path>)
    ensures Merge(Flat(fs, a), Flat(fs, b)) == Flat(fs, a + b)
  {
    ConfigsAppend(fs, a, b);
    MergeAllAppend(EMPTY, Configs(fs, a), Configs(fs, b));
    MergeNested(Flat(fs, a), Configs(fs, b));
  }

  lemma FlatOne(fs: FileSystem, p: Path)
    requires p in fs.files
    ensures Flat(fs, [p]) == fs.files[p].(includes := [])
  {
    assert Configs(fs, [p]) == [fs.files[p]];
    assert MergeAll(EMPTY, [fs.files[p]]) == MergeAll(Merge(EMPTY, fs.files[p]), []);
    MergeEmptyLeft(fs.files[p]);
  }

  lemma {:induction false} FoldKeepsIncludes(base: Config, cfgs: seq<Config>)
    ensures MergeAll(base, cfgs).includes == base.includes
    decreases |cfgs|
  {
    if cfgs != [] {
      FoldKeepsIncludes(Merge(base, cfgs[0]), cfgs[1..]);
    }
  }

  /** The declaring file on top of its includes; no include list is left over. */
  lemma FlatDeclaring(fs: FileSystem, order: seq<Path>, p: Path)
    requires p in fs.files
    ensures Merge(Flat(fs, order), fs.files[p]).(includes := []) == Flat(fs, order + [p])
  {
    ConfigsAppend(fs, order, [p]);
    assert Configs(fs, [p]) == [fs.files[p]];
    MergeAllAppend(EMPTY, Configs(fs, order), [fs.files[p]]);
    var m := Merge(Flat(fs, order), fs.files[p]);
    assert MergeAll(Flat(fs, order), [fs.files[p]]) == MergeAll(m, []);
    FoldKeepsIncludes(EMPTY, Configs(fs, order));
  }

  /** Nothing is the source's nil configuration: the file was merged earlier. */
  datatype Resolution = Failed(verdict: Verdict) | Nothing | Resolved(cfg: Config)

  /** The resolution is the search's verdict, with the flat merge of the files it finished. */
  predicate Matches(fs: FileSystem, r: Resolution, v: Visit) {
    match r
    case Failed(verdict) => verdict.IsError() && v.verdict == verdict
    case Nothing => v.verdict.Skipped?
    case Resolved(cfg) => v.verdict.Finished? && cfg == Flat(fs, v.order)
  }

  class Resolver {
    const fs: FileSystem
    var seen: set<Path>

    constructor (fs: FileSystem)
      ensures this.fs == fs && seen == {}
    {
      this.fs, seen := fs, {};
    }

    method ResolveIncludes(path: Path, chain: seq<Path>) returns (r: Resolution)
      modifies this
      ensures Matches(fs, r, Search(fs, path, chain, old(seen)))
      ensures seen == Search(fs, path, chain, old(seen)).seen
      decreases fs.files.Keys - seen, 1
    {
      if path in chain {
        return Failed(Circular(path));
      }
      if path in seen {
        return Nothing;
      }
      seen := seen + {path};
      if path !in fs.files {
        return Failed(Unreadable(path));
      }
      var self := fs.files[path];
      if |self.includes| == 0 {
        FlatOne(fs, path);
        assert fs.Includes(path) == [] && [] + [path] == [path];
        return Resolved(self);
      }
      assert path in fs.files.Keys - old(seen) && path !in fs.files.Keys - seen;
      r := ResolveList(path, self, chain + [path]);
      if r.Resolved? {
        FlatDeclaring(fs, SearchAll(fs, fs.Includes(path), chain + [path], old(seen) + {path}).order, path);
        r := Resolved(Merge(r.cfg, self).(includes := []));
      }
    }

    /** The includes of one file, merged in listed order. */
    method ResolveList(path: Path, self: Config, chain: seq<Path>) returns (r: Resolution)
      requires path in fs.files && self == fs.files[path]
      modifies this
      ensures r.Failed? || r.Resolved?
      ensures Matches(fs, r, SearchAll(fs, fs.Includes(path), chain, old(seen)))
      ensures seen == SearchAll(fs, fs.Includes(path), chain, old(seen)).seen
      decreases fs.files.Keys - seen, 2
    {
      var merged := EMPTY;
      ghost var paths := fs.Includes(path);
      ghost var done := SearchAll(fs, paths[..0], chain, seen);
      assert Configs(fs, []) == [];
      for i := 0 to |self.includes|
        invariant done == SearchAll(fs, paths[..i], chain, old(seen))
        invariant done.verdict.Finished? && done.seen == seen && old(seen) <= seen
        invariant merged == Flat(fs, done.order)
      {
        SearchAllNext(fs, paths, i, chain, old(seen));
        assert fs.files.Keys - seen <= fs.files.Keys - old(seen);
        ghost var last := Search(fs, paths[i], chain, seen);
        var inc := ResolveIncludes(fs.resolve(path, self.includes[i]), chain);
        if inc.Failed? {
          SearchAllStops(fs, paths, i + 1, chain, old(seen));
          return inc;
        }
        if inc.Resolved? {
          FlatMerge(fs, done.order, last.order);
          merged := Merge(merged, inc.cfg);
        } else {
          assert done.order + [] == done.order;
        }
        done := SearchAll(fs, paths[..i + 1], chain, old(seen));
      }
      assert paths[..|paths|] == paths;
      r := Resolved(merged);
    }
  }

  // ---- Depth-first search ----

  /** Every file's includes come before it, and no file comes twice. */
  ghost predicate Topological(g: Graph, ord: seq<string>) {
    ord == [] ||
    (var n := |ord| - 1;
     && Topological(g, ord[..n])
     && ord[n] !in ord[..n]
     && forall m :: m in g.Succ(ord[n]) ==> m in ord[..n])
  }

  lemma {:induction false} TopologicalDistinct(g: Graph, ord: seq<string>)
    requires Topological(g, ord)
    ensures NoDuplicates(ord)
  {
    if ord != [] {
      TopologicalDistinct(g, ord[..|ord| - 1]);
    }
  }

  /** A walk from within a topological order never leaves it and never returns to a node. */
  lemma {:induction false} WalkStaysWithin(g: Graph, ord: seq<string>, w: seq<string>)
    requires Topological(g, ord) && IsWalk(g, w) && w[0] in ord
    ensures NoDuplicates(w) && forall x :: x in w ==> x in ord
    decreases |ord|
  {
    var init, last := ord[..|ord| - 1], ord[|ord| - 1];
    if w[0] != last {
      WalkStaysWithin(g, init, w);
    } else if |w| > 1 {
      WalkTail(g, w);
      WalkStaysWithin(g, init, w[1..]);
      assert w == [w[0]] + w[1..];
    }
  }

  /** The state of a search: ord lists the finished files, chain the unfinished ones. */
  ghost predicate Searching(fs: FileSystem, ord: seq<Path>, chain: seq<Path>, seen: set<Path>) {
    && Topological(fs.IncludeGraph(), ord)
    && (forall x :: x in ord ==> x in seen && x !in chain && x in fs.files)
    && (forall x :: x in seen ==> x in ord || x in chain)
    && (forall x :: x in chain ==> x in seen)
  }

  lemma GraphSucc(fs: FileSystem, p: Path)
    ensures fs.IncludeGraph().Succ(p) == fs.Includes(p)
  {
  }

  /** A visit without error finishes its file and everything it includes, each once. */
  lemma {:induction false} VisitFinishes(fs: FileSystem, p: Path, chain: seq<Path>, seen: set<Path>, ord: seq<Path>)
    requires Searching(fs, ord, chain, seen)
    requires !Search(fs, p, chain, seen).verdict.IsError()
    ensures Extended(fs, [p], chain, ord, Search(fs, p, chain, seen))
    decreases fs.files.Keys - seen, 1, 0
  {
    if p in seen {
      assert ord + [] == ord;
    } else {
      EnterFile(fs, ord, chain, p, seen);
      assert p in fs.files.Keys - seen && p !in fs.files.Keys - (seen + {p});
      VisitAllFinishes(fs, fs.Includes(p), chain + [p], seen + {p}, ord);
      FinishFile(fs, ord, chain, p, SearchAll(fs, fs.Includes(p), chain + [p], seen + {p}));
    }
  }

  /** The search is where it was, with ord extended by the visit, and the given paths are finished. */
  ghost predicate Extended(fs: FileSystem, paths: seq<Path>, chain: seq<Path>, ord: seq<Path>, v: Visit) {
    Searching(fs, ord + v.order, chain, v.seen) && forall i :: 0 <= i < |paths| ==> paths[i] in ord + v.order
  }

  lemma EnterFile(fs: FileSystem, ord: seq<Path>, chain: seq<Path>, p: Path, seen: set<Path>)
    requires Searching(fs, ord, chain, seen) && p !in seen
    ensures Searching(fs, ord, chain + [p], seen + {p})
  {
  }

  lemma FinishFile(fs: FileSystem, ord: seq<Path>, chain: seq<Path>, p: Path, all: Visit)
    requires Extended(fs, fs.Includes(p), chain + [p], ord, all)
    requires p in fs.files && p !in chain
    ensures Extended(fs, [p], chain, ord, Visit(Finished, all.order + [p], all.seen))
  {
    var done := ord + all.order;
    var now := done + [p];
    assert ord + (all.order + [p]) == now;
    GraphSucc(fs, p);
    assert now[..|now| - 1] == done;
    assert p in chain + [p];
  }

  lemma {:induction false} VisitAllFinishes(fs: FileSystem, paths: seq<Path>, chain: seq<Path>, seen: set<Path>,
                                            ord: seq<Path>)
    requires Searching(fs, ord, chain, seen)
    requires !SearchAll(fs, paths, chain, seen).verdict.IsError()
    ensures Extended(fs, paths, chain, ord, SearchAll(fs, paths, chain, seen))
    decreases fs.files.Keys - seen, 2, |paths|
  {
    if paths == [] {
      assert ord + [] == ord;
    } else {
      var n := |paths| - 1;
      var init := SearchAll(fs, paths[..n], chain, seen);
      VisitAllFinishes(fs, paths[..n], chain, seen, ord);
      assert fs.files.Keys - init.seen <= fs.files.Keys - seen;
      VisitFinishes(fs, paths[n], chain, init.seen, ord + init.order);
      FinishList(fs, paths, chain, ord, init, Search(fs, paths[n], chain, init.seen));
    }
  }

  lemma FinishList(fs: FileSystem, paths: seq<Path>, chain: seq<Path>, ord: seq<Path>, init: Visit, last: Visit)
    requires paths != []
    requires Extended(fs, paths[..|paths| - 1], chain, ord, init)
    requires Extended(fs, [paths[|paths| - 1]], chain, ord + init.order, last)
    ensures Extended(fs, paths, chain, ord, Visit(Finished, init.order + last.order, last.seen))
  {
    Regroup(ord, init.order, last.order);
    var only := [paths[|paths| - 1]];
    assert only[0] in ord + init.order + last.order;
    EarlierFinished(paths[..|paths| - 1], only[0], ord + init.order, last.order);
    assert paths == paths[..|paths| - 1] + only;
  }

  lemma EarlierFinished(paths: seq<Path>, last: Path, done: seq<Path>, more: seq<Path>)
    requires forall i :: 0 <= i < |paths| ==> paths[i] in done
    requires last in done + more
    ensures forall i :: 0 <= i < |paths + [last]| ==> (paths + [last])[i] in done + more
  {
  }

  /**
   Everything a search merges is reachable from its root, and an error has a reason: a walk from the
   root that closes a cycle or ends at an unreadable file. chain is the walk that led to p.
   */
  lemma {:induction false} VisitIsGrounded(fs: FileSystem, root: Path, p: Path, chain: seq<Path>, seen: set<Path>)
    requires chain == [] ==> root == p
    requires chain != [] ==>
               IsWalkFrom(fs.IncludeGraph(), root, chain) && p in fs.IncludeGraph().Succ(chain[|chain| - 1])
    ensures Grounded(fs, root, Search(fs, p, chain, seen))
    decreases fs.files.Keys - seen, 1, 0
  {
    var g, w := fs.IncludeGraph(), chain + [p];
    WalkExtend(g, chain, p);
    assert IsWalkFrom(g, root, w) && w[|w| - 1] == p;
    if p in chain {
      var i :| 0 <= i < |chain| && chain[i] == p;
      assert w[i] == w[|chain|];
    } else if p !in seen && p in fs.files {
      assert p in fs.files.Keys - seen && p !in fs.files.Keys - (seen + {p});
      GraphSucc(fs, p);
      VisitAllIsGrounded(fs, root, fs.Includes(p), w, seen + {p});
    }
  }

  ghost predicate Grounded(fs: FileSystem, root: Path, v: Visit) {
    && (v.verdict.Circular? ==> CycleFrom(fs.IncludeGraph(), root))
    && (v.verdict.Unreadable? ==> v.verdict.path !in fs.files && Reachable(fs.IncludeGraph(), root, v.verdict.path))
    && forall q :: q in v.order ==> Reachable(fs.IncludeGraph(), root, q)
  }

  lemma {:induction false} VisitAllIsGrounded(fs: FileSystem, root: Path, paths: seq<Path>, chain: seq<Path>,
                                              seen: set<Path>)
    requires chain != [] && IsWalkFrom(fs.IncludeGraph(), root, chain)
    requires forall i :: 0 <= i < |paths| ==> paths[i] in fs.IncludeGraph().Succ(chain[|chain| - 1])
    ensures Grounded(fs, root, SearchAll(fs, paths, chain, seen))
    decreases fs.files.Keys - seen, 2, |paths|
  {
    if paths != [] {
      var n := |paths| - 1;
      var init := SearchAll(fs, paths[..n], chain, seen);
      VisitAllIsGrounded(fs, root, paths[..n], chain, seen);
      assert fs.files.Keys - init.seen <= fs.files.Keys - seen;
      VisitIsGrounded(fs, root, paths[n], chain, init.seen);
    }
  }

  // ---- Load ----

  /** Both resolutions of a load share one seen set. */
  function BaseVisit(fs: FileSystem, base: Path): Visit {
    Search(fs, base, [], {})
  }

  function StageVisit(fs: FileSystem, base: Path, stage: Path): Visit {
    Search(fs, stage, [], BaseVisit(fs, base).seen)
  }

  /** All files of a successful load, in the order in which they are merged. */
  function LoadOrder(fs: FileSystem, base: Path, stage: Path): seq<Path> {
    BaseVisit(fs, base).order + StageVisit(fs, base, stage).order
  }

  datatype LoadError = InFile(verdict: Verdict) | NoSuchStage

  datatype Loaded = Loaded(cfg: Config) | LoadFailed(error: LoadError)

  /** stage is None if no stage file exists. Defaults, env files and validation come after this. */
  method Load(fs: FileSystem, base: Path, stage: Option<Path>) returns (r: Loaded)
    ensures BaseVisit(fs, base).verdict.IsError() ==> r == LoadFailed(InFile(BaseVisit(fs, base).verdict))
    ensures !BaseVisit(fs, base).verdict.IsError() && stage.None? ==> r == LoadFailed(NoSuchStage)
    ensures !BaseVisit(fs, base).verdict.IsError() && stage.Some? ==>
              var v := StageVisit(fs, base, stage.value);
              r == if v.verdict.IsError() then LoadFailed(InFile(v.verdict))
                   else Loaded(Flat(fs, LoadOrder(fs, base, stage.value)))
  {
    var resolver := new Resolver(fs);
    var b := resolver.ResolveIncludes(base, []);
    if b.Failed? {
      return LoadFailed(InFile(b.verdict));
    }
    if stage.None? {
      return LoadFailed(NoSuchStage);
    }
    var s := resolver.ResolveIncludes(stage.value, []);
    if s.Failed? {
      return LoadFailed(InFile(s.verdict));
    }
    var stageCfg := if s.Nothing? then EMPTY else s.cfg;
    StageOnTop(fs, BaseVisit(fs, base).order, s, stageCfg, StageVisit(fs, base, stage.value));
    r := Loaded(Merge(b.cfg, stageCfg));
  }

  lemma StageOnTop(fs: FileSystem, order: seq<Path>, s: Resolution, cfg: Config, v: Visit)
    requires Matches(fs, s, v) && !s.Failed? && (v.verdict.Skipped? ==> v.order == [])
    requires cfg == if s.Nothing? then EMPTY else s.cfg
    ensures Merge(Flat(fs, order), cfg) == Flat(fs, order + v.order)
  {
    assert Flat(fs, []) == EMPTY;
    FlatMerge(fs, order, v.order);
  }

  /** Discovery is best-effort about the stage, but shows what an actual load would use. */
  method TasksForStage(fs: FileSystem, base: Path, stage: Option<Path>) returns (r: Option<map<string, Option<Task>>>)
    ensures r.None? <==> BaseVisit(fs, base).verdict.IsError()
    ensures r.Some? && stage.Some? && !StageVisit(fs, base, stage.value).verdict.IsError() ==>
              r.value == Flat(fs, LoadOrder(fs, base, stage.value)).tasks
    ensures r.Some? && (stage.None? || StageVisit(fs, base, stage.value).verdict.IsError()) ==>
              r.value == Flat(fs, BaseVisit(fs, base).order).tasks
  {
    var resolver := new Resolver(fs);
    var b := resolver.ResolveIncludes(base, []);
    if b.Failed? {
      return None;
    }
    var cfg := b.cfg;
    if stage.Some? {
      var s := resolver.ResolveIncludes(stage.value, []);
      if s.Resolved? {
        FlatMerge(fs, BaseVisit(fs, base).order, StageVisit(fs, base, stage.value).order);
        cfg := Merge(b.cfg, s.cfg);
      } else if s.Nothing? {
        var order := BaseVisit(fs, base).order;
        assert order + [] == order;
      }
    }
    r := Some(cfg.tasks);
  }

  /** The base resolution followed by the stage resolution is one search. */
  lemma LoadSearches(fs: FileSystem, base: Path, stage: Path)
    requires !BaseVisit(fs, base).verdict.IsError() && !StageVisit(fs, base, stage).verdict.IsError()
    ensures Searching(fs, LoadOrder(fs, base, stage), [], StageVisit(fs, base, stage).seen)
    ensures base in LoadOrder(fs, base, stage) && stage in LoadOrder(fs, base, stage)
  {
    var b := BaseVisit(fs, base);
    VisitFinishes(fs, base, [], {}, []);
    assert [] + b.order == b.order && [base][0] in b.order;
    VisitFinishes(fs, stage, [], b.seen, b.order);
    assert [stage][0] in b.order + StageVisit(fs, base, stage).order;
  }

  ghost predicate AllReadable(fs: FileSystem, root: Path) {
    forall q :: Reachable(fs.IncludeGraph(), root, q) ==> q in fs.files
  }

  ghost predicate WellFounded(fs: FileSystem, root: Path) {
    AllReadable(fs, root) && !CycleFrom(fs.IncludeGraph(), root)
  }

  lemma WithinOrder(fs: FileSystem, ord: seq<Path>, seen: set<Path>, root: Path)
    requires Searching(fs, ord, [], seen) && root in ord
    ensures WellFounded(fs, root)
    ensures forall q :: Reachable(fs.IncludeGraph(), root, q) ==> q in ord
  {
    var g := fs.IncludeGraph();
    forall w | IsWalkFrom(g, root, w)
      ensures NoDuplicates(w) && w[|w| - 1] in ord
    {
      WalkStaysWithin(g, ord, w);
    }
  }

  /** A load gets past its includes exactly if every file it reaches can be read and none includes itself. */
  lemma LoadSucceedsIff(fs: FileSystem, base: Path, stage: Path)
    ensures !BaseVisit(fs, base).verdict.IsError() && !StageVisit(fs, base, stage).verdict.IsError() <==>
            WellFounded(fs, base) && WellFounded(fs, stage)
  {
    VisitIsGrounded(fs, base, base, [], {});
    VisitIsGrounded(fs, stage, stage, [], BaseVisit(fs, base).seen);
    if !BaseVisit(fs, base).verdict.IsError() && !StageVisit(fs, base, stage).verdict.IsError() {
      LoadSearches(fs, base, stage);
      WithinOrder(fs, LoadOrder(fs, base, stage), StageVisit(fs, base, stage).seen, base);
      WithinOrder(fs, LoadOrder(fs, base, stage), StageVisit(fs, base, stage).seen, stage);
    }
  }

  /** With all files readable, the circular-include error is reported exactly if there is a cycle to reach. */
  lemma CircularIff(fs: FileSystem, base: Path, stage: Path)
    requires AllReadable(fs, base) && AllReadable(fs, stage)
    ensures BaseVisit(fs, base).verdict.Circular? ||
            (!BaseVisit(fs, base).verdict.IsError() && StageVisit(fs, base, stage).verdict.Circular?) <==>
            CycleFrom(fs.IncludeGraph(), base) || CycleFrom(fs.IncludeGraph(), stage)
  {
    VisitIsGrounded(fs, base, base, [], {});
    VisitIsGrounded(fs, stage, stage, [], BaseVisit(fs, base).seen);
    LoadSucceedsIff(fs, base, stage);
  }

  /** A successful load merges every file it can reach, and each exactly once. */
  lemma EachFileOnce(fs: FileSystem, base: Path, stage: Path)
    requires !BaseVisit(fs, base).verdict.IsError() && !StageVisit(fs, base, stage).verdict.IsError()
    ensures NoDuplicates(LoadOrder(fs, base, stage))
    ensures forall q :: q in LoadOrder(fs, base, stage) <==>
              Reachable(fs.IncludeGraph(), base, q) || Reachable(fs.IncludeGraph(), stage, q)
    ensures forall q :: q in LoadOrder(fs, base, stage) ==> q in fs.files
  {
    LoadSearches(fs, base, stage);
    TopologicalDistinct(fs.IncludeGraph(), LoadOrder(fs, base, stage));
    WithinOrder(fs, LoadOrder(fs, base, stage), StageVisit(fs, base, stage).seen, base);
    WithinOrder(fs, LoadOrder(fs, base, stage), StageVisit(fs, base, stage).seen, stage);
    VisitIsGrounded(fs, base, base, [], {});
    VisitIsGrounded(fs, stage, stage, [], BaseVisit(fs, base).seen);
  }

  // ---- The order among the files ----

  /** The includes of a file are the entries of its list in order, each resolved against the file. */
  lemma IncludesAre(fs: FileSystem, p: Path)
    requires p in fs.files
    ensures |fs.Includes(p)| == |fs.files[p].includes|
    ensures forall i :: 0 <= i < |fs.files[p].includes| ==> fs.Includes(p)[i] == fs.resolve(p, fs.files[p].includes[i])
  {
  }

  /** So a file leads to exactly what its include list names. */
  lemma EdgesAreIncludes(fs: FileSystem, p: Path, q: Path)
    ensures q in fs.IncludeGraph().Succ(p) <==>
            p in fs.files && exists i :: 0 <= i < |fs.files[p].includes| && q == fs.resolve(p, fs.files[p].includes[i])
  {
    GraphSucc(fs, p);
    if p in fs.files {
      IncludesAre(fs, p);
    }
    var r := fs.Includes(p);
    if i :| 0 <= i < |r| && r[i] == q {
      assert q == fs.resolve(p, fs.files[p].includes[i]);
    }
    if p in fs.files {
      if i :| 0 <= i < |fs.files[p].includes| && q == fs.resolve(p, fs.files[p].includes[i]) {
        assert r[i] == q;
      }
    }
  }

  /** A visit finishes only what its file leads to. */
  lemma {:induction false} FinishesReachable(fs: FileSystem, p: Path, chain: seq<Path>, seen: set<Path>, q: Path)
    requires q in Search(fs, p, chain, seen).order
    ensures Reachable(fs.IncludeGraph(), p, q)
    decreases fs.files.Keys - seen, 1, 0
  {
    var g := fs.IncludeGraph();
    if p !in chain && p !in seen && p in fs.files {
      assert p in fs.files.Keys - seen && p !in fs.files.Keys - (seen + {p});
      var all := SearchAll(fs, fs.Includes(p), chain + [p], seen + {p});
      if q in all.order {
        AllFinishReachable(fs, fs.Includes(p), chain + [p], seen + {p}, q);
        var k :| 0 <= k < |fs.Includes(p)| && Reachable(g, fs.Includes(p)[k], q);
        GraphSucc(fs, p);
        ReachableVia(g, p, fs.Includes(p)[k], q);
      } else {
        ReachableSelf(g, p);
      }
    }
  }

  lemma {:induction false} AllFinishReachable(fs: FileSystem, paths: seq<Path>, chain: seq<Path>, seen: set<Path>,
                                              q: Path)
    ensures q in SearchAll(fs, paths, chain, seen).order ==>
              exists k :: 0 <= k < |paths| && Reachable(fs.IncludeGraph(), paths[k], q)
    decreases fs.files.Keys - seen, 2, |paths|
  {
    if paths != [] {
      var n := |paths| - 1;
      var init := SearchAll(fs, paths[..n], chain, seen);
      AllFinishReachable(fs, paths[..n], chain, seen, q);
      assert fs.files.Keys - init.seen <= fs.files.Keys - seen;
      if q in Search(fs, paths[n], chain, init.seen).order {
        FinishesReachable(fs, paths[n], chain, init.seen, q);
      }
    }
  }

  /** What the first includes finish comes first. */
  lemma {:induction false} FirstIncludesFirst(fs: FileSystem, paths: seq<Path>, i: nat, chain: seq<Path>,
                                              seen: set<Path>)
    requires i <= |paths| && !SearchAll(fs, paths, chain, seen).verdict.IsError()
    ensures !SearchAll(fs, paths[..i], chain, seen).verdict.IsError()
    ensures SearchAll(fs, paths[..i], chain, seen).order <= SearchAll(fs, paths, chain, seen).order
    decreases |paths|
  {
    if i == |paths| {
      assert paths[..i] == paths;
    } else {
      var init := paths[..|paths| - 1];
      assert init[..i] == paths[..i];
      FirstIncludesFirst(fs, init, i, chain, seen);
    }
  }

  /** After a list of includes everything they lead to is finished. */
  lemma LeadsToFinished(fs: FileSystem, paths: seq<Path>, chain: seq<Path>, seen: set<Path>, ord: seq<Path>, i: nat,
                        x: Path)
    requires Searching(fs, ord, chain, seen) && !SearchAll(fs, paths, chain, seen).verdict.IsError()
    requires i < |paths| && Reachable(fs.IncludeGraph(), paths[i], x) && x !in ord
    ensures x in SearchAll(fs, paths, chain, seen).order
  {
    var v := SearchAll(fs, paths, chain, seen);
    VisitAllFinishes(fs, paths, chain, seen, ord);
    var w :| IsWalkFrom(fs.IncludeGraph(), paths[i], w) && w[|w| - 1] == x;
    WalkStaysWithin(fs.IncludeGraph(), ord + v.order, w);
    assert x in w;
  }

  ghost predicate ComesFirst(order: seq<Path>, x: Path, y: Path) {
    exists a, b :: 0 <= a < b < |order| && order[a] == x && order[b] == y
  }

  lemma InPrefix(short: seq<Path>, longer: seq<Path>, x: Path, y: Path)
    requires short <= longer && x in short && y in longer && y !in short
    ensures ComesFirst(longer, x, y)
  {
    var a :| 0 <= a < |short| && short[a] == x;
    var b :| 0 <= b < |longer| && longer[b] == y;
    assert forall c :: 0 <= c < |short| ==> longer[c] == short[c];
    assert longer[a] == x;
  }

  lemma NotBoth(order: seq<Path>, x: Path, y: Path)
    requires NoDuplicates(order) && ComesFirst(order, x, y)
    ensures !ComesFirst(order, y, x)
  {
  }

  /** One of the first j includes of p leads to q. */
  ghost predicate FromEarlier(fs: FileSystem, p: Path, j: nat, q: Path) {
    exists i :: 0 <= i < j && i < |fs.Includes(p)| && Reachable(fs.IncludeGraph(), fs.Includes(p)[i], q)
  }

  lemma NotFinishedEarly(fs: FileSystem, p: Path, j: nat, chain: seq<Path>, seen: set<Path>, y: Path)
    requires j <= |fs.Includes(p)| && !FromEarlier(fs, p, j, y)
    ensures y !in SearchAll(fs, fs.Includes(p)[..j], chain, seen).order
  {
    var paths := fs.Includes(p)[..j];
    assert forall k :: 0 <= k < j ==> paths[k] == fs.Includes(p)[k];
    AllFinishReachable(fs, paths, chain, seen, y);
  }

  /**
   Among the includes of a file: whatever an include leads to is merged before whatever only later includes lead to,
   and the file itself comes last. What was merged before the visit plays no part.
   */
  lemma SiblingsInOrder(fs: FileSystem, p: Path, chain: seq<Path>, seen: set<Path>, ord: seq<Path>,
                        j: nat, x: Path, y: Path)
    requires Searching(fs, ord, chain, seen) && p in fs.files && p !in seen
    requires !Search(fs, p, chain, seen).verdict.IsError()
    requires j <= |fs.Includes(p)| && x !in ord && y !in ord
    requires FromEarlier(fs, p, j, x)
    requires FromEarlier(fs, p, |fs.Includes(p)|, y) && !FromEarlier(fs, p, j, y)
    ensures ComesFirst(Search(fs, p, chain, seen).order, x, y)
    ensures Search(fs, p, chain, seen).order[|Search(fs, p, chain, seen).order| - 1] == p
  {
    var paths, all := fs.Includes(p), SearchAll(fs, fs.Includes(p), chain + [p], seen + {p});
    var early := SearchAll(fs, paths[..j], chain + [p], seen + {p});
    EnterFile(fs, ord, chain, p, seen);
    FirstIncludesFirst(fs, paths, j, chain + [p], seen + {p});
    var i :| 0 <= i < j && i < |paths| && Reachable(fs.IncludeGraph(), paths[i], x);
    assert paths[..j][i] == paths[i];
    LeadsToFinished(fs, paths[..j], chain + [p], seen + {p}, ord, i, x);
    var m :| 0 <= m < |paths| && Reachable(fs.IncludeGraph(), paths[m], y);
    LeadsToFinished(fs, paths, chain + [p], seen + {p}, ord, m, y);
    NotFinishedEarly(fs, p, j, chain + [p], seen + {p}, y);
    assert early.order <= all.order + [p];
    InPrefix(early.order, all.order + [p], x, y);
  }

  /** What the Deployfile leads to is merged before what only the stage file leads to. */
  lemma BaseBeforeStage(fs: FileSystem, base: Path, stage: Path, x: Path, y: Path)
    requires !BaseVisit(fs, base).verdict.IsError() && !StageVisit(fs, base, stage).verdict.IsError()
    requires Reachable(fs.IncludeGraph(), base, x)
    requires Reachable(fs.IncludeGraph(), stage, y) && !Reachable(fs.IncludeGraph(), base, y)
    ensures ComesFirst(LoadOrder(fs, base, stage), x, y)
  {
    var b := BaseVisit(fs, base);
    VisitFinishes(fs, base, [], {}, []);
    assert [] + b.order == b.order && [base][0] in b.order;
    WithinOrder(fs, b.order, b.seen, base);
    EachFileOnce(fs, base, stage);
    if y in b.order {
      FinishesReachable(fs, base, [], {}, y);
    }
    InPrefix(b.order, LoadOrder(fs, base, stage), x, y);
  }

  lemma {:induction false} ConfigsAt(fs: FileSystem, order: seq<Path>, i: nat)
    requires i < |order| && order[i] in fs.files
    ensures Configs(fs, order)[i] == fs.files[order[i]]
    decreases |order|
  {
    if i < |order| - 1 {
      ConfigsAt(fs, order[..|order| - 1], i);
    }
  }

  lemma {:induction false} LastSetIs<T(!new)>(cfgs: seq<Config>, get: Config -> T, unset: T, m: nat)
    requires m < |cfgs| && get(cfgs[m]) != unset
    requires forall n :: m < n < |cfgs| ==> get(cfgs[n]) == unset
    ensures LastSet(cfgs, get, unset) == get(cfgs[m])
    decreases |cfgs|
  {
    if m < |cfgs| - 1 {
      LastSetIs(cfgs[..|cfgs| - 1], get, unset, m);
    }
  }

  ghost predicate Sets<T(!new)>(fs: FileSystem, q: Path, get: Config -> T, unset: T) {
    q in fs.files && get(fs.files[q]) != unset
  }

  /** If no file that sets a layered field comes after b, which sets it, its value is b's. */
  lemma LastOneWins<T(!new)>(fs: FileSystem, order: seq<Path>, get: Config -> T, unset: T, b: Path)
    requires Layered(get, unset) && b in order && Sets(fs, b, get, unset)
    requires forall q :: q in order ==> q in fs.files
    requires forall q :: q in order && Sets(fs, q, get, unset) ==> !ComesFirst(order, b, q)
    ensures get(Flat(fs, order)) == get(fs.files[b])
  {
    var cfgs := Configs(fs, order);
    var m :| 0 <= m < |order| && order[m] == b;
    ConfigsAt(fs, order, m);
    forall n | m < n < |cfgs|
      ensures get(cfgs[n]) == unset
    {
      ConfigsAt(fs, order, n);
      assert order[n] in order && ComesFirst(order, b, order[n]);
    }
    LastSetIs(cfgs, get, unset, m);
    FieldFromLastFile(cfgs, get, unset);
  }

  /** Of the Deployfile's includes, a later one wins over everything the earlier ones lead to. */
  lemma LaterIncludeWins<T(!new)>(fs: FileSystem, base: Path, get: Config -> T, unset: T, j: nat)
    requires Layered(get, unset) && base in fs.files && !BaseVisit(fs, base).verdict.IsError()
    requires j < |fs.Includes(base)| && Sets(fs, fs.Includes(base)[j], get, unset)
    requires !FromEarlier(fs, base, j, fs.Includes(base)[j])
    requires forall q :: q in BaseVisit(fs, base).order && Sets(fs, q, get, unset) ==>
               q == fs.Includes(base)[j] || FromEarlier(fs, base, j, q)
    ensures get(Flat(fs, BaseVisit(fs, base).order)) == get(fs.files[fs.Includes(base)[j]])
  {
    var v, b := BaseVisit(fs, base), fs.Includes(base)[j];
    OnlyBase(fs, base);
    IncludeIsLoaded(fs, base, j);
    forall q | q in v.order && Sets(fs, q, get, unset)
      ensures !ComesFirst(v.order, b, q)
    {
      if q != b {
        SiblingsInOrder(fs, base, [], {}, [], j, q, b);
        NotBoth(v.order, q, b);
      }
    }
    LastOneWins(fs, v.order, get, unset, b);
  }

  lemma OnlyBase(fs: FileSystem, base: Path)
    requires !BaseVisit(fs, base).verdict.IsError()
    ensures Searching(fs, BaseVisit(fs, base).order, [], BaseVisit(fs, base).seen) && Searching(fs, [], [], {})
    ensures NoDuplicates(BaseVisit(fs, base).order) && base in BaseVisit(fs, base).order
  {
    var v := BaseVisit(fs, base);
    VisitFinishes(fs, base, [], {}, []);
    assert [] + v.order == v.order && [base][0] in v.order;
    TopologicalDistinct(fs.IncludeGraph(), v.order);
  }

  lemma IncludeIsLoaded(fs: FileSystem, base: Path, j: nat)
    requires !BaseVisit(fs, base).verdict.IsError() && j < |fs.Includes(base)|
    ensures fs.Includes(base)[j] in BaseVisit(fs, base).order
    ensures FromEarlier(fs, base, |fs.Includes(base)|, fs.Includes(base)[j])
  {
    var g, v, b := fs.IncludeGraph(), BaseVisit(fs, base), fs.Includes(base)[j];
    OnlyBase(fs, base);
    WithinOrder(fs, v.order, v.seen, base);
    ReachableSelf(g, b);
    GraphSucc(fs, base);
    ReachableVia(g, base, b, b);
  }

  /** Whatever field Merge layers, a load takes it from the last file in merge order that sets it. */
  lemma LoadedField<T(!new)>(fs: FileSystem, base: Path, stage: Path, get: Config -> T, unset: T)
    requires Layered(get, unset)
    ensures get(Flat(fs, LoadOrder(fs, base, stage))) == FromLast(fs, base, stage, get, unset)
  {
    FieldFromLastFile(Configs(fs, LoadOrder(fs, base, stage)), get, unset);
  }

  function FromLast<T(==)>(fs: FileSystem, base: Path, stage: Path, get: Config -> T, unset: T): T {
    LastSet(Configs(fs, LoadOrder(fs, base, stage)), get, unset)
  }

  /** Whatever list Merge appends, a load has the exact concatenation in merge order. */
  lemma LoadedList<T(!new)>(fs: FileSystem, base: Path, stage: Path, get: Config -> seq<T>)
    requires Appended(get)
    ensures get(Flat(fs, LoadOrder(fs, base, stage))) == InOrder(fs, base, stage, get)
  {
    FieldIsConcatenation(Configs(fs, LoadOrder(fs, base, stage)), get);
  }

  function InOrder<T>(fs: FileSystem, base: Path, stage: Path, get: Config -> seq<T>): seq<T> {
    Concat(Parts(Configs(fs, LoadOrder(fs, base, stage)), get))
  }

  function LoadedConfig(fs: FileSystem, base: Path, stage: Path): Config {
    Flat(fs, LoadOrder(fs, base, stage))
  }

  /** The top-level scalars and the linked lists of a load are those of the last file that sets them. */
  lemma LoadedScalars(fs: FileSystem, base: Path, stage: Path)
    ensures var c := LoadedConfig(fs, base, stage);
            && c.version == FromLast(fs, base, stage, (c: Config) => c.version, "")
            && c.description == FromLast(fs, base, stage, (c: Config) => c.description, "")
            && c.scriptsDir == FromLast(fs, base, stage, (c: Config) => c.scriptsDir, "")
            && c.onUnreachable == FromLast(fs, base, stage, (c: Config) => c.onUnreachable, "")
            && c.linkedFiles == FromLast(fs, base, stage, (c: Config) => c.linkedFiles, [])
            && c.linkedDirs == FromLast(fs, base, stage, (c: Config) => c.linkedDirs, [])
  {
    ScalarsAreLayered();
    LoadedField(fs, base, stage, (c: Config) => c.version, "");
    LoadedField(fs, base, stage, (c: Config) => c.description, "");
    LoadedField(fs, base, stage, (c: Config) => c.scriptsDir, "");
    LoadedField(fs, base, stage, (c: Config) => c.onUnreachable, "");
    LoadedField(fs, base, stage, (c: Config) => c.linkedFiles, []);
    LoadedField(fs, base, stage, (c: Config) => c.linkedDirs, []);
  }

  /** So is every field of app. */
  lemma LoadedApp(fs: FileSystem, base: Path, stage: Path)
    ensures var c := LoadedConfig(fs, base, stage);
            && c.app.name == FromLast(fs, base, stage, (c: Config) => c.app.name, "")
            && c.app.repo == FromLast(fs, base, stage, (c: Config) => c.app.repo, "")
            && c.app.branch == FromLast(fs, base, stage, (c: Config) => c.app.branch, "")
            && c.app.deployTo == FromLast(fs, base, stage, (c: Config) => c.app.deployTo, "")
            && c.app.keepReleases == FromLast(fs, base, stage, (c: Config) => c.app.keepReleases, 0)
  {
    AppIsLayered();
    LoadedField(fs, base, stage, (c: Config) => c.app.name, "");
    LoadedField(fs, base, stage, (c: Config) => c.app.repo, "");
    LoadedField(fs, base, stage, (c: Config) => c.app.branch, "");
    LoadedField(fs, base, stage, (c: Config) => c.app.deployTo, "");
    LoadedField(fs, base, stage, (c: Config) => c.app.keepReleases, 0);
  }

  /** So are the SSH credentials. */
  lemma LoadedSSH(fs: FileSystem, base: Path, stage: Path)
    ensures var c := LoadedConfig(fs, base, stage);
            && c.ssh.user == FromLast(fs, base, stage, (c: Config) => c.ssh.user, "")
            && c.ssh.port == FromLast(fs, base, stage, (c: Config) => c.ssh.port, 0)
            && c.ssh.identityFile == FromLast(fs, base, stage, (c: Config) => c.ssh.identityFile, "")
            && c.ssh.passphrase == FromLast(fs, base, stage, (c: Config) => c.ssh.passphrase, "")
  {
    SSHIsLayered();
    LoadedField(fs, base, stage, (c: Config) => c.ssh.user, "");
    LoadedField(fs, base, stage, (c: Config) => c.ssh.port, 0);
    LoadedField(fs, base, stage, (c: Config) => c.ssh.identityFile, "");
    LoadedField(fs, base, stage, (c: Config) => c.ssh.passphrase, "");
  }

  /** So are the other SSH settings. */
  lemma LoadedSSHSwitches(fs: FileSystem, base: Path, stage: Path)
    ensures var c := LoadedConfig(fs, base, stage);
            && c.ssh.knownHostsFile == FromLast(fs, base, stage, (c: Config) => c.ssh.knownHostsFile, "")
            && c.ssh.strictHostKey == FromLast(fs, base, stage, (c: Config) => c.ssh.strictHostKey, None)
            && c.ssh.acceptNew == FromLast(fs, base, stage, (c: Config) => c.ssh.acceptNew, None)
            && c.ssh.forwardAgent == FromLast(fs, base, stage, (c: Config) => c.ssh.forwardAgent, None)
            && c.ssh.forwardKey == FromLast(fs, base, stage, (c: Config) => c.ssh.forwardKey, "")
            && c.ssh.bastion == FromLast(fs, base, stage, (c: Config) => c.ssh.bastion, None)
  {
    SSHSwitchesAreLayered();
    LoadedField(fs, base, stage, (c: Config) => c.ssh.knownHostsFile, "");
    LoadedField(fs, base, stage, (c: Config) => c.ssh.strictHostKey, None);
    LoadedField(fs, base, stage, (c: Config) => c.ssh.acceptNew, None);
    LoadedField(fs, base, stage, (c: Config) => c.ssh.forwardAgent, None);
    LoadedField(fs, base, stage, (c: Config) => c.ssh.forwardKey, "");
    LoadedField(fs, base, stage, (c: Config) => c.ssh.bastion, None);
  }

  /** So is every field of log. */
  lemma LoadedLog(fs: FileSystem, base: Path, stage: Path)
    ensures var c := LoadedConfig(fs, base, stage);
            && c.log.level == FromLast(fs, base, stage, (c: Config) => c.log.level, "")
            && c.log.format == FromLast(fs, base, stage, (c: Config) => c.log.format, "")
            && c.log.output == FromLast(fs, base, stage, (c: Config) => c.log.output, "")
            && c.log.color == FromLast(fs, base, stage, (c: Config) => c.log.color, None)
            && c.log.file == FromLast(fs, base, stage, (c: Config) => c.log.file, "")
            && c.log.fileFormat == FromLast(fs, base, stage, (c: Config) => c.log.fileFormat, "")
            && c.log.rawRemoteLog == FromLast(fs, base, stage, (c: Config) => c.log.rawRemoteLog, None)
  {
    LogIsLayered();
    LoadedField(fs, base, stage, (c: Config) => c.log.level, "");
    LoadedField(fs, base, stage, (c: Config) => c.log.format, "");
    LoadedField(fs, base, stage, (c: Config) => c.log.output, "");
    LoadedField(fs, base, stage, (c: Config) => c.log.color, None);
    LoadedField(fs, base, stage, (c: Config) => c.log.file, "");
    LoadedField(fs, base, stage, (c: Config) => c.log.fileFormat, "");
    LoadedField(fs, base, stage, (c: Config) => c.log.rawRemoteLog, None);
  }

  /** So is every entry of every map. */
  lemma LoadedEntries(fs: FileSystem, base: Path, stage: Path, key: string)
    ensures var c := LoadedConfig(fs, base, stage);
            && Lookup(c.tasks, key) ==
               FromLast(fs, base, stage, (c: Config) => Lookup(c.tasks, key), None)
            && Lookup(c.vars, key) ==
               FromLast(fs, base, stage, (c: Config) => Lookup(c.vars, key), None)
            && Lookup(c.envs, key) ==
               FromLast(fs, base, stage, (c: Config) => Lookup(c.envs, key), None)
            && Lookup(c.hooks.before, key) ==
               FromLast(fs, base, stage, (c: Config) => Lookup(c.hooks.before, key), None)
            && Lookup(c.hooks.after, key) ==
               FromLast(fs, base, stage, (c: Config) => Lookup(c.hooks.after, key), None)
            && Lookup(c.ssh.identities, key) ==
               FromLast(fs, base, stage, (c: Config) => Lookup(c.ssh.identities, key), None)
  {
    MapEntriesAreLayered(key);
    HookEntriesAreLayered(key);
    LoadedField(fs, base, stage, (c: Config) => Lookup(c.tasks, key), None);
    LoadedField(fs, base, stage, (c: Config) => Lookup(c.vars, key), None);
    LoadedField(fs, base, stage, (c: Config) => Lookup(c.envs, key), None);
    LoadedField(fs, base, stage, (c: Config) => Lookup(c.hooks.before, key), None);
    LoadedField(fs, base, stage, (c: Config) => Lookup(c.hooks.after, key), None);
    LoadedField(fs, base, stage, (c: Config) => Lookup(c.ssh.identities, key), None);
  }

  /** And no host, plugin, env file or custom phase is lost or doubled. */
  lemma LoadedLists(fs: FileSystem, base: Path, stage: Path)
    ensures var c := LoadedConfig(fs, base, stage);
            && c.hosts == InOrder(fs, base, stage, (c: Config) => c.hosts)
            && c.plugins == InOrder(fs, base, stage, (c: Config) => c.plugins)
            && c.envFiles == InOrder(fs, base, stage, (c: Config) => c.envFiles)
            && c.customPhases == InOrder(fs, base, stage, (c: Config) => c.customPhases)
  {
    ListsAreAppended();
    LoadedList(fs, base, stage, (c: Config) => c.hosts);
    LoadedList(fs, base, stage, (c: Config) => c.plugins);
    LoadedList(fs, base, stage, (c: Config) => c.envFiles);
    LoadedList(fs, base, stage, (c: Config) => c.customPhases);
  }
}
