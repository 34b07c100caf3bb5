/**
 What running a task means before any host is involved: the recursive expansion into the
 bodies that run, and the graph of before-hook, dep and after-hook edges it walks.
 */
module TaskGraph {
  import opened Common
  import opened Deployfile
  import opened Digraph

  /** The part of the executor's configuration that decides which bodies run, in which order. */
  datatype Tasks = Tasks(
    tasks: map<string, Option<Task>>,
    hooks: Hooks,
    stage: string,
    inactivePlugins: set<string>)
  {
    predicate Present(name: string) {
      name in tasks && tasks[name].Some?
    }

    /** Neither gated out of the stage nor an action of an inactive plugin. */
    predicate Active(name: string)
      requires Present(name)
    {
      var t := tasks[name].value;
      t.ActiveForStage(stage) && !(t.action != "" && ActionNamespace(t.action) in inactivePlugins)
    }

    function Before(name: string): seq<string> {
      if name in hooks.before then hooks.before[name] else []
    }

    function After(name: string): seq<string> {
      if name in hooks.after then hooks.after[name] else []
    }
  }

  /** The segment before the first colon, or the whole name if there is none or it is empty. */
  function ActionNamespace(action: string): string {
    var i := ColonAt(action);
    if 0 < i < |action| then action[..i] else action
  }

  function ColonAt(s: string): (i: nat)
    ensures i <= |s|
    ensures forall j :: 0 <= j < i ==> s[j] != ':'
    ensures i < |s| ==> s[i] == ':'
  {
    if s == "" || s[0] == ':' then 0 else 1 + ColonAt(s[1..])
  }

  /** The bodies a run goes through, and whether it ends without a missing task or a cycle. */
  datatype Expansion = Expansion(names: seq<string>, ok: bool) {
    /** Run this, and unless it failed go on with next. */
    function Then(next: Expansion): Expansion {
      if ok then Expansion(names + next.names, next.ok) else this
    }
  }

  const NOTHING := Expansion([], true)
  const STATIC_ERROR := Expansion([], false)

  /** Before-hooks, deps, the body, after-hooks; nothing is de-duplicated. */
  function Expand(ts: Tasks, name: string, stack: set<string>): Expansion
    decreases ts.tasks.Keys - stack, 1, 0
  {
    if !ts.Present(name) then STATIC_ERROR
    else if name in stack then STATIC_ERROR
    else if !ts.Active(name) then NOTHING
    else
      var inner := stack + {name};
      assert ts.tasks.Keys - inner < ts.tasks.Keys - stack by {
        assert name in ts.tasks.Keys - stack && name !in ts.tasks.Keys - inner;
      }
      ExpandAll(ts, ts.Before(name), inner)
      .Then(ExpandAll(ts, ts.tasks[name].value.deps, inner))
      .Then(Expansion([name], true))
      .Then(ExpandAll(ts, ts.After(name), inner))
  }

  function ExpandAll(ts: Tasks, names: seq<string>, stack: set<string>): Expansion
    decreases ts.tasks.Keys - stack, 2, |names|
  {
    if names == [] then NOTHING
    else Expand(ts, names[0], stack).Then(ExpandAll(ts, names[1..], stack))
  }

  lemma {:induction false} ExpandAllAppend(ts: Tasks, a: seq<string>, b: seq<string>, stack: set<string>)
    ensures ExpandAll(ts, a + b, stack) == ExpandAll(ts, a, stack).Then(ExpandAll(ts, b, stack))
    decreases |a|
  {
    if a == [] {
      assert a + b == b;
    } else {
      assert (a + b)[1..] == a[1..] + b;
      ExpandAllAppend(ts, a[1..], b, stack);
    }
  }

  /** A task on the stack has no body in what runs below it. */
  lemma {:induction false} NeverAgain(ts: Tasks, name: string, stack: set<string>, x: string)
    requires x in stack
    ensures x !in Expand(ts, name, stack).names
    decreases ts.tasks.Keys - stack, 1, 0
  {
    if ts.Present(name) && name !in stack && ts.Active(name) {
      var inner := stack + {name};
      assert name in ts.tasks.Keys - stack && name !in ts.tasks.Keys - inner;
      NeverAgainAll(ts, ts.Before(name), inner, x);
      NeverAgainAll(ts, ts.tasks[name].value.deps, inner, x);
      NeverAgainAll(ts, ts.After(name), inner, x);
    }
  }

  lemma {:induction false} NeverAgainAll(ts: Tasks, names: seq<string>, stack: set<string>, x: string)
    requires x in stack
    ensures x !in ExpandAll(ts, names, stack).names
    decreases ts.tasks.Keys - stack, 2, |names|
  {
    if names != [] {
      NeverAgain(ts, names[0], stack, x);
      NeverAgainAll(ts, names[1..], stack, x);
    }
  }

  /**
   The order of a task's expansion: first its before-hooks and then its deps, in listed order, then its own body, once,
   and then its after-hooks.
   */
  lemma BodyInBetween(ts: Tasks, name: string, stack: set<string>, task: Task)
    requires name in ts.tasks && ts.tasks[name] == Some(task) && name !in stack && Expand(ts, name, stack).ok
    requires ts.stage !in task.except && (task.only == [] || ts.stage in task.only)
    requires task.action == "" || ActionNamespace(task.action) !in ts.inactivePlugins
    ensures var inner, before := stack + {name}, if name in ts.hooks.before then ts.hooks.before[name] else [];
            var first := ExpandAll(ts, before + task.deps, inner).names;
            var last := ExpandAll(ts, if name in ts.hooks.after then ts.hooks.after[name] else [], inner).names;
            && Expand(ts, name, stack).names == first + [name] + last
            && name !in first && name !in last
  {
    var inner := stack + {name};
    ExpandAllAppend(ts, ts.Before(name), task.deps, inner);
    NeverAgainAll(ts, ts.Before(name) + task.deps, inner, name);
    NeverAgainAll(ts, ts.After(name), inner, name);
  }

  /** A task gated out of the stage, or of an inactive plugin, runs nothing at all, and that is no failure. */
  lemma GatedOutRunsNothing(ts: Tasks, name: string, stack: set<string>, task: Task)
    requires name in ts.tasks && ts.tasks[name] == Some(task) && name !in stack
    requires || ts.stage in task.except || (task.only != [] && ts.stage !in task.only)
             || (task.action != "" && ActionNamespace(task.action) in ts.inactivePlugins)
    ensures Expand(ts, name, stack) == Expansion([], true)
  {
  }

  // ---- The edge graph, and when a run succeeds ----

  /** Edges leave only present, active tasks; an inactive one is skipped with everything it names. */
  function Edges(ts: Tasks): Graph {
    Graph(map n | n in ts.tasks && ts.Present(n) && ts.Active(n)
          :: ts.Before(n) + ts.tasks[n].value.deps + ts.After(n))
  }

  /** A walk that shows a run must fail: it ends at a missing task, or meets a task twice. */
  ghost predicate IsBadWalk(ts: Tasks, name: string, w: seq<string>) {
    && IsWalkFrom(Edges(ts), name, w)
    && (!ts.Present(w[|w| - 1]) || !NoDuplicates(w))
  }

  lemma {:induction false} ExpandAllOk(ts: Tasks, names: seq<string>, stack: set<string>)
    ensures ExpandAll(ts, names, stack).ok <==> forall n :: n in names ==> Expand(ts, n, stack).ok
    decreases |names|
  {
    if names != [] {
      ExpandAllOk(ts, names[1..], stack);
      assert ExpandAll(ts, names, stack).ok <==> Expand(ts, names[0], stack).ok && ExpandAll(ts, names[1..], stack).ok;
      if ExpandAll(ts, names, stack).ok {
        forall n | n in names
          ensures Expand(ts, n, stack).ok
        {
          assert n == names[0] || n in names[1..];
        }
      } else if Expand(ts, names[0], stack).ok {
        var n :| n in names[1..] && !Expand(ts, n, stack).ok;
        assert n in names;
      } else {
        assert names[0] in names;
      }
    }
  }

  lemma ExpandOkStep(ts: Tasks, name: string, stack: set<string>)
    ensures Expand(ts, name, stack).ok <==>
            && ts.Present(name) && name !in stack
            && forall m :: m in Edges(ts).Succ(name) ==> Expand(ts, m, stack + {name}).ok
  {
    if ts.Present(name) && name !in stack && ts.Active(name) {
      var inner := stack + {name};
      ExpandAllOk(ts, ts.Before(name), inner);
      ExpandAllOk(ts, ts.tasks[name].value.deps, inner);
      ExpandAllOk(ts, ts.After(name), inner);
      assert Edges(ts).Succ(name) == ts.Before(name) + ts.tasks[name].value.deps + ts.After(name);
    }
  }

  /** A successful expansion leaves no walk that could fail. */
  lemma {:induction false} OkExcludesBadWalks(ts: Tasks, name: string, stack: set<string>, w: seq<string>)
    requires Expand(ts, name, stack).ok
    requires IsWalkFrom(Edges(ts), name, w)
    ensures NoDuplicates(w) && (forall n :: n in w ==> n !in stack && ts.Present(n))
    decreases |w|
  {
    ExpandOkStep(ts, name, stack);
    if |w| > 1 {
      WalkTail(Edges(ts), w);
      OkExcludesBadWalks(ts, w[1], stack + {name}, w[1..]);
      assert w == [w[0]] + w[1..];
    } else {
      assert w == [name];
    }
  }

  /** A failing expansion has a walk to blame; path is the walk that led to name. */
  lemma {:induction false} FailureHasBadWalk(ts: Tasks, root: string, name: string, path: seq<string>)
    returns (w: seq<string>)
    requires path == [] ==> root == name
    requires path != [] ==> IsWalkFrom(Edges(ts), root, path) && name in Edges(ts).Succ(path[|path| - 1])
    requires !Expand(ts, name, ToSet(path)).ok
    ensures IsBadWalk(ts, root, w)
    decreases ts.tasks.Keys - ToSet(path)
  {
    ExpandOkStep(ts, name, ToSet(path));
    w := path + [name];
    WalkExtend(Edges(ts), path, name);
    if !ts.Present(name) {
    } else if name in path {
      MetTwice(path, name);
    } else {
      var m :| m in Edges(ts).Succ(name) && !Expand(ts, m, ToSet(path) + {name}).ok;
      OneMoreOnPath(path, name);
      assert name in ts.tasks.Keys - ToSet(path) && name !in ts.tasks.Keys - ToSet(w);
      w := FailureHasBadWalk(ts, root, m, w);
    }
  }

  lemma MetTwice(path: seq<string>, name: string)
    requires name in path
    ensures !NoDuplicates(path + [name])
  {
    var w := path + [name];
    var i :| 0 <= i < |path| && path[i] == name;
    assert w[i] == w[|path|];
  }

  lemma OneMoreOnPath(path: seq<string>, name: string)
    ensures ToSet(path + [name]) == ToSet(path) + {name}
  {
  }

  /** Without failing bodies a run succeeds exactly when no named task is missing and the edge graph has no cycle. */
  lemma ExpandOkIffAcyclic(ts: Tasks, name: string)
    ensures Expand(ts, name, {}).ok <==>
            && !CycleFrom(Edges(ts), name)
            && forall n :: Reachable(Edges(ts), name, n) ==> ts.Present(n)
  {
    var g := Edges(ts);
    if Expand(ts, name, {}).ok {
      forall w | IsWalkFrom(g, name, w)
        ensures NoDuplicates(w) && ts.Present(w[|w| - 1])
      {
        OkExcludesBadWalks(ts, name, {}, w);
      }
    } else {
      assert ToSet<string>([]) == {};
      var w := FailureHasBadWalk(ts, name, name, []);
      assert IsWalkFrom(g, name, w);
      if !ts.Present(w[|w| - 1]) {
        assert Reachable(g, name, w[|w| - 1]);
      }
    }
  }

  // ---- Runs in which a body may fail ----

  /** A body that ran: its task, how it ended, and the log tag and the phase it ran under. */
  datatype Body = Body(name: string, ok: bool, tag: string, phase: Option<PhaseName>)

  function Names(bodies: seq<Body>): seq<string> {
    if bodies == [] then [] else Names(bodies[..|bodies| - 1]) + [bodies[|bodies| - 1].name]
  }

  lemma {:induction false} NamesAppend(a: seq<Body>, b: seq<Body>)
    ensures Names(a + b) == Names(a) + Names(b)
    decreases |b|
  {
    if b == [] {
      assert a + b == a;
    } else {
      var init := b[..|b| - 1];
      assert (a + b)[..|a + b| - 1] == a + init;
      NamesAppend(a, init);
    }
  }

  predicate AllOk(bodies: seq<Body>) {
    forall b :: b in bodies ==> b.ok
  }

  /**
   The bodies that ran are the expansion's, cut after the first one that failed: with no failing
   body the whole expansion ran and the run failed exactly if the expansion does.
   */
  ghost predicate Ran(e: Expansion, bodies: seq<Body>, failed: bool) {
    if AllOk(bodies) then
      Names(bodies) == e.names && (failed <==> !e.ok)
    else
      && failed
      && AllOk(bodies[..|bodies| - 1])
      && Names(bodies) <= e.names
  }

  lemma RanThen(a: Expansion, x: seq<Body>, b: Expansion, y: seq<Body>, failed: bool)
    requires Ran(a, x, false) && Ran(b, y, failed)
    ensures Ran(a.Then(b), x + y, failed)
  {
    NamesAppend(x, y);
    if AllOk(y) {
      assert AllOk(x + y);
    } else {
      var bad :| bad in y && !bad.ok;
      assert bad in x + y;
      assert (x + y)[..|x + y| - 1] == x + y[..|y| - 1];
    }
  }

  lemma RanFailed(a: Expansion, x: seq<Body>, b: Expansion)
    requires Ran(a, x, true)
    ensures Ran(a.Then(b), x, true)
  {
  }

  /** A run of a task succeeds exactly when no body fails, no task is missing and there is no cycle. */
  lemma RunSucceedsIff(ts: Tasks, name: string, bodies: seq<Body>, failed: bool)
    requires Ran(Expand(ts, name, {}), bodies, failed)
    ensures !failed <==>
            && AllOk(bodies)
            && !CycleFrom(Edges(ts), name)
            && (forall n :: Reachable(Edges(ts), name, n) ==> ts.Present(n))
  {
    ExpandOkIffAcyclic(ts, name);
  }

  lemma RanBody(b: Body)
    ensures Ran(Expansion([b.name], true), [b], !b.ok)
  {
    assert [b][0] in [b];
    assert Names([b]) == [b.name];
  }

  lemma RanBodyBehind(before: seq<Body>, b: Body)
    ensures var now := before + [b];
            before <= now && now[|before|..] == [b] && Ran(Expansion([b.name], true), now[|before|..], !b.ok)
  {
    RanBody(b);
    assert (before + [b])[|before|..] == [b];
  }

  /** The bodies ran under their own names and the given phase. */
  predicate Under(bodies: seq<Body>, phase: Option<PhaseName>) {
    forall b :: b in bodies ==> b.tag == b.name && b.phase == phase
  }

  lemma OneOfOne(ts: Tasks, name: string)
    ensures ExpandAll(ts, [name], {}) == Expand(ts, name, {})
  {
    assert [name][1..] == [] && ExpandAll(ts, [name][1..], {}) == NOTHING;
    assert Expand(ts, name, {}).Then(NOTHING) == Expand(ts, name, {});
  }

  lemma ExpandAllSplit(ts: Tasks, names: seq<string>, i: nat, stack: set<string>)
    requires i <= |names|
    ensures ExpandAll(ts, names, stack) == ExpandAll(ts, names[..i], stack).Then(ExpandAll(ts, names[i..], stack))
  {
    assert names[..i] + names[i..] == names;
    ExpandAllAppend(ts, names[..i], names[i..], stack);
  }

  lemma ExpandAllSnoc(ts: Tasks, names: seq<string>, i: nat, stack: set<string>)
    requires i < |names|
    ensures ExpandAll(ts, names[..i + 1], stack) == ExpandAll(ts, names[..i], stack).Then(Expand(ts, names[i], stack))
  {
    var one := [names[i]];
    assert names[..i + 1] == names[..i] + one;
    ExpandAllAppend(ts, names[..i], one, stack);
    assert one[1..] == [] && ExpandAll(ts, one[1..], stack) == NOTHING;
    assert ExpandAll(ts, one, stack) == Expand(ts, names[i], stack).Then(NOTHING) == Expand(ts, names[i], stack);
  }

  /** One more name of a list has run. */
  lemma RanNext(ts: Tasks, names: seq<string>, i: nat, stack: set<string>, x: seq<Body>, y: seq<Body>, failed: bool)
    requires i < |names|
    requires Ran(ExpandAll(ts, names[..i], stack), x, false)
    requires Ran(Expand(ts, names[i], stack), y, failed)
    ensures !failed ==> Ran(ExpandAll(ts, names[..i + 1], stack), x + y, false)
    ensures failed ==> Ran(ExpandAll(ts, names, stack), x + y, true)
  {
    ExpandAllSnoc(ts, names, i, stack);
    RanThen(ExpandAll(ts, names[..i], stack), x, Expand(ts, names[i], stack), y, failed);
    if failed {
      ExpandAllSplit(ts, names, i + 1, stack);
      RanFailed(ExpandAll(ts, names[..i + 1], stack), x + y, ExpandAll(ts, names[i + 1..], stack));
    }
  }

  /** A run that failed has a body that did, or an expansion with an error. */
  lemma FailedFor(e: Expansion, before: seq<Body>, after: seq<Body>)
    requires before <= after && Ran(e, after[|before|..], true)
    ensures !e.ok || exists i :: |before| <= i < |after| && !after[i].ok
    ensures AllOk(after[|before|..]) ==> !e.ok
  {
    var new_ := after[|before|..];
    if !AllOk(new_) {
      var b :| b in new_ && !b.ok;
      var i :| 0 <= i < |new_| && new_[i] == b;
      assert after[|before| + i] == b;
    }
  }

  lemma NotAllOk(ts: Tasks, names: seq<string>, i: nat)
    requires i < |names|
    ensures !Expand(ts, names[i], {}).ok ==> !ExpandAll(ts, names, {}).ok
  {
    ExpandAllOk(ts, names, {});
    assert names[i] in names;
  }

  lemma Continued(a: seq<Body>, b: seq<Body>, c: seq<Body>)
    requires a <= b <= c
    ensures a <= c && c[|a|..] == b[|a|..] + c[|b|..]
    ensures AllOk(b[|a|..]) && AllOk(c[|b|..]) ==> AllOk(c[|a|..])
    ensures forall phase :: Under(b[|a|..], phase) && Under(c[|b|..], phase) ==> Under(c[|a|..], phase)
  {
    var x, y, z := b[|a|..], c[|b|..], c[|a|..];
    assert z == x + y;
    assert forall body :: body in z <==> body in x || body in y;
  }

  /** Two runs one after the other are a run of the two expansions. */
  lemma RanOn(e: Expansion, f: Expansion, a: seq<Body>, b: seq<Body>, c: seq<Body>, failed: bool)
    requires a <= b <= c && Ran(e, b[|a|..], false) && Ran(f, c[|b|..], failed)
    ensures a <= c && Ran(e.Then(f), c[|a|..], failed)
    ensures AllOk(b[|a|..]) && AllOk(c[|b|..]) ==> AllOk(c[|a|..])
    ensures forall phase :: Under(b[|a|..], phase) && Under(c[|b|..], phase) ==> Under(c[|a|..], phase)
  {
    Continued(a, b, c);
    RanThen(e, b[|a|..], f, c[|b|..], failed);
  }

  /** The bodies grew by ones with the given names. */
  predicate Grew(before: seq<Body>, after: seq<Body>, names: seq<string>) {
    Names(after) == Names(before) + names
  }

  lemma GrewThen(a: seq<Body>, b: seq<Body>, c: seq<Body>, x: seq<string>, y: seq<string>)
    requires Grew(a, b, x) && Grew(b, c, y)
    ensures Grew(a, c, x + y)
  {
    assert (Names(a) + x) + y == Names(a) + (x + y);
  }

  lemma GrewBehind(before: seq<Body>, after: seq<Body>, names: seq<string>)
    requires before <= after
    ensures Grew(before, after, names) <==> Names(after[|before|..]) == names
  {
    var old_, more := Names(before), Names(after[|before|..]);
    assert after == before + after[|before|..];
    NamesAppend(before, after[|before|..]);
    assert (old_ + more)[|old_|..] == more && (old_ + names)[|old_|..] == names;
  }

  lemma GrewNothing(a: seq<Body>)
    ensures Grew(a, a, [])
  {
  }

  /** A run that did not fail ran the expansion to its end. */
  lemma RanToTheEnd(e: Expansion, before: seq<Body>, after: seq<Body>)
    requires before <= after && Ran(e, after[|before|..], false)
    ensures e.ok && Grew(before, after, e.names)
  {
    assert after == before + after[|before|..];
    NamesAppend(before, after[|before|..]);
  }
}
