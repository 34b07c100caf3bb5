/** The deploy lifecycle as a list of steps, and the splicing of custom phases into it. */
module Phases {
  import opened Common
  import opened Deployfile

  /** What a step does besides firing its hooks. */
  datatype Action =
    | Nothing
    | AcquireLock
    | CheckStructure
    | BuildRelease
    | LinkRelease
    | PublishRelease
    | Finish
    | RunTask(task: string)

  datatype Step = Step(phase: PhaseName, action: Action, custom: bool)

  const BASE: seq<Step> := [
    Step(PhaseStarting, AcquireLock, false),
    Step(PhaseCheck, CheckStructure, false),
    Step(PhaseInit, Nothing, false),
    Step(PhaseStarted, Nothing, false),
    Step(PhaseUpdating, BuildRelease, false),
    Step(PhaseSymlink, LinkRelease, false),
    Step(PhaseUpdated, Nothing, false),
    Step(PhasePublishing, PublishRelease, false),
    Step(PhasePublished, Nothing, false),
    Step(PhaseFinishing, Finish, false),
    Step(PhaseFinished, Nothing, false)]

  // ---- Validation ----

  function Anchor(p: CustomPhase): Option<PhaseName> {
    if p.before.Some? then p.before else p.after
  }

  /** A custom phase that the ones declared before it allow. */
  predicate AcceptedAfter(p: CustomPhase, earlier: seq<CustomPhase>, tasks: map<string, Option<Task>>) {
    && p.name != PhaseOther("")
    && p.name.PhaseOther?
    && (forall q :: q in earlier ==> q.name != p.name)
    && p.before.None? != p.after.None?
    && Anchor(p).value.IsBuiltin()
    && (p.task != "" ==> p.task in tasks && tasks[p.task].Some?)
  }

  predicate Accepted(phases: seq<CustomPhase>, tasks: map<string, Option<Task>>) {
    forall i :: 0 <= i < |phases| ==> AcceptedAfter(phases[i], phases[..i], tasks)
  }

  method ValidateCustomPhases(phases: seq<CustomPhase>, tasks: map<string, Option<Task>>) returns (err: Option<string>)
    ensures err.None? <==> Accepted(phases, tasks)
  {
    var seen: set<PhaseName> := {};
    for i := 0 to |phases|
      invariant seen == Declared(phases[..i])
      invariant forall j :: 0 <= j < i ==> AcceptedAfter(phases[j], phases[..j], tasks)
    {
      err := ValidatePhase(phases[i], seen, phases[..i], tasks);
      if err.Some? {
        return;
      }
      seen := seen + {phases[i].name};
      assert phases[..i + 1] == phases[..i] + [phases[i]];
    }
    return None;
  }

  function Declared(phases: seq<CustomPhase>): set<PhaseName> {
    set p | p in phases :: p.name
  }

  method ValidatePhase(p: CustomPhase, seen: set<PhaseName>, ghost earlier: seq<CustomPhase>,
                       tasks: map<string, Option<Task>>)
    returns (err: Option<string>)
    requires seen == Declared(earlier)
    ensures err.None? <==> AcceptedAfter(p, earlier, tasks)
  {
    if p.name == PhaseOther("") {
      return Some("name is required");
    } else if p.name.IsBuiltin() || p.name == PhaseFailed || p.name == PhaseRollback {
      return Some("name collides with a built-in phase");
    } else if p.name in seen {
      return Some("defined more than once");
    } else if p.before.None? == p.after.None? {
      return Some("set exactly one of before/after");
    }
    if !Anchor(p).value.IsBuiltin() {
      return Some("anchor is not a built-in phase");
    }
    if p.task != "" && (p.task !in tasks || tasks[p.task].None?) {
      return Some("task not found");
    }
    return None;
  }

  // ---- Splicing ----

  function Custom(p: CustomPhase): Step {
    Step(p.name, if p.task != "" then RunTask(p.task) else Nothing, true)
  }

  /** The phases anchored before the given one, in declaration order. */
  function Before(phases: seq<CustomPhase>, phase: PhaseName): seq<Step> {
    if phases == [] then []
    else
      var p := phases[|phases| - 1];
      Before(phases[..|phases| - 1], phase) + if p.before == Some(phase) then [Custom(p)] else []
  }

  /** The phases anchored after the given one, in declaration order. */
  function After(phases: seq<CustomPhase>, phase: PhaseName): seq<Step> {
    if phases == [] then []
    else
      var p := phases[|phases| - 1];
      After(phases[..|phases| - 1], phase) + if p.before == None && p.after == Some(phase) then [Custom(p)] else []
  }

  /** A built-in step with the phases anchored to it. */
  function Around(s: Step, phases: seq<CustomPhase>): seq<Step> {
    Before(phases, s.phase) + [s] + After(phases, s.phase)
  }

  function Splice(base: seq<Step>, phases: seq<CustomPhase>): seq<Step> {
    if base == [] then [] else Splice(base[..|base| - 1], phases) + Around(base[|base| - 1], phases)
  }

  function At(m: map<PhaseName, seq<Step>>, key: PhaseName): seq<Step> {
    if key in m then m[key] else []
  }

  ghost predicate Grouped(phases: seq<CustomPhase>, before: map<PhaseName, seq<Step>>,
                          after: map<PhaseName, seq<Step>>)
  {
    && (forall k :: At(before, k) == Before(phases, k))
    && (forall k :: At(after, k) == After(phases, k))
  }

  /** Groups the phases by anchor and side. */
  method GroupByAnchor(phases: seq<CustomPhase>)
    returns (before: map<PhaseName, seq<Step>>, after: map<PhaseName, seq<Step>>)
    ensures Grouped(phases, before, after)
  {
    before, after := map[], map[];
    for i := 0 to |phases|
      invariant Grouped(phases[..i], before, after)
    {
      var p := phases[i];
      assert phases[..i + 1] == phases[..i] + [p];
      GroupOneMore(phases[..i], before, after, p);
      if p.before.Some? {
        before := AddTo(before, p.before.value, Custom(p));
      } else if p.after.Some? {
        after := AddTo(after, p.after.value, Custom(p));
      }
    }
    assert phases[..|phases|] == phases;
  }

  function AddTo(m: map<PhaseName, seq<Step>>, key: PhaseName, s: Step): map<PhaseName, seq<Step>> {
    m[key := At(m, key) + [s]]
  }

  lemma AtAddTo(m: map<PhaseName, seq<Step>>, key: PhaseName, s: Step, k: PhaseName)
    ensures At(AddTo(m, key, s), k) == At(m, k) + if k == key then [s] else []
  {
  }

  lemma GroupOneMore(phases: seq<CustomPhase>, before: map<PhaseName, seq<Step>>, after: map<PhaseName, seq<Step>>,
                     p: CustomPhase)
    requires Grouped(phases, before, after)
    ensures Grouped(phases + [p],
                    if p.before.Some? then AddTo(before, p.before.value, Custom(p)) else before,
                    if p.before.None? && p.after.Some? then AddTo(after, p.after.value, Custom(p)) else after)
  {
    var all := phases + [p];
    var b := if p.before.Some? then AddTo(before, p.before.value, Custom(p)) else before;
    var a := if p.before.None? && p.after.Some? then AddTo(after, p.after.value, Custom(p)) else after;
    forall k
      ensures At(b, k) == Before(all, k)
    {
      OneMoreAnchored(phases, p, k);
      if p.before.Some? {
        AtAddTo(before, p.before.value, Custom(p), k);
      }
    }
    forall k
      ensures At(a, k) == After(all, k)
    {
      OneMoreAnchored(phases, p, k);
      if p.before.None? && p.after.Some? {
        AtAddTo(after, p.after.value, Custom(p), k);
      }
    }
  }

  method InsertCustomPhases(base: seq<Step>, phases: seq<CustomPhase>) returns (out: seq<Step>)
    ensures out == Splice(base, phases)
  {
    if |phases| == 0 {
      SpliceNone(base);
      return base;
    }
    var before, after := GroupByAnchor(phases);
    out := [];
    for i := 0 to |base|
      invariant out == Splice(base[..i], phases)
    {
      var s := base[i];
      ghost var soFar := base[..i + 1];
      assert soFar[..|soFar| - 1] == base[..i] && soFar[|soFar| - 1] == s;
      out := out + (At(before, s.phase) + [s] + At(after, s.phase));
    }
    assert base[..|base|] == base;
  }

  lemma {:induction false} SpliceNone(base: seq<Step>)
    ensures Splice(base, []) == base
  {
    if base != [] {
      SpliceNone(base[..|base| - 1]);
      assert Around(base[|base| - 1], []) == [base[|base| - 1]];
    }
  }

  // ---- What splicing keeps ----

  function BuiltIn(): Step -> bool {
    (s: Step) => !s.custom
  }

  lemma {:induction false} AnchoredAreCustom(phases: seq<CustomPhase>, phase: PhaseName)
    ensures forall s :: s in Before(phases, phase) ==> s.custom
    ensures forall s :: s in After(phases, phase) ==> s.custom
  {
    if phases != [] {
      AnchoredAreCustom(phases[..|phases| - 1], phase);
    }
  }

  lemma BuiltInsOfAround(s: Step, phases: seq<CustomPhase>)
    requires !s.custom
    ensures Filter(Around(s, phases), BuiltIn()) == [s]
  {
    var b, a := Before(phases, s.phase), After(phases, s.phase);
    AnchoredAreCustom(phases, s.phase);
    FilterNone(b, BuiltIn());
    FilterNone(a, BuiltIn());
    FilterAppend(b + [s], a, BuiltIn());
    FilterAppend(b, [s], BuiltIn());
    assert Filter([s], BuiltIn()) == [s];
  }

  /** The built-in steps remain, unchanged and in order. */
  lemma {:induction false} KeepsBuiltIns(base: seq<Step>, phases: seq<CustomPhase>)
    requires forall s :: s in base ==> !s.custom
    ensures Filter(Splice(base, phases), BuiltIn()) == base
  {
    if base != [] {
      var init, last := base[..|base| - 1], base[|base| - 1];
      BuiltInsOfAround(last, phases);
      KeepsBuiltIns(init, phases);
      FilterAppend(Splice(init, phases), Around(last, phases), BuiltIn());
    }
  }

  lemma {:induction false} AnchoredActions(phases: seq<CustomPhase>, phase: PhaseName)
    ensures forall s :: s in Before(phases, phase) ==> s.action.RunTask? || s.action.Nothing?
    ensures forall s :: s in After(phases, phase) ==> s.action.RunTask? || s.action.Nothing?
  {
    if phases != [] {
      AnchoredActions(phases[..|phases| - 1], phase);
    }
  }

  /** A custom step runs a task or nothing. */
  lemma {:induction false} CustomActions(base: seq<Step>, phases: seq<CustomPhase>)
    requires forall s :: s in base ==> !s.custom
    ensures forall s :: s in Splice(base, phases) && s.custom ==> s.action.RunTask? || s.action.Nothing?
  {
    if base != [] {
      CustomActions(base[..|base| - 1], phases);
      AnchoredActions(phases, base[|base| - 1].phase);
    }
  }

  /** The neighbourhood of a built-in step: its own custom phases on the side they name, and nothing else. */
  lemma {:induction false} SplicedAround(base: seq<Step>, phases: seq<CustomPhase>, i: nat)
    requires i < |base|
    ensures Splice(base, phases) == Splice(base[..i], phases) + Around(base[i], phases) + Splice(base[i + 1..], phases)
  {
    var init, last := base[..|base| - 1], base[|base| - 1];
    if i == |base| - 1 {
      assert Splice(base[i + 1..], phases) == [];
    } else {
      SplicedAround(init, phases, i);
      assert init[..i] == base[..i];
      var rest := base[i + 1..];
      assert rest[..|rest| - 1] == init[i + 1..] && rest[|rest| - 1] == last;
      Regroup(Splice(base[..i], phases) + Around(base[i], phases), Splice(init[i + 1..], phases), Around(last, phases));
    }
  }

  lemma AddedBefore(b: seq<Step>, s: Step, a: seq<Step>, c: Step)
    ensures multiset((b + [c]) + [s] + a) == multiset(b + [s] + a) + multiset{c}
  {
  }

  lemma AddedAfter(b: seq<Step>, s: Step, a: seq<Step>, c: Step)
    ensures multiset(b + [s] + (a + [c])) == multiset(b + [s] + a) + multiset{c}
  {
  }

  lemma OneMoreAnchored(phases: seq<CustomPhase>, p: CustomPhase, phase: PhaseName)
    ensures Before(phases + [p], phase) == Before(phases, phase) + if p.before == Some(phase) then [Custom(p)] else []
    ensures After(phases + [p], phase) ==
            After(phases, phase) + if p.before == None && p.after == Some(phase) then [Custom(p)] else []
  {
    var all := phases + [p];
    assert all[..|all| - 1] == phases && all[|all| - 1] == p;
  }

  lemma OneMoreAround(s: Step, phases: seq<CustomPhase>, p: CustomPhase)
    ensures multiset(Around(s, phases + [p])) ==
            multiset(Around(s, phases)) + if Anchor(p) == Some(s.phase) then multiset{Custom(p)} else multiset{}
  {
    var b, a, c := Before(phases, s.phase), After(phases, s.phase), Custom(p);
    OneMoreAnchored(phases, p, s.phase);
    if p.before == Some(s.phase) {
      AddedBefore(b, s, a, c);
    } else if Anchor(p) == Some(s.phase) {
      AddedAfter(b, s, a, c);
    }
  }

  ghost predicate HasAnchor(base: seq<Step>, p: CustomPhase) {
    exists i :: 0 <= i < |base| && Anchor(p) == Some(base[i].phase)
  }

  predicate DistinctPhases(base: seq<Step>) {
    forall i, j :: 0 <= i < j < |base| ==> base[i].phase != base[j].phase
  }

  lemma HasAnchorSnoc(base: seq<Step>, p: CustomPhase)
    requires DistinctPhases(base) && base != []
    ensures HasAnchor(base, p) <==> HasAnchor(base[..|base| - 1], p) || Anchor(p) == Some(base[|base| - 1].phase)
    ensures !(HasAnchor(base[..|base| - 1], p) && Anchor(p) == Some(base[|base| - 1].phase))
  {
    var init := base[..|base| - 1];
    if i :| 0 <= i < |init| && Anchor(p) == Some(init[i].phase) {
      assert base[i] == init[i];
    }
    if i :| 0 <= i < |base| && Anchor(p) == Some(base[i].phase) {
      assert i < |init| ==> init[i] == base[i];
    }
  }

  /** Declaring one more phase adds it once if some step has its anchor. */
  lemma {:induction false} DeclareOneMore(base: seq<Step>, phases: seq<CustomPhase>, p: CustomPhase)
    requires DistinctPhases(base)
    ensures multiset(Splice(base, phases + [p])) ==
            multiset(Splice(base, phases)) + if HasAnchor(base, p) then multiset{Custom(p)} else multiset{}
    decreases |base|
  {
    if base != [] {
      var init, last := base[..|base| - 1], base[|base| - 1];
      DeclareOneMore(init, phases, p);
      OneMoreAround(last, phases, p);
      HasAnchorSnoc(base, p);
      SumOf(Splice(init, phases + [p]), Around(last, phases + [p]));
      SumOf(Splice(init, phases), Around(last, phases));
      var once := multiset{Custom(p)};
      AddUp(multiset(Splice(init, phases)), multiset(Around(last, phases)),
            if HasAnchor(init, p) then once else multiset{},
            if Anchor(p) == Some(last.phase) then once else multiset{});
    }
  }

  lemma AddUp(a: multiset<Step>, b: multiset<Step>, x: multiset<Step>, y: multiset<Step>)
    ensures (a + x) + (b + y) == (a + b) + (x + y)
  {
  }

  lemma SumOf(a: seq<Step>, b: seq<Step>)
    ensures multiset(a + b) == multiset(a) + multiset(b)
  {
  }

  function CustomAll(phases: seq<CustomPhase>): seq<Step> {
    if phases == [] then [] else CustomAll(phases[..|phases| - 1]) + [Custom(phases[|phases| - 1])]
  }

  /** Every anchored custom phase is placed exactly once, and nothing else is added. */
  lemma {:induction false} PlacesEachOnce(base: seq<Step>, phases: seq<CustomPhase>)
    requires DistinctPhases(base)
    requires forall i :: 0 <= i < |phases| ==> HasAnchor(base, phases[i])
    ensures multiset(Splice(base, phases)) == multiset(base) + multiset(CustomAll(phases))
    ensures |Splice(base, phases)| == |base| + |phases|
    decreases |phases|
  {
    if phases == [] {
      SpliceNone(base);
    } else {
      var init, p := phases[..|phases| - 1], phases[|phases| - 1];
      assert phases == init + [p];
      PlacesEachOnce(base, init);
      DeclareOneMore(base, init, p);
      SumOf(CustomAll(init), [Custom(p)]);
      SizeOf(Splice(base, phases));
      SizeOf(Splice(base, init));
    }
  }

  lemma SizeOf(a: seq<Step>)
    ensures |multiset(a)| == |a|
  {
  }

  /** What New accepts, the lifecycle can place. */
  lemma AcceptedArePlaced(phases: seq<CustomPhase>, tasks: map<string, Option<Task>>)
    requires Accepted(phases, tasks)
    ensures multiset(Splice(BASE, phases)) == multiset(BASE) + multiset(CustomAll(phases))
    ensures |Splice(BASE, phases)| == |BASE| + |phases|
  {
    AcceptedArePlaceable(phases, tasks);
    PlacesEachOnce(BASE, phases);
  }

  // ---- Positions ----

  /** The base steps have distinct phases, and each custom phase its own name and an anchor among them on one side. */
  ghost predicate Placeable(base: seq<Step>, phases: seq<CustomPhase>) {
    && DistinctPhases(base)
    && (forall s :: s in base ==> !s.custom)
    && (forall k :: 0 <= k < |phases| ==> HasAnchor(base, phases[k]))
    && (forall k, m :: 0 <= k < m < |phases| ==> phases[k].name != phases[m].name)
    && (forall k :: 0 <= k < |phases| ==> phases[k].before.None? != phases[k].after.None?)
  }

  lemma {:induction false} CustomAllAt(phases: seq<CustomPhase>)
    ensures |CustomAll(phases)| == |phases|
    ensures forall k :: 0 <= k < |phases| ==> CustomAll(phases)[k] == Custom(phases[k])
  {
    if phases != [] {
      CustomAllAt(phases[..|phases| - 1]);
    }
  }

  /** No step occurs twice in the splice, and each is a base step or a custom phase. */
  lemma SplicedMembers(base: seq<Step>, phases: seq<CustomPhase>)
    requires Placeable(base, phases)
    ensures NoDuplicates(Splice(base, phases))
    ensures forall s :: s in Splice(base, phases) <==> s in base || s in CustomAll(phases)
  {
    var out, all := Splice(base, phases), base + CustomAll(phases);
    PlacesEachOnce(base, phases);
    CustomAllAt(phases);
    SumOf(base, CustomAll(phases));
    assert NoDuplicates(all) by {
      forall i, j | 0 <= i < j < |all|
        ensures all[i] != all[j]
      {
        if i < |base| <= j {
          assert all[i] in base;
        }
      }
    }
    forall i, j | 0 <= i < j < |out|
      ensures out[i] != out[j]
    {
      OnceEach(all, out[i]);
      if out[i] == out[j] {
        TwiceIn(out, i, j);
      }
    }
    forall s
      ensures s in out <==> s in base || s in CustomAll(phases)
    {
      assert s in multiset(out) <==> s in multiset(all);
    }
  }

  lemma {:induction false} BeforeAt(phases: seq<CustomPhase>, phase: PhaseName, k: nat)
    requires k < |phases| && phases[k].before == Some(phase)
    ensures Before(phases[..k], phase) + [Custom(phases[k])] <= Before(phases, phase)
    decreases |phases|
  {
    var init := phases[..|phases| - 1];
    if k < |phases| - 1 {
      BeforeAt(init, phase, k);
      assert init[..k] == phases[..k];
    }
  }

  lemma {:induction false} AfterAt(phases: seq<CustomPhase>, phase: PhaseName, k: nat)
    requires k < |phases| && phases[k].before == None && phases[k].after == Some(phase)
    ensures After(phases[..k], phase) + [Custom(phases[k])] <= After(phases, phase)
    decreases |phases|
  {
    var init := phases[..|phases| - 1];
    if k < |phases| - 1 {
      AfterAt(init, phase, k);
      assert init[..k] == phases[..k];
    }
  }

  /** Where a custom phase and its anchor stand. */
  ghost predicate Stands(out: seq<Step>, base: seq<Step>, phases: seq<CustomPhase>, k: nat, a: nat, i: nat, j: nat) {
    && k < |phases| && a < |base| && i < |out| && j < |out|
    && out[i] == Custom(phases[k]) && out[j] == base[a]
    && forall m :: i < m < j || j < m < i ==> out[m].custom
  }

  lemma StandsBefore(base: seq<Step>, phases: seq<CustomPhase>, k: nat, a: nat) returns (i: nat, j: nat)
    requires k < |phases| && a < |base| && phases[k].before == Some(base[a].phase)
    ensures Stands(Splice(base, phases), base, phases, k, a, i, j) && i < j
    ensures i == |Splice(base[..a], phases)| + |Before(phases[..k], base[a].phase)|
  {
    var x, y := Splice(base[..a], phases), Splice(base[a + 1..], phases);
    var b, c := Before(phases, base[a].phase), After(phases, base[a].phase);
    SplicedAround(base, phases, a);
    BeforeAt(phases, base[a].phase, k);
    AnchoredAreCustom(phases, base[a].phase);
    var n := |Before(phases[..k], base[a].phase)|;
    assert b[n] == Custom(phases[k]);
    i, j := |x| + n, |x| + |b|;
    Layout(x, b, base[a], c, y);
    assert forall m :: 0 <= m < |b| ==> b[m].custom;
  }

  lemma Layout(x: seq<Step>, b: seq<Step>, s: Step, c: seq<Step>, y: seq<Step>)
    ensures var out := x + (b + [s] + c) + y;
            && (forall m :: |x| <= m < |x| + |b| ==> out[m] == b[m - |x|])
            && out[|x| + |b|] == s
            && (forall m :: |x| + |b| < m <= |x| + |b| + |c| ==> out[m] == c[m - |x| - |b| - 1])
  {
  }

  lemma StandsAfter(base: seq<Step>, phases: seq<CustomPhase>, k: nat, a: nat) returns (i: nat, j: nat)
    requires k < |phases| && a < |base| && phases[k].before == None && phases[k].after == Some(base[a].phase)
    ensures Stands(Splice(base, phases), base, phases, k, a, i, j) && j < i
    ensures j == |Splice(base[..a], phases)| + |Before(phases, base[a].phase)|
    ensures i == j + 1 + |After(phases[..k], base[a].phase)|
  {
    var x, y := Splice(base[..a], phases), Splice(base[a + 1..], phases);
    var b, c := Before(phases, base[a].phase), After(phases, base[a].phase);
    SplicedAround(base, phases, a);
    AfterAt(phases, base[a].phase, k);
    AnchoredAreCustom(phases, base[a].phase);
    var n := |After(phases[..k], base[a].phase)|;
    assert c[n] == Custom(phases[k]);
    i, j := |x| + |b| + 1 + n, |x| + |b|;
    Layout(x, b, base[a], c, y);
    assert forall m :: 0 <= m < |c| ==> c[m].custom;
  }

  /** A step of the splice known by its name is the custom phase of that name. */
  lemma ByName(base: seq<Step>, phases: seq<CustomPhase>, k: nat, i: nat)
    requires Placeable(base, phases) && k < |phases| && i < |Splice(base, phases)|
    requires Splice(base, phases)[i].custom && Splice(base, phases)[i].phase == phases[k].name
    ensures Splice(base, phases)[i] == Custom(phases[k])
  {
    var s := Splice(base, phases)[i];
    SplicedMembers(base, phases);
    CustomAllAt(phases);
    assert s in CustomAll(phases);
    var m :| 0 <= m < |phases| && CustomAll(phases)[m] == s;
    assert m == k;
  }

  /** And a built-in one is the base step of its phase. */
  lemma ByPhase(base: seq<Step>, phases: seq<CustomPhase>, a: nat, j: nat)
    requires Placeable(base, phases) && a < |base| && j < |Splice(base, phases)|
    requires !Splice(base, phases)[j].custom && Splice(base, phases)[j].phase == base[a].phase
    ensures Splice(base, phases)[j] == base[a]
  {
    var s := Splice(base, phases)[j];
    SplicedMembers(base, phases);
    CustomAllAt(phases);
    assert s !in CustomAll(phases) by {
      forall m | 0 <= m < |phases|
        ensures CustomAll(phases)[m] != s
      {
      }
    }
    var m :| 0 <= m < |base| && base[m] == s;
    assert m == a;
  }

  /**
   Wherever the custom phase of a given name and the built-in step it is anchored to stand in the splice: it runs its
   task, it stands before the step if it names it with before and after the step if with after, and no built-in step
   lies between the two.
   */
  lemma PlacedBeside(base: seq<Step>, phases: seq<CustomPhase>, k: nat, i: nat, j: nat)
    requires Placeable(base, phases) && k < |phases|
    requires i < |Splice(base, phases)| && j < |Splice(base, phases)|
    requires Splice(base, phases)[i].custom && Splice(base, phases)[i].phase == phases[k].name
    requires !Splice(base, phases)[j].custom
    requires Some(Splice(base, phases)[j].phase) == if phases[k].before.Some? then phases[k].before else phases[k].after
    ensures phases[k].before.Some? ==> i < j
    ensures phases[k].after.Some? ==> j < i
    ensures forall m :: i < m < j || j < m < i ==> Splice(base, phases)[m].custom
    ensures Splice(base, phases)[i].action == if phases[k].task != "" then RunTask(phases[k].task) else Nothing
  {
    var a :| 0 <= a < |base| && Anchor(phases[k]) == Some(base[a].phase);
    ByName(base, phases, k, i);
    ByPhase(base, phases, a, j);
    SplicedMembers(base, phases);
    if phases[k].before.Some? {
      var i0, j0 := StandsBefore(base, phases, k, a);
      assert i0 == i && j0 == j;
    } else {
      var i0, j0 := StandsAfter(base, phases, k, a);
      assert i0 == i && j0 == j;
    }
  }

  /** Of two phases with the same anchor on the same side, the one declared first comes first. */
  lemma DeclaredInOrder(base: seq<Step>, phases: seq<CustomPhase>, k: nat, m: nat, i: nat, j: nat)
    requires Placeable(base, phases) && k < m < |phases|
    requires phases[k].before == phases[m].before && phases[k].after == phases[m].after
    requires i < |Splice(base, phases)| && j < |Splice(base, phases)|
    requires Splice(base, phases)[i].custom && Splice(base, phases)[i].phase == phases[k].name
    requires Splice(base, phases)[j].custom && Splice(base, phases)[j].phase == phases[m].name
    ensures i < j
  {
    var a :| 0 <= a < |base| && Anchor(phases[k]) == Some(base[a].phase);
    ByName(base, phases, k, i);
    ByName(base, phases, m, j);
    SplicedMembers(base, phases);
    assert phases[..m][..k] == phases[..k] && phases[..m][k] == phases[k];
    if phases[k].before.Some? {
      var ik, _ := StandsBefore(base, phases, k, a);
      var im, _ := StandsBefore(base, phases, m, a);
      BeforeAt(phases[..m], base[a].phase, k);
      assert ik == i && im == j;
    } else {
      var ik, _ := StandsAfter(base, phases, k, a);
      var im, _ := StandsAfter(base, phases, m, a);
      AfterAt(phases[..m], base[a].phase, k);
      assert ik == i && im == j;
    }
  }

  /** Each stands somewhere. */
  lemma IsPlaced(base: seq<Step>, phases: seq<CustomPhase>, k: nat)
    requires Placeable(base, phases) && k < |phases|
    ensures exists i :: 0 <= i < |Splice(base, phases)| &&
                        Splice(base, phases)[i].custom && Splice(base, phases)[i].phase == phases[k].name
  {
    SplicedMembers(base, phases);
    CustomAllAt(phases);
    assert CustomAll(phases)[k] in Splice(base, phases);
  }

  /** All of this holds of what New accepts. */
  lemma AcceptedArePlaceable(phases: seq<CustomPhase>, tasks: map<string, Option<Task>>)
    requires Accepted(phases, tasks)
    ensures Placeable(BASE, phases)
  {
    forall k | 0 <= k < |phases|
      ensures HasAnchor(BASE, phases[k]) && phases[k].before.None? != phases[k].after.None?
    {
      assert AcceptedAfter(phases[k], phases[..k], tasks);
      var i := IndexOf(Anchor(phases[k]).value);
      assert BASE[i].phase == Anchor(phases[k]).value;
    }
    forall k, m | 0 <= k < m < |phases|
      ensures phases[k].name != phases[m].name
    {
      assert AcceptedAfter(phases[m], phases[..m], tasks);
      assert phases[..m][k] == phases[k] && phases[k] in phases[..m];
    }
  }

  function IndexOf(phase: PhaseName): (i: nat)
    requires phase.IsBuiltin()
    ensures i < |BASE| && BASE[i].phase == phase
  {
    match phase
    case PhaseStarting => 0
    case PhaseCheck => 1
    case PhaseInit => 2
    case PhaseStarted => 3
    case PhaseUpdating => 4
    case PhaseSymlink => 5
    case PhaseUpdated => 6
    case PhasePublishing => 7
    case PhasePublished => 8
    case PhaseFinishing => 9
    case PhaseFinished => 10
  }
}
