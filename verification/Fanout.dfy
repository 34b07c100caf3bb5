/**
 The worker pool that runs a function against every target, as interleaved steps of its
 goroutines. The function's outcomes and the moment a parent cancels are arbitrary.
 */
module Fanout {
  import opened Common
  import opened Errors

  /** A goroutine: waiting for a slot, before its context check, in fn, about to cancel, done, slot returned. */
  datatype Status =
    | Waiting
    | Launched
    | Running
    | Failing(err: Error)
    | Finished(outcome: Option<Error>)
    | Released(outcome: Option<Error>)

  /** The shared context; a fail-fast cancel records its cause, of which only the first counts. */
  datatype Context = Live | Done(err: Error, cause: Option<Error>)

  datatype Pool = Pool(status: seq<Status>, slots: nat, calls: seq<nat>, ctx: Context)

  datatype Step =
    | Launch(i: nat)
    | Skip(i: nat)
    | Start(i: nat)
    | Return(i: nat, err: Option<Error>)
    | Cancel(i: nat)
    | Release(i: nat)
    | ParentDone(ctxErr: Error)

  datatype Config = Config(n: nat, concurrency: int, failFast: bool) {
    function Limit(): int {
      if concurrency <= 0 then n else concurrency
    }
  }

  /** A target that was never started: a context error that names the cause as text only. */
  function SkippedError(ctx: Context): Error
    requires ctx.Done?
  {
    if ctx.cause.Some? && !Is(ctx.cause.value, ctx.err) then Wrapped("cause", ctx.err) else ctx.err
  }

  predicate IsCtxErr(e: Error) {
    e == Canceled || e == DeadlineExceeded
  }

  predicate Initial(c: Config, p: Pool) {
    && |p.status| == |p.calls| == c.n
    && (forall i :: 0 <= i < c.n ==> p.status[i] == Waiting && p.calls[i] == 0)
    && p.slots == 0 && p.ctx == Live
  }

  function Set(p: Pool, i: nat, s: Status): Pool
    requires i < |p.status|
  {
    p.(status := p.status[i := s])
  }

  predicate Next(c: Config, p: Pool, q: Pool, step: Step) {
    match step
    case Launch(i) =>
      && i < |p.status| && p.status[i] == Waiting && (forall j :: 0 <= j < i ==> p.status[j] != Waiting)
      && p.slots < c.Limit()
      && q == Set(p, i, Launched).(slots := p.slots + 1)
    case Skip(i) =>
      && i < |p.status| && p.status[i] == Launched && p.ctx.Done?
      && q == Set(p, i, Finished(Some(SkippedError(p.ctx))))
    case Start(i) =>
      && i < |p.status| == |p.calls| && p.status[i] == Launched && p.ctx.Live?
      && q == Set(p, i, Running).(calls := p.calls[i := p.calls[i] + 1])
    case Return(i, err) =>
      && i < |p.status| && p.status[i] == Running
      && q == Set(p, i, if err.Some? && c.failFast then Failing(err.value) else Finished(err))
    case Cancel(i) =>
      && i < |p.status| && p.status[i].Failing?
      && q == Set(p, i, Finished(Some(p.status[i].err)))
              .(ctx := if p.ctx.Live? then Done(Canceled, Some(Wrapped("target failed", p.status[i].err))) else p.ctx)
    case Release(i) =>
      && i < |p.status| && p.status[i].Finished? && p.slots > 0
      && q == Set(p, i, Released(p.status[i].outcome)).(slots := p.slots - 1)
    case ParentDone(e) =>
      && IsCtxErr(e) && p.ctx.Live?
      && q == p.(ctx := Done(e, None))
  }

  ghost predicate IsRun(c: Config, pools: seq<Pool>, steps: seq<Step>) {
    && |pools| == |steps| + 1
    && Initial(c, pools[0])
    && forall k :: 0 <= k < |steps| ==> Next(c, pools[k], pools[k + 1], steps[k])
  }

  // ---- Concurrency ----

  /** The targets that hold a slot. */
  function InFlight(p: Pool): set<nat> {
    set i: nat | i < |p.status| && !p.status[i].Waiting? && !p.status[i].Released?
  }

  function InFn(p: Pool): set<nat> {
    set i: nat | i < |p.status| && p.status[i].Running?
  }

  ghost predicate Inv(c: Config, p: Pool) {
    && |p.status| == |p.calls| == c.n
    && p.slots == |InFlight(p)| && p.slots <= (if c.Limit() < 0 then 0 else c.Limit())
    && forall i :: 0 <= i < c.n ==>
         && p.calls[i] <= 1
         && (p.status[i].Waiting? || p.status[i].Launched? ==> p.calls[i] == 0)
         && (p.status[i].Running? || p.status[i].Failing? ==> p.calls[i] == 1)
  }

  lemma SlotTaken(p: Pool, i: nat, s: Status)
    requires i < |p.status| && p.status[i].Waiting? && !s.Waiting? && !s.Released?
    ensures |InFlight(Set(p, i, s))| == |InFlight(p)| + 1
  {
    assert InFlight(Set(p, i, s)) == InFlight(p) + {i};
  }

  lemma SlotKept(p: Pool, i: nat, s: Status)
    requires i < |p.status| && !p.status[i].Waiting? && !p.status[i].Released? && !s.Waiting? && !s.Released?
    ensures InFlight(Set(p, i, s)) == InFlight(p)
  {
  }

  lemma SlotReturned(p: Pool, i: nat, s: Status)
    requires i < |p.status| && p.status[i].Finished? && s.Released?
    ensures |InFlight(Set(p, i, s))| == |InFlight(p)| - 1
  {
    assert InFlight(Set(p, i, s)) == InFlight(p) - {i};
  }

  lemma NextKeepsInv(c: Config, p: Pool, q: Pool, step: Step)
    requires Inv(c, p) && Next(c, p, q, step)
    ensures Inv(c, q)
  {
    match step
    case Launch(i) =>
      SlotTaken(p, i, Launched);
      assert InFlight(q) == InFlight(Set(p, i, Launched));
    case Skip(i) =>
      SlotKept(p, i, q.status[i]);
    case Start(i) =>
      SlotKept(p, i, Running);
      assert InFlight(q) == InFlight(Set(p, i, Running));
    case Return(i, _) =>
      SlotKept(p, i, q.status[i]);
    case Cancel(i) =>
      SlotKept(p, i, q.status[i]);
      assert InFlight(q) == InFlight(Set(p, i, q.status[i]));
    case Release(i) =>
      SlotReturned(p, i, q.status[i]);
      assert InFlight(q) == InFlight(Set(p, i, q.status[i]));
    case ParentDone(_) =>
      assert InFlight(q) == InFlight(p);
  }

  lemma {:induction false} ReachableInv(c: Config, pools: seq<Pool>, steps: seq<Step>, k: nat)
    requires IsRun(c, pools, steps) && k < |pools|
    ensures Inv(c, pools[k])
  {
    if k == 0 {
      assert InFlight(pools[0]) == {};
    } else {
      ReachableInv(c, pools, steps, k - 1);
      assert Next(c, pools[k - 1], pools[k - 1 + 1], steps[k - 1]);
      NextKeepsInv(c, pools[k - 1], pools[k], steps[k - 1]);
    }
  }

  /** At any time at most the allowed number of calls is in progress, and no target is ever called twice. */
  lemma Bounded(c: Config, pools: seq<Pool>, steps: seq<Step>, k: nat)
    requires IsRun(c, pools, steps) && k < |pools|
    ensures |InFn(pools[k])| <= if c.concurrency <= 0 then c.n else c.concurrency
    ensures |pools[k].calls| == c.n && forall i :: 0 <= i < c.n ==> pools[k].calls[i] <= 1
  {
    ReachableInv(c, pools, steps, k);
    Subset(InFn(pools[k]), InFlight(pools[k]));
  }

  lemma {:induction false} Subset(a: set<nat>, b: set<nat>)
    requires a <= b
    ensures |a| <= |b|
    decreases a
  {
    if x :| x in a {
      Subset(a - {x}, b - {x});
    }
  }

  // ---- Fail fast ----

  /** The target has not been called, and if it has a result then that of a skipped target. */
  predicate Uncalled(p: Pool, i: nat) {
    && i < |p.status| == |p.calls| && p.calls[i] == 0
    && match p.status[i]
       case Waiting => true
       case Launched => true
       case Finished(outcome) => outcome.Some? && IsContext(outcome.value) && !IsUnreachable(outcome.value)
       case Released(outcome) => outcome.Some? && IsContext(outcome.value) && !IsUnreachable(outcome.value)
       case _ => false
  }

  lemma StaysUncalled(c: Config, p: Pool, q: Pool, step: Step, i: nat)
    requires Next(c, p, q, step) && Uncalled(p, i) && p.ctx.Done? && IsCtxErr(p.ctx.err)
    ensures Uncalled(q, i)
  {
  }

  lemma UncalledYet(c: Config, p: Pool, i: nat)
    requires Inv(c, p) && i < |p.status| && (p.status[i].Waiting? || p.status[i].Launched?)
    ensures Uncalled(p, i)
  {
  }

  /** A target not yet past its check when the context is done is never called, and reads as skipped. */
  lemma {:induction false} NotCalledAfterCancel(c: Config, pools: seq<Pool>, steps: seq<Step>, k: nat, m: nat, i: nat)
    requires IsRun(c, pools, steps) && k <= m < |pools| && i < |pools[k].status|
    requires pools[k].ctx.Done? && (pools[k].status[i].Waiting? || pools[k].status[i].Launched?)
    ensures Uncalled(pools[m], i)
    decreases m
  {
    if m == k {
      ReachableInv(c, pools, steps, k);
      UncalledYet(c, pools[k], i);
    } else {
      NotCalledAfterCancel(c, pools, steps, k, m - 1, i);
      ContextStays(c, pools, steps, k, m - 1);
      assert Next(c, pools[m - 1], pools[m - 1 + 1], steps[m - 1]);
      StaysUncalled(c, pools[m - 1], pools[m], steps[m - 1], i);
    }
  }

  /** A done context stays done, and always with an error that is a context error and not an unreachable host. */
  lemma {:induction false} ContextStays(c: Config, pools: seq<Pool>, steps: seq<Step>, k: nat, m: nat)
    requires IsRun(c, pools, steps) && k <= m < |pools|
    ensures pools[k].ctx.Done? ==> pools[m].ctx == pools[k].ctx
    ensures pools[m].ctx.Done? ==> IsCtxErr(pools[m].ctx.err)
  {
    if m > 0 {
      assert Next(c, pools[m - 1], pools[m - 1 + 1], steps[m - 1]);
      ContextStays(c, pools, steps, if k < m then k else m - 1, m - 1);
    }
  }

  function OutcomeOf(s: Status): Option<Error> {
    match s
    case Failing(err) => Some(err)
    case Finished(outcome) => outcome
    case Released(outcome) => outcome
    case _ => None
  }

  ghost predicate HasHardFailure(p: Pool) {
    exists i :: 0 <= i < |p.status| && OutcomeOf(p.status[i]).Some? && !IsContext(OutcomeOf(p.status[i]).value)
  }

  ghost predicate HasFailure(p: Pool) {
    exists i :: 0 <= i < |p.status| && OutcomeOf(p.status[i]).Some?
  }

  /** The parent never cancels, and fn reports a context error only when its context is done. */
  ghost predicate Honest(pools: seq<Pool>, steps: seq<Step>)
    requires |pools| == |steps| + 1
  {
    forall k :: 0 <= k < |steps| ==>
      && !steps[k].ParentDone?
      && (steps[k].Return? && steps[k].err.Some? && IsContext(steps[k].err.value) ==> pools[k].ctx.Done?)
  }

  lemma OutcomesStay(c: Config, p: Pool, q: Pool, step: Step)
    requires Next(c, p, q, step) && HasHardFailure(p)
    ensures HasHardFailure(q)
  {
    var i :| 0 <= i < |p.status| && OutcomeOf(p.status[i]).Some? && !IsContext(OutcomeOf(p.status[i]).value);
    assert OutcomeOf(q.status[i]) == OutcomeOf(p.status[i]);
  }

  lemma NoNewFailure(c: Config, p: Pool, q: Pool, step: Step)
    requires Next(c, p, q, step) && !(step.Return? && step.err.Some?) && !step.ParentDone?
    ensures HasFailure(q) || q.ctx.Done? ==> HasFailure(p) || p.ctx.Done?
  {
    if step.Cancel? {
      assert OutcomeOf(p.status[step.i]).Some?;
    } else if !step.Skip? && HasFailure(q) {
      var i :| 0 <= i < |q.status| && OutcomeOf(q.status[i]).Some?;
      assert OutcomeOf(p.status[i]) == OutcomeOf(q.status[i]);
    }
  }

  lemma {:induction false} FailureHasCause(c: Config, pools: seq<Pool>, steps: seq<Step>, k: nat)
    requires IsRun(c, pools, steps) && Honest(pools, steps) && k < |pools|
    ensures HasFailure(pools[k]) || pools[k].ctx.Done? ==> HasHardFailure(pools[k])
  {
    if k > 0 {
      var p, q, step := pools[k - 1], pools[k], steps[k - 1];
      assert Next(c, p, pools[k - 1 + 1], step);
      FailureHasCause(c, pools, steps, k - 1);
      if HasHardFailure(p) {
        OutcomesStay(c, p, q, step);
      } else if step.Return? && step.err.Some? {
        assert OutcomeOf(q.status[step.i]) == step.err;
      } else {
        NoNewFailure(c, p, q, step);
      }
    }
  }

  /** The results of a finished run: one per target, in target order. */
  function Results(hosts: seq<string>, p: Pool): (r: seq<Result>)
    requires |hosts| == |p.status|
    ensures |r| == |hosts| && forall i :: 0 <= i < |hosts| ==> r[i] == Result(hosts[i], OutcomeOf(p.status[i]))
  {
    seq(|hosts|, i requires 0 <= i < |hosts| => Result(hosts[i], OutcomeOf(p.status[i])))
  }

  /** If any call fails, the error surfaced is a real failure, not a cancelled bystander. */
  method Surfaced(c: Config, hosts: seq<string>, ghost pools: seq<Pool>, ghost steps: seq<Step>, last: Pool)
    returns (err: Option<Error>)
    requires IsRun(c, pools, steps) && Honest(pools, steps) && last == pools[|pools| - 1] && |hosts| == c.n
    ensures err.Some? <==> HasFailure(last)
    ensures err.Some? ==> !IsContext(err.value)
  {
    ReachableInv(c, pools, steps, |pools| - 1);
    FailureHasCause(c, pools, steps, |pools| - 1);
    var results := Results(hosts, last);
    err := FirstError(results);
    if HasFailure(last) {
      var i :| 0 <= i < |last.status| && OutcomeOf(last.status[i]).Some? && !IsContext(OutcomeOf(last.status[i]).value);
      assert IsHard(results[i]);
    }
  }

  // ---- When the pool cancels ----

  /** A target whose call has failed, and whose goroutine is past cancelling. */
  predicate FailedCall(p: Pool, i: nat) {
    && i < |p.status| == |p.calls| && p.calls[i] == 1
    && (p.status[i].Finished? || p.status[i].Released?) && p.status[i].outcome.Some?
  }

  lemma NewlyFailedCancels(c: Config, p: Pool, q: Pool, step: Step, i: nat)
    requires Inv(c, p) && Next(c, p, q, step) && c.failFast && FailedCall(q, i) && !FailedCall(p, i)
    ensures q.ctx.Done?
  {
  }

  /** With fail-fast a failed call has cancelled the context, so that by then no further target is started. */
  lemma {:induction false} FailFastCancels(c: Config, pools: seq<Pool>, steps: seq<Step>, k: nat, i: nat)
    requires IsRun(c, pools, steps) && c.failFast && k < |pools| && FailedCall(pools[k], i)
    ensures pools[k].ctx.Done?
  {
    if k > 0 {
      var p, q, step := pools[k - 1], pools[k], steps[k - 1];
      assert Next(c, p, pools[k - 1 + 1], step);
      ReachableInv(c, pools, steps, k - 1);
      if FailedCall(p, i) {
        FailFastCancels(c, pools, steps, k - 1, i);
      } else {
        NewlyFailedCancels(c, p, q, step, i);
      }
    }
  }

  /** Without it, and with a live parent, nothing is ever cancelled and every target that is done was called. */
  lemma {:induction false} OtherwiseAllAreCalled(c: Config, pools: seq<Pool>, steps: seq<Step>, k: nat)
    requires IsRun(c, pools, steps) && !c.failFast && k < |pools|
    requires forall j :: 0 <= j < |steps| ==> !steps[j].ParentDone?
    ensures pools[k].ctx.Live? && |pools[k].status| == |pools[k].calls| == c.n
    ensures forall i :: 0 <= i < c.n ==> !pools[k].status[i].Failing?
    ensures forall i :: 0 <= i < c.n && (pools[k].status[i].Finished? || pools[k].status[i].Released?) ==>
              pools[k].calls[i] == 1
  {
    if k > 0 {
      assert Next(c, pools[k - 1], pools[k - 1 + 1], steps[k - 1]);
      OtherwiseAllAreCalled(c, pools, steps, k - 1);
      ReachableInv(c, pools, steps, k - 1);
    }
  }

  // ---- Every run ends, with a result for every target ----

  function Rank(s: Status): nat {
    match s
    case Waiting => 5
    case Launched => 4
    case Running => 3
    case Failing(_) => 2
    case Finished(_) => 1
    case Released(_) => 0
  }

  function Weight(status: seq<Status>): nat {
    if status == [] then 0 else Weight(status[..|status| - 1]) + Rank(status[|status| - 1])
  }

  lemma {:induction false} WeightUpdate(status: seq<Status>, i: nat, s: Status)
    requires i < |status|
    ensures Weight(status[i := s]) == Weight(status) - Rank(status[i]) + Rank(s)
    decreases |status|
  {
    var n := |status| - 1;
    if i == n {
      assert status[i := s][..n] == status[..n];
    } else {
      assert status[i := s][..n] == status[..n][i := s];
      WeightUpdate(status[..n], i, s);
    }
  }

  /** How many steps are left at most. */
  function Left(p: Pool): nat {
    Weight(p.status) + if p.ctx.Live? then 1 else 0
  }

  lemma StepsFall(c: Config, p: Pool, q: Pool, step: Step)
    requires Next(c, p, q, step)
    ensures Left(q) < Left(p)
  {
    if !step.ParentDone? {
      WeightUpdate(p.status, step.i, q.status[step.i]);
      assert q.status == p.status[step.i := q.status[step.i]];
    }
  }

  lemma {:induction false} WeightAtStart(status: seq<Status>)
    requires forall i :: 0 <= i < |status| ==> status[i] == Waiting
    ensures Weight(status) == 5 * |status|
  {
    if status != [] {
      WeightAtStart(status[..|status| - 1]);
    }
  }

  /** No run takes more than five steps for each target and one for the parent. */
  lemma {:induction false} RunsAreShort(c: Config, pools: seq<Pool>, steps: seq<Step>, k: nat)
    requires IsRun(c, pools, steps) && k < |pools|
    ensures k + Left(pools[k]) <= 5 * c.n + 1
  {
    if k == 0 {
      WeightAtStart(pools[0].status);
    } else {
      RunsAreShort(c, pools, steps, k - 1);
      assert Next(c, pools[k - 1], pools[k - 1 + 1], steps[k - 1]);
      StepsFall(c, pools[k - 1], pools[k], steps[k - 1]);
    }
  }

  /** Some goroutine, or the loop that launches them, can take a step. */
  ghost predicate CanMove(c: Config, p: Pool) {
    exists step, q :: Next(c, p, q, step) && !step.ParentDone?
  }

  lemma FlyingMoves(c: Config, p: Pool, i: nat)
    requires Inv(c, p) && i in InFlight(p)
    ensures CanMove(c, p)
  {
    match p.status[i]
    case Launched =>
      if p.ctx.Live? {
        assert Next(c, p, Set(p, i, Running).(calls := p.calls[i := p.calls[i] + 1]), Start(i));
      } else {
        assert Next(c, p, Set(p, i, Finished(Some(SkippedError(p.ctx)))), Skip(i));
      }
    case Running =>
      assert Next(c, p, Set(p, i, Finished(None)), Return(i, None));
    case Failing(err) =>
      assert Next(c, p, Set(p, i, Finished(Some(err)))
                        .(ctx := if p.ctx.Live? then Done(Canceled, Some(Wrapped("target failed", err))) else p.ctx),
                  Cancel(i));
    case Finished(outcome) =>
      assert |InFlight(p)| > 0;
      assert Next(c, p, Set(p, i, Released(outcome)).(slots := p.slots - 1), Release(i));
  }

  lemma {:induction false} FirstWaiting(p: Pool, n: nat) returns (i: nat)
    requires n <= |p.status| && exists j :: 0 <= j < n && p.status[j] == Waiting
    ensures i < n && p.status[i] == Waiting && forall j :: 0 <= j < i ==> p.status[j] != Waiting
  {
    if exists j :: 0 <= j < n - 1 && p.status[j] == Waiting {
      i := FirstWaiting(p, n - 1);
    } else {
      i := n - 1;
    }
  }

  /** As long as a target is not done the pool is not stuck. */
  lemma AlwaysMoves(c: Config, p: Pool, i: nat)
    requires Inv(c, p) && i < |p.status| && !p.status[i].Released?
    ensures CanMove(c, p)
  {
    if p.status[i] == Waiting {
      if p.slots < c.Limit() {
        var w := FirstWaiting(p, |p.status|);
        assert Next(c, p, Set(p, w, Launched).(slots := p.slots + 1), Launch(w));
      } else {
        assert InFlight(p) != {};
        var j :| j in InFlight(p);
        FlyingMoves(c, p, j);
      }
    } else {
      FlyingMoves(c, p, i);
    }
  }

  /** A target that is through was called once, or was skipped with a context error. */
  lemma {:induction false} CalledOrSkipped(c: Config, pools: seq<Pool>, steps: seq<Step>, k: nat, i: nat)
    requires IsRun(c, pools, steps) && k < |pools| && i < |pools[k].status| == |pools[k].calls|
    requires pools[k].status[i].Finished? || pools[k].status[i].Released?
    ensures pools[k].calls[i] == 1 || Uncalled(pools[k], i)
  {
    ReachableInv(c, pools, steps, k);
    if k > 0 {
      var p, q, step := pools[k - 1], pools[k], steps[k - 1];
      assert Next(c, p, pools[k - 1 + 1], step);
      ReachableInv(c, pools, steps, k - 1);
      ContextStays(c, pools, steps, k - 1, k - 1);
      if p.status[i].Finished? || p.status[i].Released? {
        CalledOrSkipped(c, pools, steps, k - 1, i);
      }
      ThroughNow(c, p, q, step, i);
    }
  }

  lemma ThroughNow(c: Config, p: Pool, q: Pool, step: Step, i: nat)
    requires Next(c, p, q, step) && Inv(c, p) && (p.ctx.Done? ==> IsCtxErr(p.ctx.err)) && i < c.n
    requires p.status[i].Finished? || p.status[i].Released? ==> p.calls[i] == 1 || Uncalled(p, i)
    requires |q.calls| == |q.status| == c.n && (q.status[i].Finished? || q.status[i].Released?)
    ensures q.calls[i] == 1 || Uncalled(q, i)
  {
  }

  /** A run that can go no further has every target done, each called once or skipped. */
  lemma StuckIsDone(c: Config, pools: seq<Pool>, steps: seq<Step>, i: nat)
    requires IsRun(c, pools, steps) && i < c.n && !CanMove(c, pools[|steps|])
    ensures var p := pools[|steps|];
            && |p.status| == |p.calls| == c.n && p.status[i].Released?
            && (p.calls[i] == 1 || Uncalled(p, i))
  {
    var p := pools[|steps|];
    ReachableInv(c, pools, steps, |steps|);
    if !p.status[i].Released? {
      AlwaysMoves(c, p, i);
    }
    CalledOrSkipped(c, pools, steps, |steps|, i);
  }
}
