/**
 The deploy lifecycle: one run from its first read to the deferred unlock, over an adversarial
 executor. Custom phases and hook tasks may do anything a task can do.
 */
module Deploy {
  import opened Common
  import opened Errors
  import opened Inventory
  import opened Deployfile
  import opened TaskGraph
  import opened Trace
  import opened Walks
  import opened Executor
  import P = Phases

  datatype Outcome = Done | SkippedHosts(hosts: set<string>) | Aborted(err: Error)

  // ---- The commands behind the steps ----

  function CommandsOf(action: P.Action): seq<Command> {
    match action
    case CheckStructure => [EnsureStructure]
    case BuildRelease => [EnsureMirror, CreateRelease, WriteRevision]
    case LinkRelease => [LinkShared]
    case PublishRelease => [Publish]
    case Finish => [LogRevision, Cleanup]
    case _ => []
  }

  /** The commands of the first n built-in steps. */
  function Due(n: nat): seq<Command>
    requires n <= |P.BASE|
  {
    if n == 0 then [] else Due(n - 1) + CommandsOf(P.BASE[n - 1].action)
  }

  lemma DueUntilBuilt()
    ensures Due(5) == [EnsureStructure, EnsureMirror, CreateRelease, WriteRevision]
  {
    assert Due(1) == Due(0) == [];
    assert Due(2) == [EnsureStructure];
    assert Due(4) == Due(3) == Due(2);
  }

  lemma DueUntilPublished()
    ensures Due(9) == Due(5) + [LinkShared, Publish]
  {
    DueNext(5);
    DueNext(6);
    DueNext(7);
    DueNext(8);
    OneThenOther(Due(5), LinkShared, Publish);
  }

  lemma OneThenOther(due: seq<Command>, a: Command, b: Command)
    ensures due + [a] + [b] == due + [a, b]
  {
  }

  lemma DueNext(n: nat)
    requires n < |P.BASE|
    ensures Due(n + 1) == Due(n) + CommandsOf(P.BASE[n].action)
    ensures CommandsOf(P.BASE[n].action) == [] ==> Due(n + 1) == Due(n)
  {
  }

  lemma DueIsLifecycle()
    ensures Due(|P.BASE|) == LIFECYCLE
  {
    DueUntilBuilt();
    DueUntilPublished();
    assert Due(11) == Due(10) == Due(9) + [LogRevision, Cleanup];
  }

  lemma {:induction false} DuePrefix(n: nat)
    requires n <= |P.BASE|
    ensures Due(n) <= LIFECYCLE
    decreases |P.BASE| - n
  {
    if n == |P.BASE| {
      DueIsLifecycle();
    } else {
      DuePrefix(n + 1);
    }
  }

  /** A built-in step brings its commands, a custom one none; only the first built-in step takes the lock. */
  lemma DueStep(s: P.Step, n: nat, next: nat)
    requires n <= next <= |P.BASE|
    requires if s.custom then next == n && (s.action.RunTask? || s.action.Nothing?)
             else next == n + 1 && s == P.BASE[n]
    ensures Due(next) == Due(n) + CommandsOf(s.action)
    ensures s.action.AcquireLock? <==> next == 1 && n == 0
    ensures CommandsOf(s.action) != [] ==> n > 0
  {
    if s.custom {
      assert Due(n) + [] == Due(n);
    }
  }

  /** Where a walk through the spliced steps stands among the built-in ones. */
  lemma NextBuiltIn(steps: seq<P.Step>, k: nat)
    requires Filter(steps, P.BuiltIn()) == P.BASE && k < |steps|
    ensures var n := |Filter(steps[..k], P.BuiltIn())|;
            && n <= |P.BASE|
            && (steps[k].custom ==> |Filter(steps[..k + 1], P.BuiltIn())| == n)
            && (!steps[k].custom ==>
                  n < |P.BASE| && steps[k] == P.BASE[n] && |Filter(steps[..k + 1], P.BuiltIn())| == n + 1)
  {
    var keep := P.BuiltIn();
    assert steps == steps[..k] + steps[k..];
    FilterAppend(steps[..k], steps[k..], keep);
    assert steps[..k + 1] == steps[..k] + [steps[k]];
    FilterAppend(steps[..k], [steps[k]], keep);
    if !steps[k].custom {
      assert Filter(steps[k..], keep)[0] == steps[k];
    }
  }

  /** How many built-in steps are among the first k. */
  function Passed(steps: seq<P.Step>, k: nat): nat
    requires k <= |steps|
  {
    |Filter(steps[..k], P.BuiltIn())|
  }

  /** The steps are the lifecycle with custom phases spliced in. */
  ghost predicate IsLifecycle(steps: seq<P.Step>) {
    && Filter(steps, P.BuiltIn()) == P.BASE
    && forall s :: s in steps && s.custom ==> s.action.RunTask? || s.action.Nothing?
  }

  /** What is due after the first k steps. */
  function DueAfter(steps: seq<P.Step>, k: nat): seq<Command>
    requires k <= |steps|
  {
    if k == 0 then [] else DueAfter(steps, k - 1) + CommandsOf(steps[k - 1].action)
  }

  lemma {:induction false} DueAfterIsDue(steps: seq<P.Step>, k: nat)
    requires IsLifecycle(steps) && k <= |steps|
    ensures Passed(steps, k) <= |P.BASE| && DueAfter(steps, k) == Due(Passed(steps, k))
  {
    if k == 0 {
      assert steps[..0] == [];
    } else {
      DueAfterIsDue(steps, k - 1);
      NextBuiltIn(steps, k - 1);
      assert steps[k - 1] in steps;
      DueStep(steps[k - 1], Passed(steps, k - 1), Passed(steps, k));
    }
  }

  /** The lifecycle read off the spliced steps: never more than LIFECYCLE, and all of it at the end. */
  lemma DueAfterBounds(steps: seq<P.Step>, k: nat)
    requires IsLifecycle(steps) && k <= |steps|
    ensures DueAfter(steps, k) <= LIFECYCLE
    ensures DueAfter(steps, |steps|) == LIFECYCLE
    ensures Passed(steps, 0) == 0 && Passed(steps, |steps|) > 0
  {
    DueAfterIsDue(steps, k);
    DuePrefix(Passed(steps, k));
    DueAfterIsDue(steps, |steps|);
    assert steps[..|steps|] == steps && steps[..0] == [];
    DueIsLifecycle();
  }

  /** The lock is taken by the first built-in step, and only steps after it have commands. */
  lemma LockComesFirst(steps: seq<P.Step>, k: nat)
    requires IsLifecycle(steps) && k < |steps|
    ensures steps[k].action.AcquireLock? ==> Passed(steps, k) == 0
    ensures CommandsOf(steps[k].action) != [] ==> Passed(steps, k) > 0
    ensures Passed(steps, k + 1) > 0 <==> Passed(steps, k) > 0 || steps[k].action.AcquireLock?
  {
    NextBuiltIn(steps, k);
    assert steps[k] in steps;
    DueStep(steps[k], Passed(steps, k), Passed(steps, k + 1));
  }

  lemma OneFewer(hosts: seq<Host>, dropped: set<string>, h: Host)
    requires h in hosts && h.address !in dropped
    ensures |FilterExcluded(hosts, dropped + {h.address})| < |FilterExcluded(hosts, dropped)|
  {
    FilterShrinks(hosts, NotIn(dropped), NotIn(dropped + {h.address}), h);
  }

  // ---- One run ----

  class Deployer {
    const ex: Executor
    const repo: string
    const customPhases: seq<CustomPhase>
    const hooksBefore: map<PhaseName, seq<string>>
    const hooksAfter: map<PhaseName, seq<string>>
    const funcsBefore: map<PhaseName, nat>         // how many plugin functions are registered for a phase
    const funcsAfter: map<PhaseName, nat>
    const skip: bool                               // on_unreachable is "skip"
    const required: set<string>
    const isCommitSHA: string -> bool

    var primary: string
    var prevSHA: string
    var locked: bool
    ghost var primaryHost: Host

    constructor (ex: Executor, repo: string, skip: bool,
                 hooksBefore: map<PhaseName, seq<string>>, hooksAfter: map<PhaseName, seq<string>>,
                 funcsBefore: map<PhaseName, nat>, funcsAfter: map<PhaseName, nat>, isCommitSHA: string -> bool)
      ensures this.ex == ex && !locked && customPhases == ex.cfg.customPhases
      ensures this.skip == skip && required == RequiredIn(ex.cfg.hosts)
    {
      this.ex, this.repo, this.skip, this.isCommitSHA := ex, repo, skip, isCommitSHA;
      this.hooksBefore, this.hooksAfter, this.funcsBefore, this.funcsAfter :=
        hooksBefore, hooksAfter, funcsBefore, funcsAfter;
      customPhases, required := ex.cfg.customPhases, RequiredIn(ex.cfg.hosts);
      primary, prevSHA, locked := "", "", false;
      primaryHost := Host("", [], "", 0, "", false, false, None, None);
    }

    predicate IsRequired(host: string)
      reads this`primary
    {
      host == primary || host in required
    }

    /** Holds from the start of the run to its end, on success and on failure. */
    ghost predicate Safe(due: seq<Command>)
      reads this, ex
    {
      && ex.Valid() && ex.out == ex.clusterOut
      && ex.skip == skip && ex.requiredHosts == required + {primary}
      && primaryHost in ex.eligible && primaryHost.address == primary
      && Barrier(ex.log)
      && Issued(ex.log) <= due
      && (ex.dryRun ==> Issued(ex.log) == [] && PhaseOf(ex.log) == Idle)
      && (!ex.dryRun && locked ==> PhaseOf(ex.log) == Held)
      && (!ex.dryRun && !locked ==> PhaseOf(ex.log) == Idle || PhaseOf(ex.log) == Refused)
    }

    /** Holds between steps that succeed: what is due has been done on every host still live. */
    ghost predicate OnTrack(due: seq<Command>)
      reads this, ex
    {
      && Safe(due)
      && (!ex.dryRun ==> Issued(ex.log) == due)
      && (!ex.dryRun && !locked ==> PhaseOf(ex.log) == Idle)
      && forall h :: h in ex.Hosts() ==> Completed(ex.log, h.address) == Issued(ex.log)
    }

    /** The primary survives, so some host always remains. */
    lemma HostsRemain(due: seq<Command>)
      requires Safe(due)
      ensures primaryHost in ex.Hosts() && |ex.Hosts()| > 0
    {
    }

    // ---- Why a run may fail ----

    /** A result that ends the run: under abort any failure, under skip one that must not be passed over. */
    predicate Fails(r: Result)
      reads this`primary
    {
      r.err.Some? && EndsRun(r.host, r.err.value)
    }

    predicate EndsRun(host: string, e: Error)
      reads this`primary
    {
      !skip || IsContext(e) || !IsUnreachable(e) || host == primary || host in required
    }

    ghost predicate StepFails(results: seq<Result>)
      reads this`primary
    {
      exists i :: 0 <= i < |results| && Fails(results[i])
    }

    /** An event that is reason enough for a run to fail. */
    ghost predicate Blames(e: Event)
      reads this`primary
    {
      match e
      case Lock(_, outcome) => outcome.Some?
      case Step(_, results) => StepFails(results)
      case Read(host, outcome) => outcome.Some? && EndsRun(host, outcome.value)
      case HookCall(outcome) => outcome.Some?
      case _ => false
    }

    ghost predicate Blamed()
      reads this`primary, ex`log
    {
      exists i :: 0 <= i < |ex.log| && Blames(ex.log[i])
    }

    /** A reason for a failure: an event, or a task body that failed after the first n. */
    ghost predicate Reason(n: nat)
      reads this`primary, ex`log, ex`bodies
    {
      Blamed() || BodyFailed(n)
    }

    ghost predicate BodyFailed(n: nat)
      reads ex`bodies
    {
      exists i :: n <= i < |ex.bodies| && !ex.bodies[i].ok
    }

    /** The hook tasks of a step, and its own, expand without a missing task or a cycle. */
    ghost predicate Sound(s: P.Step) {
      && ExpandAll(ex.Engine(), HooksAt(hooksBefore, s.phase), {}).ok
      && (s.action.RunTask? ==> Expand(ex.Engine(), s.action.task, {}).ok)
      && ExpandAll(ex.Engine(), HooksAt(hooksAfter, s.phase), {}).ok
    }

    ghost predicate AllSound(steps: seq<P.Step>) {
      forall k :: 0 <= k < |steps| ==> Sound(steps[k])
    }

    // ---- The steps ----

    /**
     Runs a built-in command on all live hosts under the run's policy: it is sent to exactly those, once, and the step
     fails exactly if a result ends the run.
     */
    method RunStep(command: Command, ghost due: seq<Command>) returns (err: Option<Error>, ghost results: seq<Result>)
      requires OnTrack(due) && locked
      modifies ex`unreachable, ex`clock, ex`log
      ensures err.None? ==> OnTrack(due + [command])
      ensures err.Some? ==> Safe(due + [command]) && Blamed()
      ensures ex.dryRun ==> err.None? && ex.log == old(ex.log)
      ensures !ex.dryRun ==>
                && ResultsOf(old(ex.Hosts()), results)
                && MarksOnly(old(ex.log) + [Step(command, results)], ex.log)
                && (err.None? <==> !StepFails(results))
      ensures AllWell(ex.world) ==> err.None? && ex.unreachable == old(ex.unreachable)
      ensures HookCalls(ex.log) == HookCalls(old(ex.log))
      ensures Reads(ex.log) >= Reads(old(ex.log))
    {
      var hosts := ex.Hosts();
      HostsRemain(due);
      LiveHosts(ex.eligible, ex.unreachable);
      if |hosts| == 0 {
        assert false;
        return Some(Plain("no reachable hosts remain")), [];
      }
      if skip {
        err, results := RunStepSkipping(command, hosts, due);
      } else {
        err, results := RunStepAborting(command, hosts, due);
      }
      NoHookCalls(old(ex.log), ex.log);
      ReadsGrow(old(ex.log), ex.log);
    }

    method RunStepAborting(command: Command, hosts: seq<Host>, ghost due: seq<Command>)
      returns (err: Option<Error>, ghost results: seq<Result>)
      requires OnTrack(due) && locked && !skip
      requires hosts == ex.Hosts() && hosts != [] && NoneIn(hosts, ex.unreachable)
      modifies ex`clock, ex`log
      ensures err.None? ==> OnTrack(due + [command])
      ensures err.Some? ==> Safe(due + [command]) && Blamed()
      ensures ex.dryRun ==> err.None? && ex.log == old(ex.log)
      ensures !ex.dryRun ==>
                && ResultsOf(hosts, results)
                && MarksOnly(old(ex.log) + [Step(command, results)], ex.log)
                && (err.None? <==> !StepFails(results))
      ensures AllWell(ex.world) ==> err.None?
    {
      err, results := ex.RunOn(hosts, OnAll(command));
      if !ex.dryRun {
        StepLogged(old(ex.log), command, hosts, results);
        assert ex.log[|old(ex.log)|] == Step(command, results);
      }
    }

    method RunStepSkipping(command: Command, hosts: seq<Host>, ghost due: seq<Command>)
      returns (err: Option<Error>, ghost results: seq<Result>)
      requires OnTrack(due) && locked && skip
      requires hosts == ex.Hosts() && hosts != [] && NoneIn(hosts, ex.unreachable)
      modifies ex`unreachable, ex`clock, ex`log
      ensures err.None? ==> OnTrack(due + [command])
      ensures err.Some? ==> Safe(due + [command]) && Blamed()
      ensures ex.dryRun ==> err.None? && ex.log == old(ex.log)
      ensures !ex.dryRun ==>
                && ResultsOf(hosts, results)
                && MarksOnly(old(ex.log) + [Step(command, results)], ex.log)
                && (err.None? <==> !StepFails(results))
      ensures AllWell(ex.world) ==> err.None? && ex.unreachable == old(ex.unreachable)
    {
      var rs := ex.RunOnReport(hosts, OnAll(command));
      results := rs;
      if !ex.dryRun {
        StepLogged(old(ex.log), command, hosts, results);
      }
      err := DropFailed(hosts, rs, due + [command]);
      if err.None? {
        HostsRemain(due + [command]);
        if |ex.Hosts()| == 0 {
          assert false;
          return Some(Plain("all hosts became unreachable")), results;
        }
      } else {
        assert ex.log[|old(ex.log)|] == Step(command, results);
      }
    }

    /** After a command was sent: the hosts it failed on are dropped, and every host left has completed it. */
    method DropFailed(hosts: seq<Host>, results: seq<Result>, ghost due: seq<Command>) returns (err: Option<Error>)
      requires Safe(due) && locked && skip && hosts == ex.Hosts()
      requires !ex.dryRun ==> ResultsOf(hosts, results) && Issued(ex.log) == due
      requires !ex.dryRun ==>
                 forall i :: 0 <= i < |hosts| && results[i].err.None? ==> Completed(ex.log, hosts[i].address) == due
      requires ex.dryRun ==> results == [] && forall h :: h in hosts ==> Completed(ex.log, h.address) == []
      modifies ex`unreachable, ex`log
      ensures err.None? ==> OnTrack(due)
      ensures err.Some? ==> Safe(due)
      ensures err.None? <==> !StepFails(results)
      ensures MarksOnly(old(ex.log), ex.log)
      ensures AllSucceeded(results) ==> ex.unreachable == old(ex.unreachable) && ex.log == old(ex.log)
    {
      var p, r := primary, required;
      var live;
      live, err := ex.SkipUnreachable(hosts, results, (h: string) => h == p || h in r);
      StaysOnTrack(due);
      HooksOnlyKeep(old(ex.log), ex.log);
      if err.Some? {
        return;
      }
      forall h | h in ex.Hosts()
        ensures Completed(ex.log, h.address) == Issued(ex.log)
      {
        assert h in hosts;
        if !ex.dryRun {
          SurvivorSucceeded(hosts, results, h);
        }
      }
    }

    /**
     Reads a value off the first live host; under skip an unreachable one is dropped and the next is tried. What is
     returned is the last answer, given by the host that is then the first live one.
     */
    method CaptureLive(ghost due: seq<Command>) returns (c: Captured)
      requires OnTrack(due) && locked
      modifies ex`unreachable, ex`clock, ex`log
      ensures OnTrack(due) && Answered(c)
      ensures c.err.Some? ==> Blamed()
      ensures AllWell(ex.world) ==> c.err.None? && ex.unreachable == old(ex.unreachable)
      ensures HookCalls(ex.log) == HookCalls(old(ex.log))
      ensures Reads(ex.log) > Reads(old(ex.log))
    {
      while true
        invariant OnTrack(due)
        invariant AllWell(ex.world) ==> ex.unreachable == old(ex.unreachable)
        invariant HookCalls(ex.log) == HookCalls(old(ex.log)) && Reads(ex.log) >= Reads(old(ex.log))
        decreases |ex.Hosts()|
      {
        var hosts := ex.Hosts();
        HostsRemain(due);
        if |hosts| == 0 {
          assert false;
          return Captured("", Some(Plain("no reachable hosts remain")));
        }
        var again;
        c, again := AskFirst(hosts[0], due);
        if !again {
          return;
        }
      }
    }

    /** The answer is the last one, of the first live host; a failure is one for which the host may not be dropped. */
    ghost predicate Answered(c: Captured)
      reads this, ex
    {
      && ex.Hosts() != [] && ex.log != [] && Last(ex.log) == Read(ex.Hosts()[0].address, c.err)
      && ex.clock.asked > 0 && c == ex.world.captured(ex.clock.asked - 1)
      && (c.err.Some? ==> EndsRun(ex.Hosts()[0].address, c.err.value))
    }

    /** Asks the first live host; on a failure to reach it under skip it is dropped, and the next is to be asked. */
    method AskFirst(host: Host, ghost due: seq<Command>) returns (c: Captured, again: bool)
      requires OnTrack(due) && ex.Hosts() != [] && host == ex.Hosts()[0]
      modifies ex`unreachable, ex`clock, ex`log
      ensures OnTrack(due)
      ensures if again then |ex.Hosts()| < |old(ex.Hosts())| else Answered(c)
      ensures !again ==> ex.unreachable == old(ex.unreachable)
      ensures AllWell(ex.world) ==> !again
      ensures HookCalls(ex.log) == HookCalls(old(ex.log))
      ensures Reads(ex.log) > Reads(old(ex.log))
    {
      assert host in ex.Hosts();
      c := ReadOff(host, due);
      again := false;
      if c.err.Some? {
        var e := c.err.value;
        if skip && IsUnreachable(e) && !IsContext(e) && !IsRequired(host.address) {
          Drop(host, due);
          again := true;
        }
      }
    }

    method ReadOff(host: Host, ghost due: seq<Command>) returns (c: Captured)
      requires OnTrack(due) && host in ex.Hosts()
      modifies ex`clock, ex`log
      ensures OnTrack(due) && ex.log != [] && Last(ex.log) == Read(host.address, c.err)
      ensures ex.clock == old(ex.clock).Later(1) && c == ex.world.captured(old(ex.clock.asked))
      ensures HookCalls(ex.log) == HookCalls(old(ex.log))
      ensures Reads(ex.log) == Reads(old(ex.log)) + 1
    {
      c := ex.Capture(host);
      ReadKeeps(old(ex.log), host.address, c.err);
    }

    method Drop(host: Host, ghost due: seq<Command>)
      requires OnTrack(due) && skip && host in ex.Hosts() && !IsRequired(host.address)
      modifies ex`unreachable, ex`log
      ensures OnTrack(due) && |ex.Hosts()| < |old(ex.Hosts())|
      ensures HookCalls(ex.log) == HookCalls(old(ex.log))
      ensures Reads(ex.log) >= Reads(old(ex.log))
    {
      OneFewer(ex.eligible, ex.unreachable, host);
      ex.MarkUnreachable(host.address);
      StaysOnTrack(due);
      NoHookCalls(old(ex.log), ex.log);
      ReadsGrow(old(ex.log), ex.log);
    }

    /** What hooks do leaves a run safe, and on track if it was. */
    twostate lemma StaysOnTrack(due: seq<Command>)
      requires old(Safe(due)) && ex.Valid() && ex.out == ex.clusterOut
      requires ex.skip == old(ex.skip) && ex.requiredHosts == old(ex.requiredHosts)
      requires primary == old(primary) && primaryHost == old(primaryHost) && locked == old(locked)
      requires HooksOnly(old(ex.log), ex.log) && old(ex.unreachable) <= ex.unreachable
      ensures Safe(due) && (old(OnTrack(due)) ==> OnTrack(due))
    {
      HooksOnlyKeep(old(ex.log), ex.log);
    }

    function HooksAt(tasks: map<PhaseName, seq<string>>, phase: PhaseName): seq<string> {
      if phase in tasks then tasks[phase] else []
    }

    /** The task bodies the hooks of a phase come down to. */
    ghost function HookBodies(tasks: map<PhaseName, seq<string>>, phase: PhaseName): seq<string> {
      ExpandAll(ex.Engine(), HooksAt(tasks, phase), {}).names
    }

    /** The task bodies of one step: before-hooks, a custom phase's own task, after-hooks. */
    ghost function StepBodies(s: P.Step): seq<string> {
      HookBodies(hooksBefore, s.phase) + OwnBodies(s) + HookBodies(hooksAfter, s.phase)
    }

    ghost function OwnBodies(s: P.Step): seq<string> {
      if s.action.RunTask? then Expand(ex.Engine(), s.action.task, {}).names else []
    }

    ghost function AllBodies(steps: seq<P.Step>): seq<string> {
      if steps == [] then [] else AllBodies(steps[..|steps| - 1]) + StepBodies(steps[|steps| - 1])
    }

    /** Hooks of a phase: its tasks in order, then its plugin functions, up to the first failure. */
    method RunHooks(tasks: map<PhaseName, seq<string>>, funcs: map<PhaseName, nat>, phase: PhaseName)
      returns (err: Option<Error>)
      requires ex.Valid() && ex.out == ex.clusterOut
      modifies ex`unreachable, ex`clock, ex`log, ex`taskState, ex`bodies
      modifies ex`out, ex`clusterOut, ex`capture, ex`logTask, ex`phase
      ensures ex.Valid() && ex.out == ex.clusterOut
      ensures HooksOnly(old(ex.log), ex.log) && old(ex.unreachable) <= ex.unreachable
      ensures err.None? ==> Grew(old(ex.bodies), ex.bodies, HookBodies(tasks, phase))
      ensures old(ex.bodies) <= ex.bodies && Under(ex.bodies[|old(ex.bodies)|..], Some(phase))
      ensures err.None? ==> HookCalls(ex.log) == HookCalls(old(ex.log)) + FuncsAt(funcs, phase)
      ensures err.Some? ==> Reason(|old(ex.bodies)|) || !ExpandAll(ex.Engine(), HooksAt(tasks, phase), {}).ok
      ensures || Grew(old(ex.bodies), ex.bodies, HookBodies(tasks, phase))
              || BodyFailed(|old(ex.bodies)|) || !ExpandAll(ex.Engine(), HooksAt(tasks, phase), {}).ok
      ensures AllWell(ex.world) && ExpandAll(ex.Engine(), HooksAt(tasks, phase), {}).ok ==> err.None?
      ensures AllWell(ex.world) ==> ex.unreachable == old(ex.unreachable)
    {
      err := RunHookTasks(HooksAt(tasks, phase), phase);
      if err.None? {
        ghost var mid := ex.log;
        err := CallHooks(FuncsAt(funcs, phase));
        HooksOnlyThen(old(ex.log), mid, ex.log);
      }
    }

    function FuncsAt(funcs: map<PhaseName, nat>, phase: PhaseName): nat {
      if phase in funcs then funcs[phase] else 0
    }

    method RunHookTasks(names: seq<string>, phase: PhaseName) returns (err: Option<Error>)
      requires ex.Valid() && ex.out == ex.clusterOut
      modifies ex`unreachable, ex`clock, ex`log, ex`taskState, ex`bodies
      modifies ex`out, ex`clusterOut, ex`capture, ex`logTask, ex`phase
      ensures ex.Valid() && ex.out == ex.clusterOut
      ensures TaskOnly(old(ex.log), ex.log) && old(ex.unreachable) <= ex.unreachable
      ensures err.None? ==> Grew(old(ex.bodies), ex.bodies, ExpandAll(ex.Engine(), names, {}).names)
      ensures old(ex.bodies) <= ex.bodies && Under(ex.bodies[|old(ex.bodies)|..], Some(phase))
      ensures HookCalls(ex.log) == HookCalls(old(ex.log))
      ensures err.Some? ==> BodyFailed(|old(ex.bodies)|) || !ExpandAll(ex.Engine(), names, {}).ok
      ensures AllWell(ex.world) && ExpandAll(ex.Engine(), names, {}).ok ==> err.None?
      ensures AllWell(ex.world) ==> ex.unreachable == old(ex.unreachable)
    {
      GrewNothing(ex.bodies);
      for i := 0 to |names|
        invariant ex.Valid() && ex.out == ex.clusterOut
        invariant TaskOnly(old(ex.log), ex.log) && old(ex.unreachable) <= ex.unreachable
        invariant ExpandAll(ex.Engine(), names[..i], {}).ok
        invariant old(ex.bodies) <= ex.bodies && Under(ex.bodies[|old(ex.bodies)|..], Some(phase))
        invariant HookCalls(ex.log) == HookCalls(old(ex.log))
        invariant Grew(old(ex.bodies), ex.bodies, ExpandAll(ex.Engine(), names[..i], {}).names)
        invariant AllWell(ex.world) ==> ex.unreachable == old(ex.unreachable)
      {
        ghost var mid, midLog, e := ex.bodies, ex.log, Expand(ex.Engine(), names[i], {});
        err := ex.RunTaskInPhase(names[i], phase);
        TaskOnlyThen(old(ex.log), midLog, ex.log);
        NoHookCalls(midLog, ex.log);
        Continued(old(ex.bodies), mid, ex.bodies);
        if err.Some? {
          FailedFor(e, mid, ex.bodies);
          NotAllOk(ex.Engine(), names, i);
          return;
        }
        RanToTheEnd(e, mid, ex.bodies);
        ExpandAllSnoc(ex.Engine(), names, i, {});
        GrewThen(old(ex.bodies), mid, ex.bodies, ExpandAll(ex.Engine(), names[..i], {}).names, e.names);
      }
      assert names[..|names|] == names;
      err := None;
    }

    /** The functions plugins have registered for the phase. */
    method CallHooks(count: nat) returns (err: Option<Error>)
      requires ex.Valid()
      modifies ex`clock, ex`log
      ensures ex.Valid() && HooksOnly(old(ex.log), ex.log)
      ensures err.Some? ==> Blamed()
      ensures err.None? ==> HookCalls(ex.log) == HookCalls(old(ex.log)) + count
      ensures AllWell(ex.world) ==> err.None?
    {
      for i := 0 to count
        invariant ex.Valid() && HooksOnly(old(ex.log), ex.log)
        invariant HookCalls(ex.log) == HookCalls(old(ex.log)) + i
      {
        ghost var mid := ex.log;
        err := ex.CallHook();
        Snoc(mid, HookCall(err));
        if err.Some? {
          assert Blames(ex.log[|mid|]);
          return;
        }
      }
      err := None;
    }

    /** With the mirror updated: the deployed revision off a live host, and what changed since the previous one. */
    method ReadRevisions(ghost due: seq<Command>) returns (err: Option<Error>, ghost sha: string)
      requires OnTrack(due) && locked
      modifies ex`unreachable, ex`clock, ex`log
      ensures OnTrack(due)
      ensures err.Some? ==> Blamed()
      ensures AllWell(ex.world) ==> err.None? && ex.unreachable == old(ex.unreachable)
      ensures HookCalls(ex.log) == HookCalls(old(ex.log))
      ensures !ex.dryRun ==> Reads(ex.log) > Reads(old(ex.log))
      ensures !ex.dryRun && err.None? ==> exists t: nat :: ex.world.captured(t) == Captured(sha, None)
      ensures !ex.dryRun && err.None? && prevSHA != "" && prevSHA != sha && isCommitSHA(sha) ==>
                Reads(ex.log) > Reads(old(ex.log)) + 1
    {
      if ex.dryRun {
        return None, "";
      }
      var c := CaptureLive(due);
      if c.err.Some? {
        return Some(Wrapped("resolve commit hash", c.err.value)), "";
      }
      sha := c.text;
      if prevSHA != "" && prevSHA != c.text && isCommitSHA(c.text) {
        HostsRemain(due);
        assert ex.Hosts()[0] in ex.Hosts();
        var _ := ReadOff(ex.Hosts()[0], due);
      }
      err := None;
    }

    /** deploy:updating: the mirror, the revision and changelog reads, the release, its revision file. */
    method Build(ghost due: seq<Command>) returns (err: Option<Error>)
      requires OnTrack(due) && locked
      modifies ex`unreachable, ex`clock, ex`log
      ensures err.None? ==> OnTrack(due + CommandsOf(P.BuildRelease))
      ensures err.Some? ==> Safe(due + CommandsOf(P.BuildRelease)) && Blamed()
      ensures AllWell(ex.world) ==> err.None? && ex.unreachable == old(ex.unreachable)
      ensures HookCalls(ex.log) == HookCalls(old(ex.log))
      ensures err.None? && !ex.dryRun ==> Reads(ex.log) > Reads(old(ex.log))
    {
      ghost var due1, all := due + [EnsureMirror], due + CommandsOf(P.BuildRelease);
      assert due1 + [CreateRelease, WriteRevision] == all;
      ghost var results;
      err, results := RunStep(EnsureMirror, due);
      if err.None? {
        ghost var sha;
        err, sha := ReadRevisions(due1);
      }
      if err.Some? {
        SafeWeakens(due1, all);
        return;
      }
      err := RunTwo(CreateRelease, WriteRevision, due1);
    }

    /** Two built-in commands one after the other. */
    method RunTwo(first: Command, second: Command, ghost due: seq<Command>) returns (err: Option<Error>)
      requires OnTrack(due) && locked
      modifies ex`unreachable, ex`clock, ex`log
      ensures err.None? ==> OnTrack(due + [first, second])
      ensures err.Some? ==> Safe(due + [first, second]) && Blamed()
      ensures AllWell(ex.world) ==> err.None? && ex.unreachable == old(ex.unreachable)
      ensures HookCalls(ex.log) == HookCalls(old(ex.log))
      ensures Reads(ex.log) >= Reads(old(ex.log))
    {
      OneThenOther(due, first, second);
      ghost var results;
      err, results := RunStep(first, due);
      if err.None? {
        err, results := RunStep(second, due + [first]);
      } else {
        SafeWeakens(due + [first], due + [first, second]);
      }
    }

    method Finish(ghost due: seq<Command>) returns (err: Option<Error>)
      requires OnTrack(due) && locked
      modifies ex`unreachable, ex`clock, ex`log
      ensures err.None? ==> OnTrack(due + CommandsOf(P.Finish))
      ensures err.Some? ==> Safe(due + CommandsOf(P.Finish)) && Blamed()
      ensures AllWell(ex.world) ==> err.None? && ex.unreachable == old(ex.unreachable)
      ensures HookCalls(ex.log) == HookCalls(old(ex.log))
    {
      err := RunTwo(LogRevision, Cleanup, due);
    }

    /** The lock is taken on the primary only; the run counts as holding it only if the command succeeded. */
    method AcquireLock(primaries: seq<Host>, ghost due: seq<Command>) returns (err: Option<Error>)
      requires OnTrack(due) && !locked && primaries == [primaryHost]
      modifies this`locked, ex`clock, ex`log
      ensures err.None? ==> OnTrack(due) && locked
      ensures err.Some? ==> Safe(due) && !locked && PhaseOf(ex.log) == Refused && Blamed()
      ensures AllWell(ex.world) ==> err.None?
      ensures HookCalls(ex.log) == HookCalls(old(ex.log))
      ensures !ex.dryRun ==> ex.log != [] && Last(ex.log).Lock? && Last(ex.log).primary == primary
    {
      ghost var results;
      err, results := ex.RunOn(primaries, TakeLock);
      NoHookCalls(old(ex.log), ex.log);
      if !ex.dryRun {
        LockLogged(old(ex.log), results[0].host, results[0].err);
      }
      if err.Some? {
        assert Blames(ex.log[|old(ex.log)|]);
        return;
      }
      locked := true;
    }

    /** Whatever hook tasks do, and whether or not they fail, the lifecycle stays on track. */
    method PhaseHooks(tasks: map<PhaseName, seq<string>>, funcs: map<PhaseName, nat>, phase: PhaseName,
                      ghost due: seq<Command>)
      returns (err: Option<Error>)
      requires Safe(due)
      modifies ex`unreachable, ex`clock, ex`log, ex`taskState, ex`bodies
      modifies ex`out, ex`clusterOut, ex`capture, ex`logTask, ex`phase
      ensures Safe(due)
      ensures old(OnTrack(due)) ==> OnTrack(due)
      ensures err.None? ==> Grew(old(ex.bodies), ex.bodies, HookBodies(tasks, phase))
      ensures old(ex.bodies) <= ex.bodies && HooksOnly(old(ex.log), ex.log)
      ensures Under(ex.bodies[|old(ex.bodies)|..], Some(phase))
      ensures err.None? ==> HookCalls(ex.log) == HookCalls(old(ex.log)) + FuncsAt(funcs, phase)
      ensures err.Some? ==> Reason(|old(ex.bodies)|) || !ExpandAll(ex.Engine(), HooksAt(tasks, phase), {}).ok
      ensures || Grew(old(ex.bodies), ex.bodies, HookBodies(tasks, phase))
              || BodyFailed(|old(ex.bodies)|) || !ExpandAll(ex.Engine(), HooksAt(tasks, phase), {}).ok
      ensures AllWell(ex.world) && ExpandAll(ex.Engine(), HooksAt(tasks, phase), {}).ok ==> err.None?
      ensures AllWell(ex.world) ==> ex.unreachable == old(ex.unreachable)
    {
      err := RunHooks(tasks, funcs, phase);
      StaysOnTrack(due);
    }

    method CustomTask(task: string, phase: PhaseName, ghost due: seq<Command>) returns (err: Option<Error>)
      requires OnTrack(due)
      modifies ex`unreachable, ex`clock, ex`log, ex`taskState, ex`bodies
      modifies ex`out, ex`clusterOut, ex`capture, ex`logTask, ex`phase
      ensures OnTrack(due)
      ensures err.None? ==> Grew(old(ex.bodies), ex.bodies, Expand(ex.Engine(), task, {}).names)
      ensures old(ex.bodies) <= ex.bodies && Under(ex.bodies[|old(ex.bodies)|..], Some(phase))
      ensures err.Some? ==> Reason(|old(ex.bodies)|) || !Expand(ex.Engine(), task, {}).ok
      ensures AllWell(ex.world) && Expand(ex.Engine(), task, {}).ok ==> err.None?
      ensures AllWell(ex.world) ==> ex.unreachable == old(ex.unreachable)
      ensures HookCalls(ex.log) == HookCalls(old(ex.log))
    {
      err := ex.RunTaskInPhase(task, phase);
      NoHookCalls(old(ex.log), ex.log);
      StaysOnTrack(due);
      if err.Some? {
        FailedFor(Expand(ex.Engine(), task, {}), old(ex.bodies), ex.bodies);
      } else {
        RanToTheEnd(Expand(ex.Engine(), task, {}), old(ex.bodies), ex.bodies);
      }
    }

    /** The built-in command or custom task of one step. */
    method Perform(s: P.Step, primaries: seq<Host>, ghost due: seq<Command>) returns (err: Option<Error>)
      requires OnTrack(due) && primaries == [primaryHost]
      requires s.action.AcquireLock? ==> !locked
      requires CommandsOf(s.action) != [] ==> locked
      modifies this`locked, ex`unreachable, ex`clock, ex`log, ex`taskState, ex`bodies
      modifies ex`out, ex`clusterOut, ex`capture, ex`logTask, ex`phase
      ensures err.None? ==> OnTrack(due + CommandsOf(s.action))
      ensures err.None? ==> locked == (old(locked) || s.action.AcquireLock?)
      ensures err.Some? ==> Safe(due + CommandsOf(s.action))
      ensures err.None? ==> Grew(old(ex.bodies), ex.bodies, OwnBodies(s))
      ensures old(ex.bodies) <= ex.bodies && Under(ex.bodies[|old(ex.bodies)|..], Some(s.phase))
      ensures HookCalls(ex.log) == HookCalls(old(ex.log))
      ensures err.Some? ==> Reason(|old(ex.bodies)|) || !Sound(s)
      ensures AllWell(ex.world) && Sound(s) ==> err.None?
      ensures AllWell(ex.world) ==> ex.unreachable == old(ex.unreachable)
    {
      ghost var results;
      err := None;
      GrewNothing(ex.bodies);
      match s.action {
        case Nothing =>
          assert due + [] == due;
        case AcquireLock =>
          assert due + [] == due;
          err := AcquireLock(primaries, due);
        case CheckStructure =>
          err, results := RunStep(EnsureStructure, due);
        case BuildRelease =>
          err := Build(due);
        case LinkRelease =>
          err, results := RunStep(LinkShared, due);
        case PublishRelease =>
          err, results := RunStep(Publish, due);
        case Finish =>
          err := Finish(due);
        case RunTask(task) =>
          assert due + [] == due;
          err := CustomTask(task, s.phase, due);
      }
    }

    /** One step: its before-hooks, its command, its after-hooks. */
    method StepThrough(s: P.Step, primaries: seq<Host>, ghost due: seq<Command>) returns (err: Option<Error>)
      requires OnTrack(due) && primaries == [primaryHost]
      requires s.action.AcquireLock? ==> !locked
      requires CommandsOf(s.action) != [] ==> locked
      modifies this`locked, ex`unreachable, ex`clock, ex`log, ex`taskState, ex`bodies
      modifies ex`out, ex`clusterOut, ex`capture, ex`logTask, ex`phase
      ensures err.None? ==> OnTrack(due + CommandsOf(s.action))
      ensures err.None? ==> locked == (old(locked) || s.action.AcquireLock?)
      ensures err.Some? ==> Safe(due + CommandsOf(s.action))
      ensures err.None? ==> Grew(old(ex.bodies), ex.bodies, StepBodies(s))
      ensures old(ex.bodies) <= ex.bodies && Under(ex.bodies[|old(ex.bodies)|..], Some(s.phase))
      ensures err.None? ==>
                HookCalls(ex.log) ==
                HookCalls(old(ex.log)) + FuncsAt(funcsBefore, s.phase) + FuncsAt(funcsAfter, s.phase)
      ensures err.Some? ==> Reason(|old(ex.bodies)|) || !Sound(s)
      ensures AllWell(ex.world) && Sound(s) ==> err.None?
      ensures AllWell(ex.world) ==> ex.unreachable == old(ex.unreachable)
    {
      err := PhaseHooks(hooksBefore, funcsBefore, s.phase, due);
      if err.Some? {
        return;
      }
      ghost var hooked := ex.bodies;
      err := Perform(s, primaries, due);
      Continued(old(ex.bodies), hooked, ex.bodies);
      if err.Some? {
        return;
      }
      ghost var performed := ex.bodies;
      GrewThen(old(ex.bodies), hooked, performed, HookBodies(hooksBefore, s.phase), OwnBodies(s));
      err := PhaseHooks(hooksAfter, funcsAfter, s.phase, due + CommandsOf(s.action));
      Continued(old(ex.bodies), performed, ex.bodies);
      if err.None? {
        GrewThen(old(ex.bodies), performed, ex.bodies,
                 HookBodies(hooksBefore, s.phase) + OwnBodies(s), HookBodies(hooksAfter, s.phase));
      }
    }

    /** The plugin functions called for one step: those for before its phase and those for after it. */
    ghost function StepCalls(s: P.Step): nat {
      FuncsAt(funcsBefore, s.phase) + FuncsAt(funcsAfter, s.phase)
    }

    ghost function AllCalls(steps: seq<P.Step>): nat {
      if steps == [] then 0 else AllCalls(steps[..|steps| - 1]) + StepCalls(steps[|steps| - 1])
    }

    lemma AllBodiesSnoc(steps: seq<P.Step>, k: nat)
      requires k < |steps|
      ensures AllBodies(steps[..k + 1]) == AllBodies(steps[..k]) + StepBodies(steps[k])
      ensures AllCalls(steps[..k + 1]) == AllCalls(steps[..k]) + StepCalls(steps[k])
    {
      var upTo := steps[..k + 1];
      assert upTo[..|upTo| - 1] == steps[..k] && upTo[|upTo| - 1] == steps[k];
    }

    lemma {:induction false} AllBodiesAppend(a: seq<P.Step>, b: seq<P.Step>)
      ensures AllBodies(a + b) == AllBodies(a) + AllBodies(b)
      decreases |b|
    {
      if b == [] {
        assert a + b == a;
      } else {
        var init := b[..|b| - 1];
        assert (a + b)[..|a + b| - 1] == a + init;
        AllBodiesAppend(a, init);
        Regroup(AllBodies(a), AllBodies(init), StepBodies(b[|b| - 1]));
      }
    }

    /** Where the bodies of a step stand among all that run. */
    lemma BodiesAround(steps: seq<P.Step>, k: nat)
      requires k < |steps|
      ensures AllBodies(steps) == AllBodies(steps[..k]) + StepBodies(steps[k]) + AllBodies(steps[k + 1..])
    {
      assert steps == steps[..k + 1] + steps[k + 1..];
      AllBodiesAppend(steps[..k + 1], steps[k + 1..]);
      AllBodiesSnoc(steps, k);
    }

    /**
     They are the tasks hooked before its phase, the task of a custom phase, and the tasks hooked after its phase, each
     with all that it brings.
     */
    lemma StepBodiesAre(s: P.Step)
      ensures var ts := ex.Engine();
              var before := if s.phase in hooksBefore then hooksBefore[s.phase] else [];
              var own := if s.action.RunTask? then [s.action.task] else [];
              var after := if s.phase in hooksAfter then hooksAfter[s.phase] else [];
              StepBodies(s) ==
              ExpandAll(ts, before, {}).names + ExpandAll(ts, own, {}).names + ExpandAll(ts, after, {}).names
    {
      if s.action.RunTask? {
        OneOfOne(ex.Engine(), s.action.task);
      }
    }

    lemma SafeWeakens(due: seq<Command>, more: seq<Command>)
      requires Safe(due) && due <= more
      ensures Safe(more)
    {
    }

    method RunStepAt(steps: seq<P.Step>, k: nat, primaries: seq<Host>) returns (err: Option<Error>)
      requires IsLifecycle(steps) && k < |steps| && primaries == [primaryHost]
      requires OnTrack(DueAfter(steps, k)) && (locked <==> Passed(steps, k) > 0)
      modifies this`locked, ex`unreachable, ex`clock, ex`log, ex`taskState, ex`bodies
      modifies ex`out, ex`clusterOut, ex`capture, ex`logTask, ex`phase
      ensures err.None? ==> OnTrack(DueAfter(steps, k + 1)) && (locked <==> Passed(steps, k + 1) > 0)
      ensures err.None? ==> Grew(old(ex.bodies), ex.bodies, StepBodies(steps[k]))
      ensures err.Some? ==> Safe(LIFECYCLE)
      ensures old(ex.bodies) <= ex.bodies
      ensures err.None? ==> HookCalls(ex.log) == HookCalls(old(ex.log)) + StepCalls(steps[k])
      ensures err.Some? ==> Reason(|old(ex.bodies)|) || !Sound(steps[k])
      ensures AllWell(ex.world) && Sound(steps[k]) ==> err.None?
      ensures AllWell(ex.world) ==> ex.unreachable == old(ex.unreachable)
    {
      LockComesFirst(steps, k);
      err := StepThrough(steps[k], primaries, DueAfter(steps, k));
      if err.Some? {
        DueAfterBounds(steps, k + 1);
        SafeWeakens(DueAfter(steps, k + 1), LIFECYCLE);
      }
    }

    /** All steps in order, up to the first that fails. */
    method RunSteps(steps: seq<P.Step>, primaries: seq<Host>) returns (err: Option<Error>)
      requires OnTrack([]) && !locked && primaries == [primaryHost]
      requires IsLifecycle(steps)
      modifies this`locked, ex`unreachable, ex`clock, ex`log, ex`taskState, ex`bodies
      modifies ex`out, ex`clusterOut, ex`capture, ex`logTask, ex`phase
      ensures Safe(LIFECYCLE)
      ensures err.None? ==> OnTrack(LIFECYCLE) && locked
      ensures err.None? ==> Grew(old(ex.bodies), ex.bodies, AllBodies(steps))
      ensures old(ex.bodies) <= ex.bodies
      ensures err.None? ==> HookCalls(ex.log) == HookCalls(old(ex.log)) + AllCalls(steps)
      ensures err.Some? ==> Reason(|old(ex.bodies)|) || !AllSound(steps)
      ensures AllWell(ex.world) && AllSound(steps) ==> err.None?
      ensures AllWell(ex.world) ==> ex.unreachable == old(ex.unreachable)
    {
      GrewNothing(ex.bodies);
      DueAfterBounds(steps, 0);
      for k := 0 to |steps|
        invariant OnTrack(DueAfter(steps, k)) && (locked <==> Passed(steps, k) > 0)
        invariant Grew(old(ex.bodies), ex.bodies, AllBodies(steps[..k])) && old(ex.bodies) <= ex.bodies
        invariant HookCalls(ex.log) == HookCalls(old(ex.log)) + AllCalls(steps[..k])
        invariant AllWell(ex.world) ==> ex.unreachable == old(ex.unreachable)
      {
        AllBodiesSnoc(steps, k);
        ghost var mid := ex.bodies;
        err := RunStepAt(steps, k, primaries);
        if err.Some? {
          return;
        }
        GrewThen(old(ex.bodies), mid, ex.bodies, AllBodies(steps[..k]), StepBodies(steps[k]));
      }
      assert steps[..|steps|] == steps;
      err := None;
      SafeWeakens(DueAfter(steps, |steps|), LIFECYCLE);
    }

    /** The bodies of all hooks and custom phases, in the order of the spliced lifecycle. */
    ghost function LifecycleBodies(): seq<string> {
      AllBodies(P.Splice(P.BASE, customPhases))
    }

    method RunLifecycle(primaries: seq<Host>) returns (err: Option<Error>)
      requires OnTrack([]) && !locked && primaries == [primaryHost]
      modifies this`locked, ex`unreachable, ex`clock, ex`log, ex`taskState, ex`bodies
      modifies ex`out, ex`clusterOut, ex`capture, ex`logTask, ex`phase
      ensures Safe(LIFECYCLE)
      ensures err.None? ==> OnTrack(LIFECYCLE) && locked
      ensures err.None? ==> Grew(old(ex.bodies), ex.bodies, LifecycleBodies())
      ensures old(ex.bodies) <= ex.bodies
      ensures err.None? ==> HookCalls(ex.log) == HookCalls(old(ex.log)) + AllCalls(P.Splice(P.BASE, customPhases))
      ensures err.Some? ==> Reason(|old(ex.bodies)|) || !AllSound(P.Splice(P.BASE, customPhases))
      ensures AllWell(ex.world) && AllSound(P.Splice(P.BASE, customPhases)) ==> err.None?
      ensures AllWell(ex.world) ==> ex.unreachable == old(ex.unreachable)
    {
      var steps := P.InsertCustomPhases(P.BASE, customPhases);
      P.KeepsBuiltIns(P.BASE, customPhases);
      P.CustomActions(P.BASE, customPhases);
      err := RunSteps(steps, primaries);
    }

    lemma StartsOnTrack()
      requires Fresh() && !locked
      requires ex.skip == skip && ex.requiredHosts == required + {primary}
      requires primaryHost in ex.eligible && primaryHost.address == primary
      ensures OnTrack([])
    {
    }

    lemma AllLiveAtFirst()
      requires Fresh()
      ensures ex.Hosts() == ex.eligible && ex.unreachable == {} && HookCalls(ex.log) == 0 && Reads(ex.log) == 0
    {
      ExcludeNothing(ex.eligible, {});
    }

    /** The primary holds the lock, so it is required whatever its configuration says. */
    method ChoosePrimary(hosts: seq<Host>) returns (primaries: seq<Host>)
      requires Fresh() && !locked && hosts != [] && hosts == ex.eligible
      modifies this`primary, this`primaryHost, ex`skip, ex`requiredHosts
      ensures OnTrack([]) && primaries == [primaryHost] == Primary(ex.eligible)
    {
      primaries := PickPrimary(hosts);
      primaryHost := primaries[0];
      primary := primaries[0].address;
      ex.SetUnreachablePolicy(skip, required + {primary});
      StartsOnTrack();
    }

    /** Prepares the run: the lock holder, the policy, and the previous revision. */
    method Start() returns (err: Option<Error>, primaries: seq<Host>)
      requires Fresh()
      modifies this, ex`skip, ex`requiredHosts, ex`clock, ex`log
      ensures err.Some? ==> repo == "" || ex.eligible == []
      ensures err.Some? ==> ex.log == [] && !locked
      ensures err.None? ==> OnTrack([]) && !locked && primaries == [primaryHost] == Primary(ex.eligible)
      ensures err.None? <==> repo != "" && ex.eligible != []
      ensures HookCalls(ex.log) == 0
      ensures ex.unreachable == {} && ex.bodies == old(ex.bodies)
      ensures err.None? ==>
                prevSHA ==
                (var c := ex.world.captured(old(ex.clock.asked));
                 if !ex.dryRun && c.err.None? && isCommitSHA(c.text) then c.text else "")
      ensures err.None? && !ex.dryRun ==> Reads(ex.log) == 1
    {
      locked, primaries := false, [];
      if repo == "" {
        return Some(Plain("app.repo is required to deploy")), [];
      }
      var hosts := ex.Hosts();
      AllLiveAtFirst();
      if |hosts| == 0 {
        return Some(Plain("no hosts match")), [];
      }
      primaries := ChoosePrimary(hosts);
      ReadPrevious(primaries[0]);
      err := None;
    }

    /** The revision of the live release, if there is one and it can be read. */
    method ReadPrevious(host: Host)
      requires OnTrack([]) && host == primaryHost
      modifies this`prevSHA, ex`clock, ex`log
      ensures OnTrack([])
      ensures prevSHA ==
              (var c := ex.world.captured(old(ex.clock.asked));
               if !ex.dryRun && c.err.None? && isCommitSHA(c.text) then c.text else "")
      ensures HookCalls(ex.log) == HookCalls(old(ex.log))
      ensures Reads(ex.log) == Reads(old(ex.log)) + if ex.dryRun then 0 else 1
    {
      prevSHA := "";
      if !ex.dryRun {
        HostsRemain([]);
        var c := ReadOff(host, []);
        if c.err.None? && isCommitSHA(c.text) {
          prevSHA := c.text;
        }
      }
    }

    ghost predicate Fresh()
      reads this, ex
    {
      ex.Valid() && ex.log == [] && ex.out == ex.clusterOut
    }

    /** The last bodies that ran are those of the hooks for a failed deploy, unless one failed or they do not expand. */
    ghost predicate Notified(n: nat)
      reads ex`bodies
    {
      || (exists m :: n <= m <= |ex.bodies| && Names(ex.bodies[m..]) == HookBodies(hooksAfter, PhaseFailed))
      || BodyFailed(n)
      || !ExpandAll(ex.Engine(), HooksAt(hooksAfter, PhaseFailed), {}).ok
    }

    /** Runs the hooks of a failed deploy; what becomes of them is only warned about. */
    method OnFailure()
      requires Safe(LIFECYCLE)
      modifies ex`unreachable, ex`clock, ex`log, ex`taskState, ex`bodies
      modifies ex`out, ex`clusterOut, ex`capture, ex`logTask, ex`phase
      ensures Safe(LIFECYCLE)
      ensures old(ex.log) <= ex.log && old(ex.bodies) <= ex.bodies
      ensures Notified(|old(ex.bodies)|)
    {
      ghost var n := |ex.bodies|;
      if (PhaseFailed in hooksAfter && hooksAfter[PhaseFailed] != []) ||
         (PhaseFailed in funcsAfter && funcsAfter[PhaseFailed] > 0) {
        var err := PhaseHooks(hooksAfter, funcsAfter, PhaseFailed, LIFECYCLE);
        GrewBehind(old(ex.bodies), ex.bodies, HookBodies(hooksAfter, PhaseFailed));
      } else {
        assert ex.bodies[n..] == [];
      }
    }

    /** Releases the lock on a holder's way out; a failed release is only warned about. */
    method DeferredUnlock(primaries: seq<Host>)
      requires Safe(LIFECYCLE) && primaries == [primaryHost]
      modifies ex`clock, ex`log
      ensures ex.Valid() && Barrier(ex.log) && Issued(ex.log) == Issued(old(ex.log))
      ensures forall h :: Completed(ex.log, h) == Completed(old(ex.log), h)
      ensures PhaseOf(ex.log) == if !ex.dryRun && locked then Released else PhaseOf(old(ex.log))
      ensures old(ex.log) <= ex.log && HookCalls(ex.log) == HookCalls(old(ex.log))
      ensures !ex.dryRun && locked ==> ex.log != [] && Last(ex.log).Unlock? && Last(ex.log).primary == primary
    {
      if locked {
        var err, results := ex.RunOn(primaries, DropLock);
        if !ex.dryRun {
          UnlockLogged(old(ex.log), results[0].host, results[0].err);
          NoHookCalls(old(ex.log), ex.log);
        }
      }
    }

    twostate lemma StillReason(n: nat)
      requires old(ex.log) <= ex.log && old(ex.bodies) <= ex.bodies && primary == old(primary)
      ensures old(Reason(n)) ==> Reason(n)
    {
      if i :| 0 <= i < |old(ex.log)| && old(Blames(ex.log[i])) {
        assert ex.log[i] == old(ex.log)[i];
        assert Blames(ex.log[i]);
      }
      if i :| n <= i < |old(ex.bodies)| && !old(ex.bodies)[i].ok {
        assert ex.bodies[i] == old(ex.bodies)[i];
      }
    }

    /** The deferred unlock changes nothing that is said about the run but the lock. */
    method Unlock(primaries: seq<Host>, ghost n: nat)
      requires Safe(LIFECYCLE) && primaries == [primaryHost]
      modifies ex`clock, ex`log
      ensures ex.Valid() && Barrier(ex.log) && Issued(ex.log) == Issued(old(ex.log))
      ensures forall h :: Completed(ex.log, h) == Completed(old(ex.log), h)
      ensures PhaseOf(ex.log) == if !ex.dryRun && locked then Released else PhaseOf(old(ex.log))
      ensures HookCalls(ex.log) == HookCalls(old(ex.log)) && (old(Reason(n)) ==> Reason(n))
      ensures primaryHost in ex.Hosts() && ex.unreachable !! required
      ensures !ex.dryRun && old(OnTrack(LIFECYCLE)) ==>
                && Issued(ex.log) == LIFECYCLE
                && forall h :: h in ex.Hosts() ==> Completed(ex.log, h.address) == LIFECYCLE
    {
      HostsRemain(LIFECYCLE);
      DeferredUnlock(primaries);
      StillReason(n);
    }

    /** The lifecycle, and what it comes to. */
    method Conclude(primaries: seq<Host>) returns (outcome: Outcome)
      requires OnTrack([]) && !locked && primaries == [primaryHost] && ex.unreachable == {}
      modifies this`locked, ex`unreachable, ex`clock, ex`log, ex`taskState, ex`bodies
      modifies ex`out, ex`clusterOut, ex`capture, ex`logTask, ex`phase
      ensures Safe(LIFECYCLE)
      ensures !outcome.Aborted? ==> OnTrack(LIFECYCLE) && locked
      ensures !outcome.Aborted? ==> Grew(old(ex.bodies), ex.bodies, LifecycleBodies())
      ensures outcome.Done? ==> ex.unreachable == {}
      ensures outcome.SkippedHosts? ==> ex.unreachable != {} && outcome.hosts == ex.unreachable
      ensures outcome.Aborted? ==> Reason(|old(ex.bodies)|) || !AllSound(P.Splice(P.BASE, customPhases))
      ensures outcome.Aborted? ==> Notified(|old(ex.bodies)|)
      ensures !outcome.Aborted? ==>
                HookCalls(ex.log) == HookCalls(old(ex.log)) + AllCalls(P.Splice(P.BASE, customPhases))
      ensures AllWell(ex.world) && AllSound(P.Splice(P.BASE, customPhases)) ==> outcome.Done?
    {
      var err := RunLifecycle(primaries);
      if err.Some? {
        label failed:
        OnFailure();
        StillReason@failed(|old(ex.bodies)|);
        outcome := Aborted(err.value);
      } else if ex.unreachable != {} {
        outcome := SkippedHosts(ex.unreachable);
      } else {
        outcome := Done;
      }
    }

    /** What every run that gets started comes to, lock and all. */
    method RunAndUnlock(primaries: seq<Host>) returns (outcome: Outcome)
      requires OnTrack([]) && !locked && primaries == [primaryHost] && ex.unreachable == {} && HookCalls(ex.log) == 0
      modifies this`locked, ex`unreachable, ex`clock, ex`log, ex`taskState, ex`bodies
      modifies ex`out, ex`clusterOut, ex`capture, ex`logTask, ex`phase
      ensures ex.Valid() && Barrier(ex.log) && Issued(ex.log) <= LIFECYCLE
      ensures PhaseOf(ex.log) == Idle || PhaseOf(ex.log) == Refused || PhaseOf(ex.log) == Released
      ensures !outcome.Aborted? && !ex.dryRun ==>
                && PhaseOf(ex.log) == Released && Issued(ex.log) == LIFECYCLE
                && forall h :: h in ex.Hosts() ==> Completed(ex.log, h.address) == LIFECYCLE
      ensures !outcome.Aborted? ==>
                && Grew(old(ex.bodies), ex.bodies, LifecycleBodies())
                && HookCalls(ex.log) == AllCalls(P.Splice(P.BASE, customPhases))
      ensures primaryHost in ex.Hosts() && ex.unreachable !! required
      ensures outcome.Done? ==> ex.unreachable == {}
      ensures outcome.SkippedHosts? ==> skip && ex.unreachable != {} && outcome.hosts == ex.unreachable
      ensures ex.dryRun ==> Issued(ex.log) == [] && PhaseOf(ex.log) == Idle
      ensures outcome.Aborted? ==>
                && (Reason(|old(ex.bodies)|) || !AllSound(P.Splice(P.BASE, customPhases)))
                && Notified(|old(ex.bodies)|)
      ensures AllWell(ex.world) && AllSound(P.Splice(P.BASE, customPhases)) ==> outcome.Done?
    {
      outcome := Conclude(primaries);
      Unlock(primaries, |old(ex.bodies)|);
    }

    /**
     A whole run. Whatever the hosts, the hook tasks and the plugins do:
     every built-in command went only to hosts that had completed all earlier ones, in lifecycle
     order; no required host and not the primary was dropped; a host once dropped was not targeted
     again; commands ran on all hosts only while the lock was held, which was tried at most once and,
     if acquired, given back last; and a run that does not abort completed every command on every
     host that is left.
     */
    method Deploy() returns (outcome: Outcome)
      requires Fresh()
      modifies this, ex
      ensures ex.Valid()
      ensures Barrier(ex.log) && Issued(ex.log) <= LIFECYCLE
      ensures PhaseOf(ex.log) == Idle || PhaseOf(ex.log) == Refused || PhaseOf(ex.log) == Released
      ensures !outcome.Aborted? && !ex.dryRun ==>
                && PhaseOf(ex.log) == Released
                && Issued(ex.log) == LIFECYCLE
                && forall h :: h in ex.Hosts() ==> Completed(ex.log, h.address) == LIFECYCLE
      ensures !outcome.Aborted? ==>
                Grew(old(ex.bodies), ex.bodies, LifecycleBodies())
      ensures ex.eligible != [] && repo != "" ==> primaryHost in ex.Hosts() && [primaryHost] == Primary(ex.eligible)
      ensures ex.unreachable !! required
      ensures outcome.Done? ==> ex.unreachable == {}
      ensures outcome.SkippedHosts? ==> skip && ex.unreachable != {} && outcome.hosts == ex.unreachable
      ensures ex.dryRun ==> Issued(ex.log) == [] && PhaseOf(ex.log) == Idle
      ensures outcome.Aborted? ==>
                || repo == "" || ex.eligible == []
                || Reason(|old(ex.bodies)|) || !AllSound(P.Splice(P.BASE, customPhases))
      ensures outcome.Aborted? && repo != "" && ex.eligible != [] ==> Notified(|old(ex.bodies)|)
      ensures !outcome.Aborted? ==> HookCalls(ex.log) == AllCalls(P.Splice(P.BASE, customPhases))
      ensures AllWell(ex.world) && repo != "" && ex.eligible != [] && AllSound(P.Splice(P.BASE, customPhases)) ==>
                outcome.Done?
    {
      var err, primaries := Start();
      if err.Some? {
        return Aborted(err.value);
      }
      outcome := RunAndUnlock(primaries);
    }
  }

  /** What logging one built-in command does to the lifecycle's account. */
  lemma StepLogged(log: seq<Event>, command: Command, hosts: seq<Host>, results: seq<Result>)
    requires Barrier(log) && ResultsOf(hosts, results)
    requires forall h :: h in hosts ==> Completed(log, h.address) == Issued(log)
    ensures var now := log + [Step(command, results)];
            && Barrier(now)
            && Issued(now) == Issued(log) + [command]
            && (PhaseOf(log) == Held ==> PhaseOf(now) == Held)
            && forall i :: 0 <= i < |hosts| && results[i].err.None? ==> Completed(now, hosts[i].address) == Issued(now)
  {
    Snoc(log, Step(command, results));
    forall h | h in ResultHosts(results)
      ensures Completed(log, h) == Issued(log)
    {
      var i :| 0 <= i < |results| && results[i].host == h;
      assert hosts[i] in hosts;
    }
    forall i | 0 <= i < |hosts| && results[i].err.None?
      ensures Completed(log + [Step(command, results)], hosts[i].address) == Issued(log) + [command]
    {
      assert results[i].host in SucceededHosts(results);
      assert hosts[i] in hosts;
    }
  }

  lemma LockLogged(log: seq<Event>, host: string, err: Option<Error>)
    requires PhaseOf(log) == Idle && Barrier(log)
    ensures var now := log + [Lock(host, err)];
            && Issued(now) == Issued(log)
            && (forall h :: Completed(now, h) == Completed(log, h))
            && Barrier(now)
            && PhaseOf(now) == if err.None? then Held else Refused
  {
    Snoc(log, Lock(host, err));
  }

  lemma UnlockLogged(log: seq<Event>, host: string, err: Option<Error>)
    requires PhaseOf(log) == Held && Barrier(log)
    ensures var now := log + [Unlock(host, err)];
            && Issued(now) == Issued(log)
            && (forall h :: Completed(now, h) == Completed(log, h))
            && Barrier(now)
            && PhaseOf(now) == Released
  {
    Snoc(log, Unlock(host, err));
  }

  /** A host that is not among the failed ones has a successful result. */
  lemma SurvivorSucceeded(hosts: seq<Host>, results: seq<Result>, h: Host)
    requires ResultsOf(hosts, results) && h in hosts && h.address !in FailedHosts(results)
    ensures exists i :: 0 <= i < |hosts| && hosts[i] == h && results[i].err.None?
  {
    var i :| 0 <= i < |hosts| && hosts[i] == h;
    assert results[i].host == h.address;
  }

  function RequiredIn(hosts: seq<Host>): (r: set<string>)
    ensures forall a :: a in r <==> exists h :: h in hosts && h.address == a && h.required == Some(true)
  {
    set h | h in hosts && h.IsRequired() :: h.address
  }
}
