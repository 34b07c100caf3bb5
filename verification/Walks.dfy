/**
 A walk asks hosts one after the other for a value: it stops at the first that answers, and under
 on_unreachable: skip drops an unreachable one and moves on. Hosts, plugins and the operator's machine are
 adversarial: a World answers every question they are asked.
 */
module Walks {
  import opened Common
  import opened Errors
  import opened Inventory
  import opened Deployfile
  import opened Trace

  datatype Captured = Captured(text: string, err: Option<Error>)

  /** A host operation a plugin's action asks for. */
  datatype ActionCall = RunCommand | WriteFile | CaptureCommand

  /** How many questions of each kind have been asked: to hosts, about rendering, and on the operator's side. */
  datatype Time = Time(asked: nat, rendered: nat, operator: nat) {
    function Later(n: nat): Time {
      this.(asked := asked + n)
    }

    function Rendered(): Time {
      this.(rendered := rendered + 1)
    }
  }

  const START := Time(0, 0, 0)

  /** Answers are indexed by the time, so that no two calls need agree. */
  datatype World = World(
    outcome: (nat, nat) -> Option<Error>,      // of a fanned-out command, per target position
    captured: nat -> Captured,                 // of a command whose output is read
    built: nat -> Option<string>,              // why the steps of a task cannot be rendered
    parsed: (string, string) -> Captured,      // an output in a given format
    operatorSide: nat -> Option<Error>,        // a local shell, a plugin's verdict
    contextDone: nat -> bool,                  // whether the run's context is done
    actionCalls: nat -> seq<ActionCall>)       // what an action does with its hosts

  datatype Policy = Policy(skip: bool, required: set<string>)

  /** on_unreachable: skip for a single host; the context itself is tested, not the error. */
  predicate Drops(w: World, policy: Policy, clock: Time, host: string, err: Error) {
    policy.skip && !w.contextDone(clock.asked) && IsUnreachable(err) && host !in policy.required
  }

  function Sent(host: string, err: Option<Error>): Event {
    TaskCommand([Result(host, err)])
  }

  /** How things stand after a walk or a part of it: the log, what was read, and the time. */
  datatype After = After(log: seq<Event>, c: Captured, clock: Time)

  // ---- A plugin's capture ----

  const NO_HOSTS := Captured("", Some(Plain("no hosts match the action task, nothing to capture")))

  predicate ActionMovesOn(w: World, policy: Policy, host: Host, clock: Time) {
    var c := w.captured(clock.asked);
    c.err.Some? && Drops(w, policy, clock.Later(1), host.address, c.err.value)
  }

  function ActionWalk(w: World, policy: Policy, hosts: seq<Host>, clock: Time, log: seq<Event>): After
    decreases |hosts|
  {
    if hosts == [] then After(log, NO_HOSTS, clock)
    else
      var host, c := hosts[0].address, w.captured(clock.asked);
      var sent := log + [Sent(host, c.err)];
      if ActionMovesOn(w, policy, hosts[0], clock) then
        ActionWalk(w, policy, hosts[1..], clock.Later(2), sent + [Mark(host)])
      else After(sent, c, clock.Later(if c.err.None? then 1 else 2))
  }

  // ---- An output task ----

  function StepCount(task: Task): nat {
    |task.cmds| + |task.scripts|
  }

  function Label(remote: Option<string>): string {
    if remote.Some? then remote.value else "local"
  }

  function Noted(log: seq<Event>, remote: Option<string>, err: Option<Error>): seq<Event> {
    if remote.Some? then log + [Sent(remote.value, err)] else log
  }

  /** The steps from the i-th on, on one target; remote is None for the operator's machine. */
  function Attempted(w: World, task: Task, dryRun: bool, remote: Option<string>, i: nat, clock: Time, text: string,
                     log: seq<Event>)
    : After
    requires i <= StepCount(task)
    decreases StepCount(task) - i
  {
    if i == StepCount(task) then After(log, Captured(text, None), clock)
    else
      var built, next := w.built(clock.rendered), clock.Rendered();
      if built.Some? then After(log, Captured("", Some(Plain(built.value))), next)
      else if dryRun then Attempted(w, task, dryRun, remote, i + 1, next, text, log)
      else
        var c := w.captured(clock.asked);
        var now := Noted(log, remote, c.err);
        if c.err.None? then Attempted(w, task, dryRun, remote, i + 1, next.Later(1), text + c.text + "\n", now)
        else if task.continueOnError then Attempted(w, task, dryRun, remote, i + 1, next.Later(1), text, now)
        else After(now, Captured("", Some(Wrapped(Label(remote), c.err.value))), next.Later(1))
  }

  function OnHost(w: World, task: Task, dryRun: bool, host: Host, clock: Time, log: seq<Event>): After {
    Attempted(w, task, dryRun, Some(host.address), 0, clock, "", log)
  }

  /** The host failed to answer and is dropped. */
  predicate PassedBy(w: World, policy: Policy, host: Host, a: After) {
    a.c.err.Some? && !host.isLocal && Drops(w, policy, a.clock, host.address, a.c.err.value)
  }

  function OutputWalk(w: World, policy: Policy, task: Task, dryRun: bool, hosts: seq<Host>, clock: Time,
                      log: seq<Event>)
    : After
    requires hosts != []
    decreases |hosts|
  {
    var a := OnHost(w, task, dryRun, hosts[0], clock, log);
    if !PassedBy(w, policy, hosts[0], a) then
      a.(clock := if a.c.err.None? || hosts[0].isLocal then a.clock else a.clock.Later(1))
    else
      var now := a.log + [Mark(hosts[0].address)];
      if |hosts| == 1 then After(now, a.c, a.clock.Later(1))
      else OutputWalk(w, policy, task, dryRun, hosts[1..], a.clock.Later(1), now)
  }

  // ---- What an attempt comes to ----

  /** No rendering between the two times failed. */
  ghost predicate AllRendered(w: World, before: Time, after: Time) {
    forall t: nat :: before.rendered <= t < after.rendered ==> w.built(t).None?
  }

  /** No host asked between the two times failed to answer. */
  ghost predicate AllAnswered(w: World, before: Time, after: Time) {
    forall t: nat :: before.asked <= t < after.asked ==> w.captured(t).err.None?
  }

  /** Nothing asked on the operator's side between the two times failed. */
  ghost predicate AllDone(w: World, before: Time, after: Time) {
    forall t: nat :: before.operator <= t < after.operator ==> w.operatorSide(t).None?
  }

  /** The answers to n questions from the given one on, each as a line. */
  function Outputs(w: World, from: nat, n: nat): string {
    if n == 0 then "" else Outputs(w, from, n - 1) + w.captured(from + n - 1).text + "\n"
  }

  lemma {:induction false} OutputsCons(w: World, from: nat, n: nat)
    ensures w.captured(from).text + "\n" + Outputs(w, from + 1, n) == Outputs(w, from, n + 1)
  {
    if n == 0 {
      assert Outputs(w, from, 0) == "";
    } else {
      OutputsCons(w, from, n - 1);
      var a, b := w.captured(from).text + "\n", w.captured(from + n).text + "\n";
      assert a + (Outputs(w, from + 1, n - 1) + w.captured(from + n).text + "\n") ==
             (a + Outputs(w, from + 1, n - 1)) + w.captured(from + n).text + "\n";
    }
  }

  /** An attempt fails exactly if a step cannot be rendered, or a command fails and failures are not ignored. */
  lemma {:induction false} AttemptFailsIff(w: World, task: Task, dryRun: bool, remote: Option<string>, i: nat,
                                           clock: Time, text: string, log: seq<Event>)
    requires i <= StepCount(task)
    ensures var a := Attempted(w, task, dryRun, remote, i, clock, text, log);
            && clock.rendered <= a.clock.rendered && clock.asked <= a.clock.asked
            && (a.c.err.None? <==>
                  AllRendered(w, clock, a.clock) && (task.continueOnError || AllAnswered(w, clock, a.clock)))
    decreases StepCount(task) - i
  {
    if i < StepCount(task) && w.built(clock.rendered).None? {
      if dryRun {
        AttemptFailsIff(w, task, dryRun, remote, i + 1, clock.Rendered(), text, log);
      } else {
        var c := w.captured(clock.asked);
        if c.err.None? || task.continueOnError {
          AttemptFailsIff(w, task, dryRun, remote, i + 1, clock.Rendered().Later(1),
                          if c.err.None? then text + c.text + "\n" else text, Noted(log, remote, c.err));
        }
      }
    }
  }

  /** One that does not fail renders every step, and unless the run is dry asks the target each of them, in order. */
  lemma {:induction false} AttemptComplete(w: World, task: Task, dryRun: bool, remote: Option<string>, i: nat,
                                           clock: Time, text: string, log: seq<Event>)
    requires i <= StepCount(task)
    ensures var a := Attempted(w, task, dryRun, remote, i, clock, text, log);
            a.c.err.None? ==>
              var n := StepCount(task) - i;
              && a.clock.rendered == clock.rendered + n
              && a.clock.asked == clock.asked + (if dryRun then 0 else n)
              && Commands(a.log) == Commands(log) + (if dryRun || remote.None? then 0 else n)
              && (dryRun ==> a.c.text == text)
    decreases StepCount(task) - i
  {
    if i < StepCount(task) && w.built(clock.rendered).None? {
      if dryRun {
        AttemptComplete(w, task, dryRun, remote, i + 1, clock.Rendered(), text, log);
      } else {
        var c := w.captured(clock.asked);
        if remote.Some? {
          Snoc(log, Sent(remote.value, c.err));
        }
        if c.err.None? || task.continueOnError {
          AttemptComplete(w, task, dryRun, remote, i + 1, clock.Rendered().Later(1),
                          if c.err.None? then text + c.text + "\n" else text, Noted(log, remote, c.err));
        }
      }
    }
  }

  /** If every answer is a success, the text is all the answers, line by line. */
  lemma {:induction false} AttemptText(w: World, task: Task, remote: Option<string>, i: nat, clock: Time, text: string,
                                       log: seq<Event>)
    requires i <= StepCount(task) && Attempted(w, task, false, remote, i, clock, text, log).c.err.None?
    requires AllAnswered(w, clock, clock.Later(StepCount(task) - i))
    ensures Attempted(w, task, false, remote, i, clock, text, log).c.text ==
            text + Outputs(w, clock.asked, StepCount(task) - i)
    decreases StepCount(task) - i
  {
    if i < StepCount(task) {
      var c := w.captured(clock.asked);
      assert c.err.None?;
      var next := clock.Rendered().Later(1);
      AttemptText(w, task, remote, i + 1, next, text + c.text + "\n", Noted(log, remote, c.err));
      OutputsCons(w, clock.asked, StepCount(task) - i - 1);
      OneMoreLine(text, c.text, Outputs(w, next.asked, StepCount(task) - i - 1));
    }
  }

  lemma OneMoreLine(text: string, line: string, more: string)
    ensures (text + line + "\n") + more == text + (line + "\n" + more)
  {
  }

  /** A world in which nothing fails. */
  ghost predicate AllWell(w: World) {
    && (forall t: nat, i: nat :: w.outcome(t, i).None?)
    && (forall t: nat :: w.captured(t).err.None?)
    && (forall t: nat :: w.built(t).None?)
    && (forall t: nat :: w.operatorSide(t).None?)
    && (forall format, text :: w.parsed(format, text).err.None?)
  }

  lemma WellAttempt(w: World, task: Task, dryRun: bool, remote: Option<string>, clock: Time, log: seq<Event>)
    requires AllWell(w)
    ensures Attempted(w, task, dryRun, remote, 0, clock, "", log).c.err.None?
  {
    AttemptFailsIff(w, task, dryRun, remote, 0, clock, "", log);
  }

  // ---- Exactly when a walk can come back to a host it has dropped ----

  /** As far as the walk can get, given the hosts it cannot pass, no host is marked or met before. */
  predicate FreshAsFar(hosts: seq<Host>, stops: Host -> bool, marked: set<string>) {
    hosts == [] ||
    (&& hosts[0].address !in marked
     && (stops(hosts[0]) || FreshAsFar(hosts[1..], stops, marked + {hosts[0].address})))
  }

  lemma FreshRest(hosts: seq<Host>, stops: Host -> bool, marked: set<string>)
    requires hosts != []
    ensures FreshAsFar(hosts, stops, marked) <==>
            && hosts[0].address !in marked
            && (stops(hosts[0]) || FreshAsFar(hosts[1..], stops, marked + {hosts[0].address}))
  {
  }

  lemma SendKeeps(log: seq<Event>, host: string, err: Option<Error>)
    ensures Marked(log + [Sent(host, err)]) == Marked(log)
    ensures NeverRetargets(log + [Sent(host, err)]) <==> NeverRetargets(log) && host !in Marked(log)
  {
    Snoc(log, Sent(host, err));
    var results := [Result(host, err)];
    assert results[0].host == host && ResultHosts(results) == {host};
  }

  lemma MarkKeeps(log: seq<Event>, host: string)
    ensures Marked(log + [Mark(host)]) == Marked(log) + {host}
    ensures NeverRetargets(log + [Mark(host)]) <==> NeverRetargets(log)
  {
    Snoc(log, Mark(host));
  }

  /** Every host is unreachable, and nothing else goes wrong. */
  const DEAD := World((i, j) => None, i => Captured("", Some(Unreachable(Plain("down")))), i => None,
                      (format, text) => Captured(text, None), i => None, i => false, i => [])

  /** The hosts a plugin's capture cannot pass. */
  function Stops(policy: Policy): Host -> bool {
    (h: Host) => !policy.skip || h.address in policy.required
  }

  lemma {:induction false} ActionWalkStaysClear(w: World, policy: Policy, hosts: seq<Host>, clock: Time,
                                                log: seq<Event>)
    requires NeverRetargets(log) && FreshAsFar(hosts, Stops(policy), Marked(log))
    ensures NeverRetargets(ActionWalk(w, policy, hosts, clock, log).log)
    decreases |hosts|
  {
    if hosts != [] {
      var host, err := hosts[0].address, w.captured(clock.asked).err;
      var sent := log + [Sent(host, err)];
      FreshRest(hosts, Stops(policy), Marked(log));
      SendKeeps(log, host, err);
      MarkKeeps(sent, host);
      if ActionMovesOn(w, policy, hosts[0], clock) {
        ActionWalkStaysClear(w, policy, hosts[1..], clock.Later(2), sent + [Mark(host)]);
      }
    }
  }

  /** In the dead world the walk goes as far as it can, and a broken promise stays broken. */
  lemma {:induction false} ActionWalkComesBack(policy: Policy, hosts: seq<Host>, clock: Time, log: seq<Event>)
    requires !NeverRetargets(log) || !FreshAsFar(hosts, Stops(policy), Marked(log))
    ensures !NeverRetargets(ActionWalk(DEAD, policy, hosts, clock, log).log)
    decreases |hosts|
  {
    if hosts != [] {
      var host, err := hosts[0].address, DEAD.captured(clock.asked).err;
      var sent := log + [Sent(host, err)];
      FreshRest(hosts, Stops(policy), Marked(log));
      SendKeeps(log, host, err);
      MarkKeeps(sent, host);
      if ActionMovesOn(DEAD, policy, hosts[0], clock) {
        ActionWalkComesBack(policy, hosts[1..], clock.Later(2), sent + [Mark(host)]);
      }
    }
  }

  /** A plugin's capture respects the marks in every world exactly if its list is fresh as far as it can get. */
  lemma ActionWalkClearIff(policy: Policy, hosts: seq<Host>, log: seq<Event>)
    requires NeverRetargets(log)
    ensures (forall w: World, clock: Time :: NeverRetargets(ActionWalk(w, policy, hosts, clock, log).log)) <==>
            FreshAsFar(hosts, Stops(policy), Marked(log))
  {
    if FreshAsFar(hosts, Stops(policy), Marked(log)) {
      forall w: World, clock: Time
        ensures NeverRetargets(ActionWalk(w, policy, hosts, clock, log).log)
      {
        ActionWalkStaysClear(w, policy, hosts, clock, log);
      }
    } else {
      ActionWalkComesBack(policy, hosts, START, log);
    }
  }

  /** The hosts an output task's walk cannot pass. */
  function OutputStops(policy: Policy, task: Task): Host -> bool {
    (h: Host) => !policy.skip || h.address in policy.required || h.isLocal || task.continueOnError
  }

  predicate SendsNothing(task: Task, dryRun: bool) {
    dryRun || StepCount(task) == 0
  }

  /** An attempt marks nothing, and breaks the promise exactly if it sends something to a marked host. */
  lemma {:induction false} AttemptClear(w: World, task: Task, dryRun: bool, host: string, i: nat, clock: Time,
                                        text: string, log: seq<Event>)
    requires i <= StepCount(task)
    ensures var now := Attempted(w, task, dryRun, Some(host), i, clock, text, log).log;
            && Marked(now) == Marked(log)
            && (NeverRetargets(now) <==> NeverRetargets(log) && (host !in Marked(log) || now == log))
            && |now| >= |log|
    decreases StepCount(task) - i
  {
    if i < StepCount(task) && w.built(clock.rendered).None? {
      if dryRun {
        AttemptClear(w, task, dryRun, host, i + 1, clock.Rendered(), text, log);
      } else {
        var c := w.captured(clock.asked);
        var now := log + [Sent(host, c.err)];
        SendKeeps(log, host, c.err);
        if c.err.None? {
          AttemptClear(w, task, dryRun, host, i + 1, clock.Rendered().Later(1), text + c.text + "\n", now);
        } else if task.continueOnError {
          AttemptClear(w, task, dryRun, host, i + 1, clock.Rendered().Later(1), text, now);
        }
      }
    }
  }

  /** Without a command that may fail for good, no attempt reads as unreachable. */
  lemma {:induction false} AttemptNotUnreachable(w: World, task: Task, dryRun: bool, host: string, i: nat, clock: Time,
                                                 text: string, log: seq<Event>)
    requires i <= StepCount(task) && (dryRun || task.continueOnError || i == StepCount(task))
    ensures var a := Attempted(w, task, dryRun, Some(host), i, clock, text, log);
            && (a.c.err.Some? ==> !IsUnreachable(a.c.err.value))
            && (dryRun || i == StepCount(task) ==> a.log == log)
    decreases StepCount(task) - i
  {
    if i < StepCount(task) && w.built(clock.rendered).None? {
      if dryRun {
        AttemptNotUnreachable(w, task, dryRun, host, i + 1, clock.Rendered(), text, log);
      } else {
        var c := w.captured(clock.asked);
        AttemptNotUnreachable(w, task, dryRun, host, i + 1, clock.Rendered().Later(1),
                              if c.err.None? then text + c.text + "\n" else text, log + [Sent(host, c.err)]);
      }
    }
  }

  /** Only a host the walk can pass is dropped. */
  lemma PassedDoesNotStop(w: World, policy: Policy, task: Task, dryRun: bool, host: Host, clock: Time, log: seq<Event>)
    requires PassedBy(w, policy, host, OnHost(w, task, dryRun, host, clock, log))
    ensures !OutputStops(policy, task)(host) && !SendsNothing(task, dryRun)
  {
    if task.continueOnError || SendsNothing(task, dryRun) {
      AttemptNotUnreachable(w, task, dryRun, host.address, 0, clock, "", log);
    }
  }

  lemma {:induction false} OutputWalkStaysClear(w: World, policy: Policy, task: Task, dryRun: bool, hosts: seq<Host>,
                                                clock: Time, log: seq<Event>)
    requires hosts != [] && NeverRetargets(log)
    requires SendsNothing(task, dryRun) || FreshAsFar(hosts, OutputStops(policy, task), Marked(log))
    ensures NeverRetargets(OutputWalk(w, policy, task, dryRun, hosts, clock, log).log)
    decreases |hosts|
  {
    var host, a := hosts[0].address, OnHost(w, task, dryRun, hosts[0], clock, log);
    if SendsNothing(task, dryRun) {
      AttemptNotUnreachable(w, task, dryRun, host, 0, clock, "", log);
    } else {
      FreshRest(hosts, OutputStops(policy, task), Marked(log));
      AttemptClear(w, task, dryRun, host, 0, clock, "", log);
      MarkKeeps(a.log, host);
      if PassedBy(w, policy, hosts[0], a) && |hosts| > 1 {
        PassedDoesNotStop(w, policy, task, dryRun, hosts[0], clock, log);
        OutputWalkStaysClear(w, policy, task, dryRun, hosts[1..], a.clock.Later(1), a.log + [Mark(host)]);
      }
    }
  }

  /** In the dead world a command goes out, and a host that can be passed is. */
  lemma DeadAttempt(policy: Policy, task: Task, host: Host, clock: Time, log: seq<Event>)
    requires StepCount(task) > 0
    ensures var a := OnHost(DEAD, task, false, host, clock, log);
            a.log != log && (!OutputStops(policy, task)(host) ==> PassedBy(DEAD, policy, host, a))
  {
    assert DEAD.built(clock.rendered).None?;
    if task.continueOnError {
      AttemptClear(DEAD, task, false, host.address, 1, clock.Rendered().Later(1), "",
                   log + [Sent(host.address, DEAD.captured(0).err)]);
    }
  }

  lemma {:induction false} OutputWalkComesBack(policy: Policy, task: Task, hosts: seq<Host>, clock: Time,
                                               log: seq<Event>)
    requires StepCount(task) > 0 && hosts != []
    requires !NeverRetargets(log) || !FreshAsFar(hosts, OutputStops(policy, task), Marked(log))
    ensures !NeverRetargets(OutputWalk(DEAD, policy, task, false, hosts, clock, log).log)
    decreases |hosts|
  {
    var host, a := hosts[0].address, OnHost(DEAD, task, false, hosts[0], clock, log);
    FreshRest(hosts, OutputStops(policy, task), Marked(log));
    AttemptClear(DEAD, task, false, host, 0, clock, "", log);
    DeadAttempt(policy, task, hosts[0], clock, log);
    MarkKeeps(a.log, host);
    if PassedBy(DEAD, policy, hosts[0], a) && |hosts| > 1 {
      OutputWalkComesBack(policy, task, hosts[1..], a.clock.Later(1), a.log + [Mark(host)]);
    }
  }

  /** An output task's walk respects the marks in every world exactly if it sends nothing or its list is fresh. */
  lemma OutputWalkClearIff(policy: Policy, task: Task, dryRun: bool, hosts: seq<Host>, log: seq<Event>)
    requires hosts != [] && NeverRetargets(log)
    ensures (forall w: World, clock: Time ::
               NeverRetargets(OutputWalk(w, policy, task, dryRun, hosts, clock, log).log)) <==>
            SendsNothing(task, dryRun) || FreshAsFar(hosts, OutputStops(policy, task), Marked(log))
  {
    if SendsNothing(task, dryRun) || FreshAsFar(hosts, OutputStops(policy, task), Marked(log)) {
      forall w: World, clock: Time
        ensures NeverRetargets(OutputWalk(w, policy, task, dryRun, hosts, clock, log).log)
      {
        OutputWalkStaysClear(w, policy, task, dryRun, hosts, clock, log);
      }
    } else {
      OutputWalkComesBack(policy, task, hosts, START, log);
    }
  }

  // ---- In a world without failures ----

  lemma WellOutputWalk(w: World, policy: Policy, task: Task, dryRun: bool, hosts: seq<Host>, clock: Time,
                       log: seq<Event>)
    requires AllWell(w) && hosts != []
    ensures var a := OutputWalk(w, policy, task, dryRun, hosts, clock, log);
            a.c.err.None? && Marked(a.log) == Marked(log)
  {
    WellAttempt(w, task, dryRun, Some(hosts[0].address), clock, log);
    AttemptClear(w, task, dryRun, hosts[0].address, 0, clock, "", log);
  }

  /** A plugin's capture asks nothing on the operator's side, and drops no host that answers. */
  lemma {:induction false} ActionWalkKeeps(w: World, policy: Policy, hosts: seq<Host>, clock: Time, log: seq<Event>)
    ensures var a := ActionWalk(w, policy, hosts, clock, log);
            a.clock.operator == clock.operator && (AllWell(w) ==> Marked(a.log) == Marked(log))
    decreases |hosts|
  {
    if hosts != [] {
      var host, err := hosts[0].address, w.captured(clock.asked).err;
      SendKeeps(log, host, err);
      if ActionMovesOn(w, policy, hosts[0], clock) {
        ActionWalkKeeps(w, policy, hosts[1..], clock.Later(2), log + [Sent(host, err)] + [Mark(host)]);
      }
    }
  }

  // ---- In terms of the list ----

  /** Some host is marked or stands earlier in the list, and the walk can pass all hosts before it. */
  ghost predicate Repeats(hosts: seq<Host>, stops: Host -> bool, marked: set<string>) {
    exists j :: 0 <= j < |hosts| && RepeatsAt(hosts, stops, marked, j)
  }

  ghost predicate RepeatsAt(hosts: seq<Host>, stops: Host -> bool, marked: set<string>, j: nat) {
    && j < |hosts|
    && (hosts[j].address in marked || hosts[j].address in Addresses(hosts[..j]))
    && forall i :: 0 <= i < j ==> !stops(hosts[i])
  }

  lemma {:induction false} FreshIffNoRepeat(hosts: seq<Host>, stops: Host -> bool, marked: set<string>)
    ensures FreshAsFar(hosts, stops, marked) <==> !Repeats(hosts, stops, marked)
  {
    if hosts != [] {
      var h, rest := hosts[0], hosts[1..];
      FreshIffNoRepeat(rest, stops, marked + {h.address});
      FreshRest(hosts, stops, marked);
      assert RepeatsAt(hosts, stops, marked, 0) <==> h.address in marked;
      if Repeats(hosts, stops, marked) {
        var j :| 0 <= j < |hosts| && RepeatsAt(hosts, stops, marked, j);
        if j > 0 {
          assert !stops(hosts[0]);
          RepeatsLater(hosts, stops, marked, j - 1);
        }
      }
      if !stops(h) && Repeats(rest, stops, marked + {h.address}) {
        var j :| 0 <= j < |rest| && RepeatsAt(rest, stops, marked + {h.address}, j);
        RepeatsLater(hosts, stops, marked, j);
      }
    }
  }

  lemma RepeatsLater(hosts: seq<Host>, stops: Host -> bool, marked: set<string>, j: nat)
    requires j + 1 < |hosts| && !stops(hosts[0])
    ensures RepeatsAt(hosts[1..], stops, marked + {hosts[0].address}, j) <==> RepeatsAt(hosts, stops, marked, j + 1)
  {
    var rest := hosts[1..];
    var before, all := Addresses(rest[..j]), Addresses(hosts[..j + 1]);
    assert all == [hosts[0].address] + before;
    assert rest[j] == hosts[j + 1];
    assert forall i :: 0 <= i < j ==> rest[i] == hosts[i + 1];
    if forall i :: 0 <= i < j ==> !stops(rest[i]) {
      forall i | 0 <= i < j + 1
        ensures !stops(hosts[i])
      {
        assert i > 0 ==> rest[i - 1] == hosts[i];
      }
    }
  }
}
