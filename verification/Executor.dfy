/**
 The executor: which hosts a command goes to, what an unreachable host does to the run, and the
 task engine on top of it. Hosts, plugins and the operator's machine are adversarial: a World
 answers every question they are asked, and everything below holds for every World.
 */
module Executor {
  import opened Common
  import opened Errors
  import opened Inventory
  import opened Deployfile
  import opened TaskGraph
  import opened Trace
  import opened Walks

  datatype BuiltIn = TakeLock | DropLock | OnAll(command: Command)

  /** The one result per target, in target order, that a fanout returns. */
  ghost predicate ResultsOf(hosts: seq<Host>, results: seq<Result>) {
    |results| == |hosts| && forall i :: 0 <= i < |hosts| ==> results[i].host == hosts[i].address
  }

  ghost predicate NoneIn(hosts: seq<Host>, unreachable: set<string>) {
    forall i :: 0 <= i < |hosts| ==> hosts[i].address !in unreachable
  }

  lemma LiveHosts(hosts: seq<Host>, unreachable: set<string>)
    ensures NoneIn(FilterExcluded(hosts, unreachable), unreachable)
    ensures forall h :: h in FilterExcluded(hosts, unreachable) <==> h in hosts && h.address !in unreachable
  {
    FilterMembers(hosts, NotIn(unreachable));
    var live := FilterExcluded(hosts, unreachable);
    forall i | 0 <= i < |live|
      ensures live[i].address !in unreachable
    {
      assert live[i] in live;
    }
  }

  lemma {:induction false} ExcludeTwice(hosts: seq<Host>, a: set<string>, b: set<string>)
    ensures FilterExcluded(FilterExcluded(hosts, a), b) == FilterExcluded(hosts, a + b)
  {
    if hosts != [] {
      ExcludeTwice(hosts[1..], a, b);
      var kept := if NotIn(a)(hosts[0]) then [hosts[0]] else [];
      FilterAppend(kept, FilterExcluded(hosts[1..], a), NotIn(b));
    }
  }

  lemma ExcludeNothing(hosts: seq<Host>, absent: set<string>)
    requires NoneIn(hosts, absent)
    ensures FilterExcluded(hosts, absent) == hosts
  {
    FilterAll(hosts, NotIn(absent));
  }

  /** Every task command since from went to the targets in order, less the hosts marked before it. */
  ghost predicate ToSurvivors(log: seq<Event>, from: nat, targets: seq<Host>) {
    |log| <= from ||
    (&& ToSurvivors(Earlier(log), from, targets)
     && (Last(log).TaskCommand? ==> ResultsOf(FilterExcluded(targets, Marked(Earlier(log))), Last(log).results)))
  }

  lemma OneCommand(log: seq<Event>, results: seq<Result>, targets: seq<Host>)
    requires ResultsOf(FilterExcluded(targets, Marked(log)), results)
    ensures ToSurvivors(log + [TaskCommand(results)], |log|, targets)
    ensures Commands(log + [TaskCommand(results)]) == Commands(log) + 1
  {
    Snoc(log, TaskCommand(results));
  }

  /** What that means for one command: its targets are the unmarked ones, in order. */
  lemma {:induction false} SurvivorsAt(log: seq<Event>, from: nat, targets: seq<Host>, i: nat)
    requires ToSurvivors(log, from, targets) && from <= i < |log| && log[i].TaskCommand?
    ensures ResultsOf(FilterExcluded(targets, Marked(log[..i])), log[i].results)
    decreases |log|
  {
    if i == |log| - 1 {
      assert Earlier(log) == log[..i];
    } else {
      SurvivorsAt(Earlier(log), from, targets, i);
      assert Earlier(log)[..i] == log[..i];
    }
  }

  /** The results end a task under the policy, unless its failures are ignored. */
  ghost predicate Decides(policy: Policy, results: seq<Result>) {
    exists i :: 0 <= i < |results| && results[i].err.Some? &&
                (var e := results[i].err.value;
                 !policy.skip || IsContext(e) || !IsUnreachable(e) || results[i].host in policy.required)
  }

  /** No task command since from had such results. */
  ghost predicate Undecided(policy: Policy, log: seq<Event>, from: nat) {
    |log| <= from ||
    (Undecided(policy, Earlier(log), from) && (Last(log).TaskCommand? ==> !Decides(policy, Last(log).results)))
  }

  lemma {:induction false} UndecidedAt(policy: Policy, log: seq<Event>, from: nat, i: nat)
    requires Undecided(policy, log, from) && from <= i < |log| && log[i].TaskCommand?
    ensures !Decides(policy, log[i].results)
    decreases |log|
  {
    if i < |log| - 1 {
      UndecidedAt(policy, Earlier(log), from, i);
    }
  }

  lemma {:induction false} MarksKeepUndecided(policy: Policy, before: seq<Event>, after: seq<Event>, from: nat)
    requires MarksOnly(before, after) && from <= |before|
    ensures Undecided(policy, after, from) <==> Undecided(policy, before, from)
    decreases |after|
  {
    if |after| > |before| {
      MarksKeepUndecided(policy, before, Earlier(after), from);
    } else {
      assert after == before;
    }
  }

  lemma {:induction false} MarksKeep(before: seq<Event>, after: seq<Event>, from: nat, targets: seq<Host>)
    requires MarksOnly(before, after) && from <= |before|
    ensures ToSurvivors(before, from, targets) ==> ToSurvivors(after, from, targets)
    ensures Commands(after) == Commands(before)
    decreases |after|
  {
    if |after| > |before| {
      MarksKeep(before, Earlier(after), from, targets);
    } else {
      assert after == before;
    }
  }

  /** Dropping a host that is listed once leaves the rest of the list live. */
  lemma RestIsLive(hosts: seq<Host>, required: set<string>, i: nat)
    requires DroppableOnce(hosts, required) && i < |hosts| && hosts[i].address !in required
    ensures NoneIn(hosts[i + 1..], {hosts[i].address})
  {
    var rest, dropped := hosts[i + 1..], {hosts[i].address};
    forall j | 0 <= j < |rest|
      ensures rest[j].address !in dropped
    {
      assert Apart(hosts, required, i, i + 1 + j);
    }
  }

  function AddressSet(hosts: seq<Host>): set<string> {
    set i | 0 <= i < |hosts| :: hosts[i].address
  }

  lemma AddressSetSnoc(hosts: seq<Host>, i: nat)
    requires i < |hosts|
    ensures AddressSet(hosts[..i + 1]) == AddressSet(hosts[..i]) + {hosts[i].address}
  {
    var now := hosts[..i + 1];
    forall a | a in AddressSet(hosts[..i])
      ensures a in AddressSet(now)
    {
      var j :| 0 <= j < i && hosts[..i][j].address == a;
      assert now[j].address == a;
    }
    assert now[i] == hosts[i];
  }

  function AudienceOf(task: Task): Audience {
    if task.allHosts then AnyHost else if task.nonDeploy then NonDeployed else Deployed
  }

  /** A result that aborts the run even under on_unreachable: skip. */
  predicate Fatal(r: Result, required: string -> bool) {
    r.err.Some? && (IsContext(r.err.value) || !IsUnreachable(r.err.value) || required(r.host))
  }

  /** The result the verdict must name: the first fatal failure of a host's own, else the first cancelled one. */
  ghost predicate Decisive(results: seq<Result>, required: string -> bool, i: nat) {
    && i < |results|
    && Fatal(results[i], required)
    && (if IsHard(results[i])
        then forall j :: 0 <= j < i && Fatal(results[j], required) ==> !IsHard(results[j])
        else && (forall j :: 0 <= j < i ==> !Fatal(results[j], required))
             && (forall j :: 0 <= j < |results| && Fatal(results[j], required) ==> !IsHard(results[j])))
  }

  function Logged(cmd: BuiltIn, results: seq<Result>): Event
    requires |results| > 0
  {
    match cmd
    case TakeLock => Lock(results[0].host, results[0].err)
    case DropLock => Unlock(results[0].host, results[0].err)
    case OnAll(command) => Step(command, results)
  }

  function RunCommands(calls: seq<ActionCall>): nat {
    if calls == [] then 0 else RunCommands(calls[..|calls| - 1]) + if calls[|calls| - 1].RunCommand? then 1 else 0
  }

  /** How an executor stands. */
  datatype Stand = Stand(log: seq<Event>, unreachable: set<string>, clock: Time, taskState: map<string, string>)

  class TaskStack {
    var names: set<string>

    constructor ()
      ensures names == {}
    {
      names := {};
    }
  }

  datatype Writer = Console | Sink(since: Time)

  class Executor {
    const cfg: Config
    const stage: string
    const inactivePlugins: set<string>
    const world: World
    const dryRun: bool
    const roles: seq<string>
    const limit: seq<string>
    const eligible: seq<Host>         // deploy-enabled hosts that pass the run's role and address filters

    var skip: bool                    // on_unreachable is "skip"
    var requiredHosts: set<string>
    var unreachable: set<string>
    var clock: Time
    var taskState: map<string, string>
    var logTask: string
    var phase: Option<PhaseName>
    var out: Writer
    var clusterOut: Writer
    var capture: Option<Writer>

    ghost var log: seq<Event>
    ghost var bodies: seq<Body>

    constructor (cfg: Config, stage: string, inactivePlugins: set<string>, world: World, dryRun: bool,
                 roles: seq<string>, limit: seq<string>)
      ensures Valid() && unreachable == {} && !skip && log == [] && bodies == []
      ensures out == clusterOut && capture == None
      ensures this.cfg == cfg && this.stage == stage && this.inactivePlugins == inactivePlugins
      ensures eligible == Filter(cfg.hosts, Passing(Deployed, [], roles, limit))
      ensures this.dryRun == dryRun && this.roles == roles && this.limit == limit && this.world == world
    {
      this.cfg, this.stage, this.inactivePlugins := cfg, stage, inactivePlugins;
      this.world, this.dryRun, this.roles, this.limit := world, dryRun, roles, limit;
      eligible := Filter(cfg.hosts, Passing(Deployed, [], roles, limit));
      skip, requiredHosts, unreachable, clock, taskState := false, {}, {}, START, map[];
      logTask, phase, out, clusterOut, capture := "", None, Console, Console, None;
      log, bodies := [], [];
    }

    /** The executor's account of the run: what is marked, and that the marks are respected. */
    ghost predicate Valid()
      reads this
    {
      && unreachable == Marked(log)
      && unreachable !! requiredHosts
      && (!skip ==> unreachable == {})
      && (Unambiguous() ==> NeverRetargets(log))
    }

    /** Under the abort policy nothing is dropped; under skip no host that may be dropped is listed twice. */
    ghost predicate Once(hosts: seq<Host>)
      reads this`skip, this`requiredHosts
    {
      skip ==> DroppableOnce(hosts, requiredHosts)
    }

    ghost predicate Unambiguous()
      reads this`skip, this`requiredHosts
    {
      Once(cfg.hosts)
    }

    function Policy(): Policy
      reads this`skip, this`requiredHosts
    {
      Walks.Policy(skip, requiredHosts)
    }

    // ---- Host selection ----

    /** The hosts the built-in steps run on. */
    function Hosts(): (hosts: seq<Host>)
      reads this`unreachable
      ensures forall h :: h in hosts <==> h in eligible && h.address !in unreachable
    {
      FilterMembers(eligible, NotIn(unreachable));
      FilterExcluded(eligible, unreachable)
    }

    /** The hosts a task names, before dropped ones are left out. */
    function Matching(task: Task): (hosts: seq<Host>) {
      Filter(cfg.hosts, Passing(AudienceOf(task), task.roles, roles, limit))
    }

    /** Exactly the hosts that pass the deploy flag, the task's roles, the run's roles and the run's address limit. */
    lemma MatchingMeans(task: Task, h: Host)
      ensures h in Matching(task) <==>
              && h in cfg.hosts
              && (task.allHosts || (h.deploy.None? || h.deploy.value) == !task.nonDeploy)
              && (task.roles == [] || exists role :: role in task.roles && role in h.roles)
              && (roles == [] || exists role :: role in roles && role in h.roles)
              && (limit == [] || h.address in limit)
    {
      FilterMembers(cfg.hosts, Passing(AudienceOf(task), task.roles, roles, limit));
    }

    method TargetsForTask(task: Task) returns (hosts: seq<Host>)
      ensures hosts == Targeted(task)
    {
      hosts := FilterExcluded(Matching(task), unreachable);
      if task.once && |hosts| > 1 {
        hosts := PickPrimary(hosts);
      }
    }

    /** Live matching hosts, reduced for a once task to one, which is a primary if any is. */
    function Targeted(task: Task): (hosts: seq<Host>)
      reads this`unreachable
    {
      TargetsAt(task, unreachable)
    }

    function TargetsAt(task: Task, unreachable: set<string>): (hosts: seq<Host>)
      ensures NoneIn(hosts, unreachable)
    {
      LiveHosts(Matching(task), unreachable);
      var live := FilterExcluded(Matching(task), unreachable);
      if task.once && |live| > 1 then
        PrimaryIsOne(live, 0);
        Primary(live)
      else live
    }

    /** All live matching hosts; for a once task one of them if there is any, a primary if any is. */
    lemma TargetsMean(task: Task, unreachable: set<string>)
      ensures var hosts, live := TargetsAt(task, unreachable), FilterExcluded(Matching(task), unreachable);
              && (forall h :: h in live <==> h in Matching(task) && h.address !in unreachable)
              && (!task.once ==> hosts == live)
              && (task.once ==> |hosts| == (if live == [] then 0 else 1) && forall h :: h in hosts ==> h in live)
              && (task.once && hosts != [] && !hosts[0].primary ==> forall h :: h in live ==> !h.primary)
    {
      LiveHosts(Matching(task), unreachable);
      var live := FilterExcluded(Matching(task), unreachable);
      if |live| > 1 {
        PrimaryIsOne(live, 0);
      }
    }

    /** A task's hosts are listed once if the inventory's are. */
    lemma TargetedOnce(task: Task)
      ensures Unambiguous() ==> Once(Targeted(task))
    {
      if skip && Unambiguous() {
        FilterKeepsOnce(cfg.hosts, Passing(AudienceOf(task), task.roles, roles, limit), requiredHosts);
        FilterKeepsOnce(Matching(task), NotIn(unreachable), requiredHosts);
        TargetsMean(task, unreachable);
        if |Targeted(task)| == 1 {
          OneIsOnce(Targeted(task));
        }
      }
    }

    lemma OneIsOnce(hosts: seq<Host>)
      requires |hosts| == 1
      ensures Once(hosts)
    {
    }

    // ---- Reachability policy ----

    ghost method Record(e: Event)
      requires Valid() && !e.Mark? && (Unambiguous() ==> Targets(e) !! unreachable)
      modifies this`log
      ensures Valid() && log == old(log) + [e]
    {
      Snoc(log, e);
      log := log + [e];
    }

    /** Logs a task command sent to a single host. */
    ghost method RecordOne(host: string, err: Option<Error>)
      requires Valid() && (Unambiguous() ==> host !in unreachable)
      modifies this`log
      ensures Valid() && TaskOnly(old(log), log) && log == old(log) + [Sent(host, err)]
    {
      var results := [Result(host, err)];
      assert results[0].host == host && forall i :: 0 <= i < |results| ==> results[i].host == host;
      Record(Sent(host, err));
    }

    /** Keeps the account valid where the policy lets the host go, which is what all callers check first. */
    method MarkUnreachable(host: string)
      requires unreachable == Marked(log)
      modifies this`unreachable, this`log
      ensures unreachable == old(unreachable) + {host} == Marked(log) && log == old(log) + [Mark(host)]
      ensures old(Valid()) && skip && host !in requiredHosts ==> Valid()
    {
      Snoc(log, Mark(host));
      log := log + [Mark(host)];
      unreachable := unreachable + {host};
    }

    /** Keeps the account valid if nothing has been marked yet, as when a deploy starts. */
    method SetUnreachablePolicy(skip: bool, required: set<string>)
      modifies this`skip, this`requiredHosts
      ensures this.skip == skip && requiredHosts == required
      ensures old(Valid()) && unreachable == {} ==> Valid()
    {
      if unreachable == Marked(log) == {} {
        NothingMarked(log);
      }
      this.skip := skip;
      requiredHosts := required;
    }

    /** The first pass over the results: whether the step fails, and with which error. */
    static method Verdict(results: seq<Result>, required: string -> bool) returns (err: Option<Error>)
      ensures err.None? <==> forall i :: 0 <= i < |results| ==> !Fatal(results[i], required)
      ensures err.Some? ==> exists i: nat :: Decisive(results, required, i) && Reports(err.value, results[i])
    {
      var canceled: Option<Error> := None;
      ghost var at := 0;
      for i := 0 to |results|
        invariant forall j :: 0 <= j < i && Fatal(results[j], required) ==> canceled.Some? && !IsHard(results[j])
        invariant canceled.Some? ==>
                    && at < i && Fatal(results[at], required) && Reports(canceled.value, results[at])
                    && forall j :: 0 <= j < at ==> !Fatal(results[j], required)
      {
        var r := results[i];
        if r.err.Some? {
          if IsContext(r.err.value) {
            if canceled.None? {
              canceled := Some(Wrapped(r.host, r.err.value));
              at := i;
            }
          } else if !IsUnreachable(r.err.value) {
            assert Decisive(results, required, i);
            return Some(Wrapped(r.host, r.err.value));
          } else if required(r.host) {
            assert Decisive(results, required, i);
            return Some(Wrapped("required host " + r.host + " unreachable", r.err.value));
          }
        }
      }
      if canceled.Some? {
        assert Decisive(results, required, at);
      }
      return canceled;
    }

    /**
     The on_unreachable: skip verdict for one step. Either every failure is a droppable one, and
     exactly the failing hosts are marked and leave the list, or the step fails, nothing is marked,
     and the error names a real failure in preference to a cancelled bystander.
     */
    method SkipUnreachable(hosts: seq<Host>, results: seq<Result>, required: string -> bool)
      returns (live: seq<Host>, err: Option<Error>)
      requires Valid() && skip
      requires forall h :: h in requiredHosts ==> required(h)
      modifies this`unreachable, this`log
      ensures Valid() && MarksOnly(old(log), log)
      ensures err.None? <==> forall i :: 0 <= i < |results| ==> !Fatal(results[i], required)
      ensures err.None? <==>
                forall i :: 0 <= i < |results| && results[i].err.Some? ==>
                  var e := results[i].err.value;
                  IsUnreachable(e) && !IsContext(e) && !required(results[i].host)
      ensures err.None? ==> unreachable == old(unreachable) + FailedHosts(results)
      ensures err.None? ==> live == FilterExcluded(hosts, FailedHosts(results))
      ensures AllSucceeded(results) ==> log == old(log)
      ensures err.Some? ==> unreachable == old(unreachable) && log == old(log) && live == hosts
      ensures err.Some? ==> exists i: nat :: Decisive(results, required, i) && Reports(err.value, results[i])
    {
      err := Verdict(results, required);
      if err.Some? {
        return hosts, err;
      }
      var dropped := {};
      for i := 0 to |results|
        invariant Valid() && MarksOnly(old(log), log)
        invariant dropped == FailedHosts(results[..i])
        invariant unreachable == old(unreachable) + dropped
        invariant AllSucceeded(results) ==> log == old(log)
      {
        assert !Fatal(results[i], required);
        assert results[..i + 1] == results[..i] + [results[i]];
        FailedHostsSnoc(results[..i], results[i]);
        if results[i].err.Some? {
          MarkUnreachable(results[i].host);
          dropped := dropped + {results[i].host};
        }
      }
      assert results[..|results|] == results;
      live := FilterExcluded(hosts, dropped);
    }

    /** on_unreachable for one step of a task: the hosts still live, or the failure. */
    method ApplyUnreachablePolicy(hosts: seq<Host>, results: seq<Result>)
      returns (live: seq<Host>, err: Option<Error>)
      requires Valid() && NoneIn(hosts, unreachable) && ResultsOf(hosts, results)
      modifies this`unreachable, this`log
      ensures Valid() && TaskOnly(old(log), log)
      ensures MarksOnly(old(log), log)
      ensures err.None? ==> live == FilterExcluded(hosts, FailedHosts(results))
      ensures !skip ==> (err.None? <==> AllSucceeded(results)) && unreachable == old(unreachable)
      ensures err.None? && skip ==> unreachable == old(unreachable) + FailedHosts(results)
      ensures err.Some? ==> unreachable == old(unreachable)
      ensures err.None? <==> !Decides(Policy(), results)
      ensures err.Some? ==> exists i: nat :: i < |results| && Reports(err.value, results[i]) &&
                              if skip then Decisive(results, Required(), i) else MostInformative(results, i)
    {
      if !skip {
        err := FirstError(results);
        if err.None? {
          ExcludeNothing(hosts, FailedHosts(results));
        }
        return hosts, err;
      }
      live, err := SkipUnreachable(hosts, results, Required());
    }

    function Required(): string -> bool
      reads this`requiredHosts
    {
      var required := requiredHosts;
      (h: string) => h in required
    }

    /** on_unreachable: skip for a single host; here the context itself is tested, not the error. */
    method DropUnreachable(host: string, err: Error) returns (dropped: bool)
      requires Valid()
      modifies this`unreachable, this`log, this`clock
      ensures Valid() && TaskOnly(old(log), log)
      ensures dropped <==> Drops(world, Policy(), old(clock), host, err)
      ensures dropped <==>
                skip && !world.contextDone(old(clock.asked)) && IsUnreachable(err) && host !in requiredHosts
      ensures unreachable == old(unreachable) + (if dropped then {host} else {}) && clock == old(clock).Later(1)
      ensures log == if dropped then old(log) + [Mark(host)] else old(log)
    {
      var done := world.contextDone(clock.asked);
      clock := clock.Later(1);
      if !skip || done || !IsUnreachable(err) || host in requiredHosts {
        return false;
      }
      MarkUnreachable(host);
      return true;
    }

    // ---- Running commands ----

    /** A local shell, or a plugin. */
    method OperatorSide() returns (err: Option<Error>)
      modifies this`clock
      ensures err == world.operatorSide(old(clock.operator))
      ensures clock == old(clock).(operator := old(clock.operator) + 1)
    {
      err := world.operatorSide(clock.operator);
      clock := clock.(operator := clock.operator + 1);
    }

    /** A function a plugin has registered for a phase. */
    method CallHook() returns (err: Option<Error>)
      requires Valid()
      modifies this`clock, this`log
      ensures Valid() && log == old(log) + [HookCall(err)]
      ensures AllWell(world) ==> err.None?
    {
      err := OperatorSide();
      Record(HookCall(err));
    }

    /** Cluster.Run: one result per target, in target order. */
    method Fan(hosts: seq<Host>) returns (results: seq<Result>)
      modifies this`clock
      ensures ResultsOf(hosts, results) && clock == old(clock).Later(1)
      ensures forall i :: 0 <= i < |hosts| ==> results[i].err == world.outcome(old(clock.asked), i)
      ensures AllWell(world) ==> AllSucceeded(results)
    {
      var now := clock.asked;
      results := seq(|hosts|, i requires 0 <= i < |hosts| => Result(hosts[i].address, world.outcome(now, i)));
      clock := clock.Later(1);
    }

    /** The shared body of RunOn and RunOnReport; a dry run sends nothing and returns no results. */
    method RunOnReport(hosts: seq<Host>, cmd: BuiltIn) returns (results: seq<Result>)
      requires Valid() && NoneIn(hosts, unreachable)
      modifies this`clock, this`log
      ensures Valid()
      ensures dryRun || hosts == [] ==> results == [] && log == old(log)
      ensures !dryRun && hosts != [] ==> ResultsOf(hosts, results) && log == old(log) + [Logged(cmd, results)]
      ensures AllWell(world) ==> AllSucceeded(results)
    {
      if |hosts| == 0 || dryRun {
        return [];
      }
      results := Fan(hosts);
      Record(Logged(cmd, results));
    }

    method RunOn(hosts: seq<Host>, cmd: BuiltIn) returns (err: Option<Error>, ghost results: seq<Result>)
      requires Valid() && NoneIn(hosts, unreachable)
      modifies this`clock, this`log
      ensures Valid()
      ensures dryRun || hosts == [] ==> results == [] && log == old(log)
      ensures !dryRun && hosts != [] ==> ResultsOf(hosts, results) && log == old(log) + [Logged(cmd, results)]
      ensures err.None? <==> AllSucceeded(results)
      ensures AllWell(world) ==> err.None?
    {
      var rs := RunOnReport(hosts, cmd);
      results := rs;
      var failed := Failed(rs);
      if failed {
        err := FirstError(rs);
      } else {
        err := None;
      }
    }

    /** Reads a value off one host for the lifecycle. */
    method Capture(host: Host) returns (c: Captured)
      requires Valid() && host.address !in unreachable
      modifies this`clock, this`log
      ensures Valid() && log == old(log) + [Read(host.address, c.err)]
      ensures clock == old(clock).Later(1) && c == world.captured(old(clock.asked))
    {
      c := world.captured(clock.asked);
      clock := clock.Later(1);
      Record(Read(host.address, c.err));
    }

    // ---- What a task owes ----

    ghost function Now(): Stand
      reads this
    {
      Stand(log, unreachable, clock, taskState)
    }

    /**
     A remote task: every command goes to its targets in order, less all hosts dropped before it; without a failure
     all its steps were rendered and sent, unless no target is left; and it fails exactly if a step cannot be rendered
     for a host, or the results of a command decide so and failures are not ignored.
     */
    ghost predicate RemoteOwes(policy: Policy, task: Task, before: Stand, err: Option<Error>, after: Stand) {
      var targets := TargetsAt(task, before.unreachable);
      && ToSurvivors(after.log, |before.log|, targets)
      && (dryRun ==> after.log == before.log)
      && (err.None? && !dryRun ==>
            || Commands(after.log) == Commands(before.log) + |task.cmds| + |task.scripts|
            || FilterExcluded(targets, after.unreachable) == [])
      && (targets != [] && err.None? ==>
            after.clock.rendered - before.clock.rendered >
            if dryRun then |task.cmds| + |task.scripts| else Commands(after.log) - Commands(before.log))
      && (err.None? <==>
            && AllRendered(world, before.clock, after.clock)
            && (task.continueOnError || Undecided(policy, after.log, |before.log|)))
      && after.taskState == before.taskState
    }

    /** A local task: one shell for each step, no host involved, and it fails likewise. */
    ghost predicate LocalOwes(task: Task, before: Stand, err: Option<Error>, after: Stand) {
      && after.log == before.log && after.unreachable == before.unreachable && after.taskState == before.taskState
      && (err.None? ==>
            && after.clock.rendered == before.clock.rendered + 1 + |task.cmds| + |task.scripts|
            && after.clock.operator == before.clock.operator + if dryRun then 0 else |task.cmds| + |task.scripts|)
      && (err.None? <==>
            && AllRendered(world, before.clock, after.clock)
            && (task.continueOnError || AllDone(world, before.clock, after.clock)))
    }

    /**
     An action: the commands its plugin asks for are sent if it has targets, and it fails exactly if its parameters
     cannot be rendered or, outside a dry run, the plugin is missing or says so.
     */
    ghost predicate ActionOwes(task: Task, before: Stand, err: Option<Error>, after: Stand) {
      && (world.built(before.clock.rendered).None? && !dryRun && world.operatorSide(before.clock.operator).None? &&
          TargetsAt(task, before.unreachable) != [] ==>
            Commands(after.log) >= Commands(before.log) + RunCommands(world.actionCalls(before.clock.asked)))
      && (dryRun ==> after.log == before.log)
      && (err.None? ==> after.clock.operator == before.clock.operator + if dryRun then 0 else 2)
      && (err.None? <==> world.built(before.clock.rendered).None? && AllDone(world, before.clock, after.clock))
      && after.taskState == before.taskState
    }

    /** An output task: the walk over its targets, whose text is stored parsed under its name exactly on success. */
    ghost predicate OutputOwes(policy: Policy, name: string, task: Task, before: Stand, err: Option<Error>,
                               after: Stand)
    {
      var a := Obtained(policy, task, before.unreachable, before.clock, before.log);
      var value := world.parsed(task.output, a.c.text);
      && after.log == a.log && after.clock == a.clock
      && (err.None? <==> a.c.err.None? && value.err.None?)
      && after.taskState == if err.None? then before.taskState[name := value.text] else before.taskState
    }

    /** What the body of a task owes, by the kind of the task. */
    ghost predicate Owes(policy: Policy, name: string, task: Task, before: Stand, err: Option<Error>, after: Stand) {
      && (task.action != "" ==> ActionOwes(task, before, err, after))
      && (task.action == "" && task.output != "" ==> OutputOwes(policy, name, task, before, err, after))
      && (task.action == "" && task.output == "" && task.isLocal ==> LocalOwes(task, before, err, after))
      && (task.action == "" && task.output == "" && !task.isLocal ==> RemoteOwes(policy, task, before, err, after))
    }

    // ---- Task bodies ----

    method RunRemote(task: Task) returns (err: Option<Error>)
      requires Valid()
      modifies this`unreachable, this`clock, this`log
      ensures Valid() && TaskOnly(old(log), log) && old(unreachable) <= unreachable
      ensures RemoteOwes(Policy(), task, old(Now()), err, Now())
      ensures AllWell(world) ==> err.None? && unreachable == old(unreachable)
    {
      var hosts := TargetsForTask(task);
      if |hosts| == 0 {
        return None;
      }
      err := RemoteSteps(task, hosts);
    }

    /** The hosts may shrink between steps; the next step goes to the survivors only. */
    method RemoteSteps(task: Task, targets: seq<Host>) returns (err: Option<Error>)
      requires Valid() && NoneIn(targets, unreachable)
      modifies this`unreachable, this`clock, this`log
      ensures Valid() && TaskOnly(old(log), log) && old(unreachable) <= unreachable
      ensures ToSurvivors(log, |old(log)|, targets) && (dryRun ==> log == old(log))
      ensures err.None? && !dryRun ==>
                || Commands(log) == Commands(old(log)) + |task.cmds| + |task.scripts|
                || FilterExcluded(targets, unreachable) == []
      ensures old(clock.rendered) <= clock.rendered
      ensures targets != [] && err.None? ==>
                clock.rendered - old(clock.rendered) >
                if dryRun then |task.cmds| + |task.scripts| else Commands(log) - Commands(old(log))
      ensures err.None? <==>
                && AllRendered(world, old(clock), clock)
                && (task.continueOnError || Undecided(Policy(), log, |old(log)|))
      ensures AllWell(world) ==> err.None? && unreachable == old(unreachable)
    {
      err := Build();
      if err.Some? {
        return;
      }
      var hosts := targets;
      ExcludeNothing(targets, unreachable);
      for i := 0 to |task.cmds| + |task.scripts|
        invariant Valid() && TaskOnly(old(log), log) && old(unreachable) <= unreachable
        invariant hosts == FilterExcluded(targets, unreachable)
        invariant ToSurvivors(log, |old(log)|, targets) && (dryRun ==> log == old(log))
        invariant Commands(log) == Commands(old(log)) + if dryRun then 0 else i
        invariant old(clock.rendered) <= clock.rendered && AllRendered(world, old(clock), clock)
        invariant targets != [] ==> hosts != [] && clock.rendered > old(clock.rendered) + i
        invariant task.continueOnError || Undecided(Policy(), log, |old(log)|)
        invariant AllWell(world) ==> unreachable == old(unreachable)
      {
        ghost var mid := log;
        hosts, err := RemoteTurn(targets, hosts, task.continueOnError, |old(log)|);
        TaskOnlyThen(old(log), mid, log);
        if err.Some? || |hosts| == 0 {
          return;
        }
      }
      err := None;
    }

    /** Renders a step for the hosts that are left and, unless the run is dry, sends it to them. */
    method RemoteTurn(ghost targets: seq<Host>, hosts: seq<Host>, continueOnError: bool, ghost from: nat)
      returns (live: seq<Host>, err: Option<Error>)
      requires Valid() && hosts == FilterExcluded(targets, unreachable)
      requires from <= |log| && ToSurvivors(log, from, targets)
      requires continueOnError || Undecided(Policy(), log, from)
      modifies this`unreachable, this`clock, this`log
      ensures Valid() && TaskOnly(old(log), log) && old(unreachable) <= unreachable
      ensures ToSurvivors(log, from, targets) && (dryRun ==> log == old(log))
      ensures err.None? ==> live == FilterExcluded(targets, unreachable)
      ensures err.None? ==> Commands(log) == Commands(old(log)) + if dryRun then 0 else 1
      ensures clock.rendered >= old(clock.rendered) && (err.None? ==> clock.rendered == old(clock.rendered) + |hosts|)
      ensures err.None? <==>
                AllRendered(world, old(clock), clock) && (continueOnError || Undecided(Policy(), log, from))
      ensures AllWell(world) ==> err.None? && unreachable == old(unreachable)
    {
      live := hosts;
      err := RenderFor(hosts);
      if err.None? && !dryRun {
        live, err := RemoteStep(targets, hosts, continueOnError, from);
      }
    }

    /** Renders a step for each host. */
    method RenderFor(hosts: seq<Host>) returns (err: Option<Error>)
      modifies this`clock
      ensures clock == old(clock).(rendered := clock.rendered) && old(clock.rendered) <= clock.rendered
      ensures err.None? <==> AllRendered(world, old(clock), clock)
      ensures err.None? ==> clock.rendered == old(clock.rendered) + |hosts|
      ensures AllWell(world) ==> err.None?
    {
      for i := 0 to |hosts|
        invariant clock == old(clock).(rendered := old(clock.rendered) + i)
        invariant AllRendered(world, old(clock), clock)
      {
        err := Build();
        if err.Some? {
          return;
        }
      }
      err := None;
    }

    /** A task command on live hosts, logged. */
    method Send(hosts: seq<Host>) returns (results: seq<Result>)
      requires Valid() && NoneIn(hosts, unreachable)
      modifies this`clock, this`log
      ensures Valid() && TaskOnly(old(log), log) && log == old(log) + [TaskCommand(results)]
      ensures ResultsOf(hosts, results) && clock == old(clock).Later(1)
      ensures AllWell(world) ==> AllSucceeded(results)
    {
      results := Fan(hosts);
      Record(TaskCommand(results));
    }

    /** One command on the task's hosts: the hosts left for the next one, or the failure that ends the task. */
    method RemoteStep(ghost targets: seq<Host>, hosts: seq<Host>, continueOnError: bool, ghost from: nat)
      returns (live: seq<Host>, err: Option<Error>)
      requires Valid() && hosts == FilterExcluded(targets, unreachable)
      requires from <= |log| && ToSurvivors(log, from, targets)
      requires continueOnError || Undecided(Policy(), log, from)
      modifies this`unreachable, this`clock, this`log
      ensures Valid() && TaskOnly(old(log), log) && old(unreachable) <= unreachable
      ensures ToSurvivors(log, from, targets) && Commands(log) == Commands(old(log)) + 1
      ensures err.None? ==> live == FilterExcluded(targets, unreachable)
      ensures continueOnError ==> live == hosts && err.None?
      ensures err.None? <==> continueOnError || Undecided(Policy(), log, from)
      ensures clock == old(clock).Later(1)
      ensures AllWell(world) ==> err.None? && unreachable == old(unreachable)
    {
      LiveHosts(targets, unreachable);
      var results := Send(hosts);
      Snoc(old(log), TaskCommand(results));
      live, err := hosts, None;
      var failed := Failed(results);
      if failed && !continueOnError {
        ghost var sent := log;
        live, err := ApplyUnreachablePolicy(hosts, results);
        TaskOnlyThen(old(log), sent, log);
        MarksKeep(sent, log, from, targets);
        MarksKeepUndecided(Policy(), sent, log, from);
        if err.None? {
          ExcludeTwice(targets, old(unreachable), FailedHosts(results));
        }
      }
    }

    method RunLocal(task: Task) returns (err: Option<Error>)
      modifies this`clock
      ensures LocalOwes(task, old(Now()), err, Now())
      ensures AllWell(world) ==> err.None?
    {
      err := Build();
      if err.Some? {
        return;
      }
      for i := 0 to |task.cmds| + |task.scripts|
        invariant old(clock.rendered) <= clock.rendered && AllRendered(world, old(clock), clock)
        invariant clock.rendered == old(clock.rendered) + 1 + i
        invariant clock.operator == old(clock.operator) + if dryRun then 0 else i
        invariant task.continueOnError || AllDone(world, old(clock), clock)
      {
        err := Build();
        if err.Some? {
          return;
        }
        if !dryRun {
          err := OperatorSide();
          if err.Some? && !task.continueOnError {
            return;
          }
        }
      }
      err := None;
    }

    method Build() returns (err: Option<Error>)
      modifies this`clock
      ensures clock == old(clock).Rendered()
      ensures err == if world.built(old(clock.rendered)).None? then None
                     else Some(Plain(world.built(old(clock.rendered)).value))
    {
      var built := world.built(clock.rendered);
      clock := clock.Rendered();
      err := if built.None? then None else Some(Plain(built.value));
    }

    /** Runs an output task's steps on one target; remote is None for the operator's machine. */
    method CaptureOn(task: Task, remote: Option<string>) returns (c: Captured)
      requires Valid()
      requires Unambiguous() && remote.Some? ==> remote.value !in unreachable
      modifies this`clock, this`log
      ensures Valid() && TaskOnly(old(log), log)
      ensures After(log, c, clock) == Attempted(world, task, dryRun, remote, 0, old(clock), "", old(log))
    {
      var text := "";
      for i := 0 to StepCount(task)
        invariant Valid() && TaskOnly(old(log), log)
        invariant Attempted(world, task, dryRun, remote, i, clock, text, log) ==
                  Attempted(world, task, dryRun, remote, 0, old(clock), "", old(log))
      {
        var ended;
        ghost var mid := log;
        ended, c, text := CaptureStep(task, remote, i, text);
        TaskOnlyThen(old(log), mid, log);
        if ended {
          return;
        }
      }
      c := Captured(text, None);
    }

    /** One step of an output task: it ends the attempt, or leaves the text collected so far. */
    method CaptureStep(task: Task, remote: Option<string>, i: nat, text: string)
      returns (ended: bool, c: Captured, longer: string)
      requires Valid() && i < StepCount(task)
      requires Unambiguous() && remote.Some? ==> remote.value !in unreachable
      modifies this`clock, this`log
      ensures Valid() && TaskOnly(old(log), log)
      ensures Attempted(world, task, dryRun, remote, i, old(clock), text, old(log)) ==
              if ended then After(log, c, clock)
              else Attempted(world, task, dryRun, remote, i + 1, clock, longer, log)
    {
      ended, longer, c := false, text, Captured("", None);
      var err := Build();
      if err.Some? {
        return true, Captured("", err), text;
      }
      if !dryRun {
        c := Ask(remote);
        if c.err.None? {
          longer := text + c.text + "\n";
        } else if !task.continueOnError {
          return true, Captured("", Some(Wrapped(Label(remote), c.err.value))), text;
        }
      }
    }

    method Ask(remote: Option<string>) returns (c: Captured)
      requires Valid()
      requires Unambiguous() && remote.Some? ==> remote.value !in unreachable
      modifies this`clock, this`log
      ensures Valid() && TaskOnly(old(log), log)
      ensures clock == old(clock).Later(1) && c == world.captured(old(clock.asked))
      ensures log == Noted(old(log), remote, c.err)
    {
      c := world.captured(clock.asked);
      clock := clock.Later(1);
      if remote.Some? {
        RecordOne(remote.value, c.err);
      }
    }

    /** What an output task comes to before anything is parsed or stored. */
    function Obtained(policy: Policy, task: Task, unreachable: set<string>, clock: Time, log: seq<Event>): After {
      var targets, built := TargetsAt(task, unreachable), world.built(clock.rendered);
      if !task.isLocal && targets == [] then After(log, Captured("", None), clock)
      else if built.Some? then After(log, Captured("", Some(Plain(built.value))), clock.Rendered())
      else if task.isLocal then Attempted(world, task, dryRun, None, 0, clock.Rendered(), "", log)
      else OutputWalk(world, policy, task, dryRun, targets, clock.Rendered(), log)
    }

    /** An output task reads one value, from the first target that is not dropped on the way, and stores it parsed. */
    method RunCapture(name: string, task: Task) returns (err: Option<Error>)
      requires Valid()
      modifies this`unreachable, this`clock, this`log, this`taskState
      ensures Valid() && TaskOnly(old(log), log) && old(unreachable) <= unreachable
      ensures OutputOwes(Policy(), name, task, old(Now()), err, Now())
      ensures AllWell(world) ==> err.None? && unreachable == old(unreachable)
    {
      var c := Obtain(task);
      if c.err.Some? {
        return c.err;
      }
      var value := world.parsed(task.output, c.text);
      err := value.err;
      if err.None? {
        taskState := taskState[name := value.text];
      }
    }

    method Obtain(task: Task) returns (c: Captured)
      requires Valid()
      modifies this`unreachable, this`clock, this`log
      ensures Valid() && TaskOnly(old(log), log) && old(unreachable) <= unreachable
      ensures After(log, c, clock) == Obtained(Policy(), task, old(unreachable), old(clock), old(log))
      ensures AllWell(world) ==> c.err.None? && unreachable == old(unreachable)
    {
      var hosts := TargetsForTask(task);
      TargetedOnce(task);
      if !task.isLocal && |hosts| == 0 {
        return Captured("", None);
      }
      var err := Build();
      if err.Some? {
        return Captured("", err);
      }
      if task.isLocal {
        if AllWell(world) {
          WellAttempt(world, task, dryRun, None, clock, log);
        }
        c := CaptureOn(task, None);
      } else {
        ghost var dropped;
        if AllWell(world) {
          WellOutputWalk(world, Policy(), task, dryRun, hosts, clock, log);
        }
        c, dropped := CaptureFrom(task, hosts);
      }
    }

    /** The hosts are tried in order: those before the one that decides were dropped, and no other was. */
    method CaptureFrom(task: Task, hosts: seq<Host>) returns (c: Captured, ghost dropped: nat)
      requires Valid() && NoneIn(hosts, unreachable) && hosts != [] && (Unambiguous() ==> Once(hosts))
      modifies this`unreachable, this`clock, this`log
      ensures Valid() && TaskOnly(old(log), log)
      ensures dropped <= |hosts| && unreachable == old(unreachable) + AddressSet(hosts[..dropped])
      ensures c.err.None? ==> dropped < |hosts|
      ensures After(log, c, clock) == OutputWalk(world, Policy(), task, dryRun, hosts, old(clock), old(log))
    {
      c, dropped := Captured("", None), 0;
      ghost var all := OutputWalk(world, Policy(), task, dryRun, hosts, clock, log);
      assert hosts[0..] == hosts;
      for i := 0 to |hosts|
        invariant Valid() && TaskOnly(old(log), log)
        invariant dropped == i && unreachable == old(unreachable) + AddressSet(hosts[..i])
        invariant i > 0 ==> c.err.Some?
        invariant Unambiguous() ==> NoneIn(hosts[i..], unreachable)
        invariant all == if i == |hosts| then After(log, c, clock)
                         else OutputWalk(world, Policy(), task, dryRun, hosts[i..], clock, log)
      {
        AddressSetSnoc(hosts, i);
        var ended;
        ghost var mid := log;
        ended, c := TryHost(task, hosts, i);
        TaskOnlyThen(old(log), mid, log);
        if ended {
          return;
        }
        dropped := i + 1;
      }
    }

    /** One host of the walk: it decides, or is dropped. */
    method TryHost(task: Task, hosts: seq<Host>, i: nat) returns (ended: bool, c: Captured)
      requires Valid() && i < |hosts| && (Unambiguous() ==> Once(hosts) && NoneIn(hosts[i..], unreachable))
      modifies this`unreachable, this`clock, this`log
      ensures Valid() && TaskOnly(old(log), log)
      ensures !ended ==> c.err.Some? && (Unambiguous() ==> NoneIn(hosts[i + 1..], unreachable))
      ensures unreachable == old(unreachable) + if ended then {} else {hosts[i].address}
      ensures OutputWalk(world, Policy(), task, dryRun, hosts[i..], old(clock), old(log)) ==
              if ended || i + 1 == |hosts| then After(log, c, clock)
              else OutputWalk(world, Policy(), task, dryRun, hosts[i + 1..], clock, log)
    {
      assert hosts[i..][0] == hosts[i] && hosts[i..][1..] == hosts[i + 1..];
      c := CaptureOn(task, Some(hosts[i].address));
      if c.err.None? || hosts[i].isLocal {
        return true, c;
      }
      ghost var mid := log;
      var gone := DropFromWalk(hosts, i, c.err.value);
      TaskOnlyThen(old(log), mid, log);
      ended := !gone;
    }

    /** A host that failed to answer is dropped or not; if it is, the rest of the list is as live as before. */
    method DropFromWalk(hosts: seq<Host>, i: nat, err: Error) returns (gone: bool)
      requires Valid() && i < |hosts| && (Unambiguous() ==> Once(hosts) && NoneIn(hosts[i..], unreachable))
      modifies this`unreachable, this`clock, this`log
      ensures Valid() && TaskOnly(old(log), log) && clock == old(clock).Later(1)
      ensures gone <==> Drops(world, Policy(), old(clock), hosts[i].address, err)
      ensures log == if gone then old(log) + [Mark(hosts[i].address)] else old(log)
      ensures unreachable == old(unreachable) + if gone then {hosts[i].address} else {}
      ensures gone && Unambiguous() ==> NoneIn(hosts[i + 1..], unreachable)
    {
      gone := DropUnreachable(hosts[i].address, err);
      if gone && Unambiguous() {
        RestStaysLive(hosts, i, old(unreachable));
      }
    }

    lemma RestStaysLive(hosts: seq<Host>, i: nat, before: set<string>)
      requires skip && i < |hosts| && Once(hosts) && NoneIn(hosts[i..], before) && hosts[i].address !in requiredHosts
      ensures NoneIn(hosts[i + 1..], before + {hosts[i].address})
    {
      RestIsLive(hosts, requiredHosts, i);
      var rest, now := hosts[i + 1..], before + {hosts[i].address};
      forall j | 0 <= j < |rest|
        ensures rest[j].address !in now
      {
        assert rest[j] == hosts[i..][j + 1];
      }
    }

    /** A command on an action's hosts; hosts dropped since the action started are left out first. */
    method RunOnTargets(hosts: seq<Host>) returns (err: Option<Error>, ghost results: seq<Result>)
      requires Valid()
      modifies this`unreachable, this`clock, this`log
      ensures Valid() && TaskOnly(old(log), log) && old(unreachable) <= unreachable
      ensures ToSurvivors(log, |old(log)|, hosts) && Commands(log) == Commands(old(log)) + 1
      ensures ResultsOf(FilterExcluded(hosts, old(unreachable)), results)
      ensures old(log) + [TaskCommand(results)] <= log
      ensures err.None? <==> !Decides(Policy(), results)
      ensures AllWell(world) ==> unreachable == old(unreachable)
      ensures clock == old(clock).Later(1)
    {
      var live := FilterExcluded(hosts, unreachable);
      LiveHosts(hosts, unreachable);
      var rs := Send(live);
      results := rs;
      OneCommand(old(log), rs, hosts);
      ghost var sent := log;
      live, err := ApplyUnreachablePolicy(live, rs);
      TaskOnlyThen(old(log), sent, log);
      MarksKeep(sent, log, |old(log)|, hosts);
    }

    /** Reads a value off the first of an action's live hosts that is not dropped on the way. */
    method CaptureForAction(hosts: seq<Host>) returns (c: Captured, ghost dropped: nat)
      requires Valid() && NoneIn(hosts, unreachable) && (Unambiguous() ==> Once(hosts))
      modifies this`unreachable, this`clock, this`log
      ensures Valid() && TaskOnly(old(log), log)
      ensures dropped <= |hosts| && unreachable == old(unreachable) + AddressSet(hosts[..dropped])
      ensures c.err.None? ==> dropped < |hosts|
      ensures After(log, c, clock) == ActionWalk(world, Policy(), hosts, old(clock), old(log))
    {
      dropped := 0;
      ghost var all := ActionWalk(world, Policy(), hosts, clock, log);
      assert hosts[0..] == hosts;
      for i := 0 to |hosts|
        invariant Valid() && TaskOnly(old(log), log)
        invariant dropped == i && unreachable == old(unreachable) + AddressSet(hosts[..i])
        invariant Unambiguous() ==> NoneIn(hosts[i..], unreachable)
        invariant all == ActionWalk(world, Policy(), hosts[i..], clock, log)
      {
        AddressSetSnoc(hosts, i);
        var ended;
        ghost var mid := log;
        ended, c := TryActionHost(hosts, i);
        TaskOnlyThen(old(log), mid, log);
        if ended {
          return;
        }
        dropped := i + 1;
      }
      c := NO_HOSTS;
    }

    /** One host of the walk: it decides, or is dropped. */
    method TryActionHost(hosts: seq<Host>, i: nat) returns (ended: bool, c: Captured)
      requires Valid() && i < |hosts| && (Unambiguous() ==> Once(hosts) && NoneIn(hosts[i..], unreachable))
      modifies this`unreachable, this`clock, this`log
      ensures Valid() && TaskOnly(old(log), log)
      ensures !ended ==> Unambiguous() ==> NoneIn(hosts[i + 1..], unreachable)
      ensures unreachable == old(unreachable) + if ended then {} else {hosts[i].address}
      ensures ActionWalk(world, Policy(), hosts[i..], old(clock), old(log)) ==
              if ended then After(log, c, clock) else ActionWalk(world, Policy(), hosts[i + 1..], clock, log)
    {
      assert hosts[i..][0] == hosts[i] && hosts[i..][1..] == hosts[i + 1..];
      c := Ask(Some(hosts[i].address));
      if c.err.None? {
        return true, c;
      }
      ghost var mid := log;
      var gone := DropFromWalk(hosts, i, c.err.value);
      TaskOnlyThen(old(log), mid, log);
      ended := !gone;
    }

    /** The plugin decides which host operations to call and what to make of their errors. */
    method RunAction(task: Task) returns (err: Option<Error>)
      requires Valid()
      modifies this`unreachable, this`clock, this`log
      ensures Valid() && TaskOnly(old(log), log) && old(unreachable) <= unreachable
      ensures ActionOwes(task, old(Now()), err, Now())
      ensures AllWell(world) ==> err.None? && unreachable == old(unreachable)
    {
      err := Build();
      if err.None? && !dryRun {
        err := Act(task);
      }
    }

    /** Looks the plugin up and lets it act on the task's hosts. */
    method Act(task: Task) returns (err: Option<Error>)
      requires Valid()
      modifies this`unreachable, this`clock, this`log
      ensures Valid() && TaskOnly(old(log), log) && old(unreachable) <= unreachable
      ensures err.None? <==> AllDone(world, old(clock), clock)
      ensures err.None? ==> clock.operator == old(clock.operator) + 2
      ensures world.operatorSide(old(clock.operator)).None? && old(Targeted(task)) != [] ==>
                Commands(log) >= Commands(old(log)) + RunCommands(world.actionCalls(old(clock.asked)))
      ensures AllWell(world) ==> err.None? && unreachable == old(unreachable)
    {
      err := OperatorSide();
      if err.Some? {
        return;
      }
      LetPluginAct(task);
      err := OperatorSide();
    }

    method LetPluginAct(task: Task)
      requires Valid()
      modifies this`unreachable, this`clock, this`log
      ensures Valid() && TaskOnly(old(log), log) && old(unreachable) <= unreachable
      ensures clock.operator == old(clock.operator)
      ensures old(Targeted(task)) != [] ==>
                Commands(log) >= Commands(old(log)) + RunCommands(world.actionCalls(old(clock.asked)))
      ensures AllWell(world) ==> unreachable == old(unreachable)
    {
      var hosts := TargetsForTask(task);
      TargetedOnce(task);
      var calls := world.actionCalls(clock.asked);
      clock := clock.Later(1);
      PerformCalls(hosts, calls);
    }

    method PerformCalls(hosts: seq<Host>, calls: seq<ActionCall>)
      requires Valid() && (Unambiguous() ==> Once(hosts))
      modifies this`unreachable, this`clock, this`log
      ensures Valid() && TaskOnly(old(log), log) && old(unreachable) <= unreachable
      ensures clock.operator == old(clock.operator)
      ensures hosts != [] ==> Commands(log) >= Commands(old(log)) + RunCommands(calls)
      ensures AllWell(world) ==> unreachable == old(unreachable)
    {
      for i := 0 to |calls|
        invariant Valid() && TaskOnly(old(log), log) && old(unreachable) <= unreachable
        invariant clock.operator == old(clock.operator)
        invariant hosts != [] ==> Commands(log) >= Commands(old(log)) + RunCommands(calls[..i])
        invariant AllWell(world) ==> unreachable == old(unreachable)
      {
        ghost var upTo := calls[..i + 1];
        assert upTo[..|upTo| - 1] == calls[..i] && upTo[|upTo| - 1] == calls[i];
        ghost var mid := log;
        PerformCall(hosts, calls[i]);
        TaskOnlyThen(old(log), mid, log);
      }
      assert calls[..|calls|] == calls;
    }

    method PerformCall(hosts: seq<Host>, call: ActionCall)
      requires Valid() && (Unambiguous() ==> Once(hosts))
      modifies this`unreachable, this`clock, this`log
      ensures Valid() && TaskOnly(old(log), log) && old(unreachable) <= unreachable
      ensures clock.operator == old(clock.operator) && Commands(log) >= Commands(old(log))
      ensures call.RunCommand? && hosts != [] ==> Commands(log) == Commands(old(log)) + 1
      ensures call.WriteFile? && hosts != [] && AllRendered(world, old(clock), clock) ==>
                Commands(log) == Commands(old(log)) + 1
      ensures call.CaptureCommand? ==>
                log == ActionWalk(world, Policy(), FilterExcluded(hosts, old(unreachable)), old(clock), old(log)).log
      ensures AllWell(world) ==> unreachable == old(unreachable)
    {
      if call.CaptureCommand? {
        LiveHosts(hosts, unreachable);
        if skip && Unambiguous() {
          FilterKeepsOnce(hosts, NotIn(unreachable), requiredHosts);
        }
        var live := FilterExcluded(hosts, unreachable);
        ActionWalkKeeps(world, Policy(), live, clock, log);
        var _, _ := CaptureForAction(live);
        CommandsGrow(old(log), log);
      } else if |hosts| > 0 {
        var built: Option<Error> := None;
        if call.WriteFile? {
          built := RenderFor(hosts);
        }
        if built.None? {
          var _, _ := RunOnTargets(hosts);
        }
      }
    }

    /** Routes a task to its kind of execution; quiet says whether its output was being captured. */
    method DispatchTask(name: string, task: Task) returns (err: Option<Error>, ghost quiet: bool)
      requires Valid()
      modifies this`unreachable, this`clock, this`log, this`taskState
      ensures Valid() && TaskOnly(old(log), log) && old(unreachable) <= unreachable
      ensures Owes(Policy(), name, task, old(Now()), err, Now())
      ensures AllWell(world) ==> err.None? && unreachable == old(unreachable)
      ensures quiet == capture.Some?
    {
      quiet := capture.Some?;
      if task.action != "" {
        err := RunAction(task);
      } else if task.output != "" {
        err := RunCapture(name, task);
      } else if task.isLocal {
        err := RunLocal(task);
      } else {
        err := RunRemote(task);
      }
    }

    // ---- The task engine ----

    function Engine(): Tasks {
      Tasks(cfg.tasks, cfg.hooks, stage, inactivePlugins)
    }

    /** The body of a task, noted with how it ended. */
    method RunBody(name: string, task: Task) returns (err: Option<Error>, ghost quiet: bool)
      requires Valid() && out == clusterOut
      modifies this`unreachable, this`clock, this`log, this`taskState, this`bodies
      modifies this`out, this`clusterOut, this`capture
      ensures Valid() && TaskOnly(old(log), log) && old(unreachable) <= unreachable
      ensures Owes(Policy(), name, task, old(Now()), err, Now())
      ensures AllWell(world) ==> err.None? && unreachable == old(unreachable)
      ensures bodies == old(bodies) + [Body(name, err.None?, logTask, phase)]
      ensures quiet == (old(capture).Some? || (task.silentOutput && !dryRun))
      ensures out == old(out) && clusterOut == old(clusterOut) && capture == old(capture)
    {
      err, quiet := Dispatch(name, task);
      ghost var after := Now();
      bodies := bodies + [Body(name, err.None?, logTask, phase)];
      assert Now() == after;
    }

    method Dispatch(name: string, task: Task) returns (err: Option<Error>, ghost quiet: bool)
      requires Valid() && out == clusterOut
      modifies this`unreachable, this`clock, this`log, this`taskState
      modifies this`out, this`clusterOut, this`capture
      ensures Valid() && TaskOnly(old(log), log) && old(unreachable) <= unreachable
      ensures Owes(Policy(), name, task, old(Now()), err, Now())
      ensures AllWell(world) ==> err.None? && unreachable == old(unreachable)
      ensures out == old(out) && clusterOut == old(clusterOut) && capture == old(capture)
      ensures quiet == (old(capture).Some? || (task.silentOutput && !dryRun))
    {
      if task.silentOutput && !dryRun && capture.None? {
        err, quiet := DispatchSilent(name, task);
      } else {
        err, quiet := DispatchTask(name, task);
      }
    }

    /** What the engine needs to know of a body that comes after others. */
    method RunNotedBody(name: string, task: Task, ghost first: seq<Body>, ghost prelude: Expansion)
      returns (err: Option<Error>)
      requires Valid() && out == clusterOut && logTask == name
      requires first <= bodies && Ran(prelude, bodies[|first|..], false) && Under(bodies[|first|..], phase)
      modifies this`unreachable, this`clock, this`log, this`taskState, this`bodies
      modifies this`out, this`clusterOut, this`capture
      ensures Valid() && TaskOnly(old(log), log) && old(unreachable) <= unreachable
      ensures first <= bodies && Ran(prelude.Then(Expansion([name], true)), bodies[|first|..], err.Some?)
      ensures AllWell(world) ==> unreachable == old(unreachable)
      ensures AllWell(world) && AllOk(old(bodies)[|first|..]) ==> AllOk(bodies[|first|..])
      ensures Under(bodies[|first|..], phase)
      ensures out == old(out) && clusterOut == old(clusterOut) && capture == old(capture)
    {
      ghost var quiet;
      err, quiet := RunBody(name, task);
      RanBodyBehind(old(bodies), Body(name, err.None?, logTask, phase));
      RanOn(prelude, Expansion([name], true), first, old(bodies), bodies, err.Some?);
    }

    /** The body with its output diverted to a sink, for a task with silent output. */
    method DispatchSilent(name: string, task: Task) returns (err: Option<Error>, ghost quiet: bool)
      requires Valid() && out == clusterOut && capture.None?
      modifies this`unreachable, this`clock, this`log, this`taskState
      modifies this`out, this`clusterOut, this`capture
      ensures Valid() && TaskOnly(old(log), log) && old(unreachable) <= unreachable
      ensures Owes(Policy(), name, task, old(Now()), err, Now())
      ensures AllWell(world) ==> err.None? && unreachable == old(unreachable)
      ensures out == old(out) && clusterOut == old(clusterOut) && capture == old(capture) && quiet
    {
      var prevOut, sink := out, Sink(clock);
      out, clusterOut, capture := sink, sink, Some(sink);
      err, quiet := DispatchTask(name, task);
      out, clusterOut, capture := prevOut, prevOut, None;
    }

    /**
     Runs a task with everything it names. The bodies that ran are those of the task's expansion
     below the given stack, up to the first failing one, and however the run ends the stack, the log
     tag, the writers and the capture are as they were.
     */
    method RunTask(name: string, stack: TaskStack) returns (err: Option<Error>)
      requires Valid() && out == clusterOut
      modifies this`unreachable, this`clock, this`log, this`taskState, this`bodies
      modifies this`out, this`clusterOut, this`capture, this`logTask, stack
      ensures Valid() && TaskOnly(old(log), log) && old(unreachable) <= unreachable
      ensures stack.names == old(stack.names) && logTask == old(logTask)
      ensures out == old(out) && clusterOut == old(clusterOut) && capture == old(capture)
      ensures old(bodies) <= bodies
      ensures Ran(Expand(Engine(), name, old(stack.names)), bodies[|old(bodies)|..], err.Some?)
      ensures AllWell(world) ==> AllOk(bodies[|old(bodies)|..]) && unreachable == old(unreachable)
      ensures Under(bodies[|old(bodies)|..], phase)
      decreases cfg.tasks.Keys - stack.names, 1, 0
    {
      assert bodies[|bodies|..] == [];
      if name !in cfg.tasks || cfg.tasks[name].None? {
        return Some(Plain("unknown task " + name));
      }
      if name in stack.names {
        return Some(Plain("task dependency cycle through " + name));
      }
      var task := cfg.tasks[name].value;
      stack.names := stack.names + {name};
      var prevLogTask := logTask;
      logTask := name;
      if !task.ActiveForStage(stage) {
        err := None;
      } else if task.action != "" && ActionNamespace(task.action) in inactivePlugins {
        err := None;
      } else {
        assert name in cfg.tasks.Keys - old(stack.names) && name !in cfg.tasks.Keys - stack.names;
        ExpandsTo(name, task, old(stack.names));
        err := RunBracketed(name, task, stack);
      }
      logTask := prevLogTask;
      stack.names := stack.names - {name};
    }

    lemma ExpandsTo(name: string, task: Task, stack: set<string>)
      requires name in cfg.tasks && cfg.tasks[name] == Some(task) && name !in stack && Engine().Active(name)
      ensures Expand(Engine(), name, stack) ==
              ThroughBody(name, task, stack + {name})
              .Then(ExpandAll(Engine(), Engine().After(name), stack + {name}))
    {
    }

    /** Before-hooks, deps, the body, and once it has succeeded the after-hooks. */
    method RunBracketed(name: string, task: Task, stack: TaskStack) returns (err: Option<Error>)
      requires Valid() && out == clusterOut && logTask == name
      modifies this`unreachable, this`clock, this`log, this`taskState, this`bodies
      modifies this`out, this`clusterOut, this`capture, this`logTask, stack
      ensures Valid() && TaskOnly(old(log), log) && old(unreachable) <= unreachable
      ensures stack.names == old(stack.names) && logTask == old(logTask)
      ensures out == old(out) && clusterOut == old(clusterOut) && capture == old(capture)
      ensures old(bodies) <= bodies
      ensures Ran(ThroughBody(name, task, old(stack.names))
                  .Then(ExpandAll(Engine(), Engine().After(name), old(stack.names))),
                  bodies[|old(bodies)|..], err.Some?)
      ensures AllWell(world) ==> AllOk(bodies[|old(bodies)|..]) && unreachable == old(unreachable)
      ensures Under(bodies[|old(bodies)|..], phase)
      decreases cfg.tasks.Keys - stack.names, 5, 0
    {
      ghost var n, names := |bodies|, stack.names;
      err := RunThroughBody(name, task, stack);
      ghost var mid, midLog := bodies, log;
      if err.Some? {
        RanFailed(ThroughBody(name, task, names), mid[n..], ExpandAll(Engine(), Engine().After(name), names));
        return;
      }
      err := RunEach(Engine().After(name), stack);
      TaskOnlyThen(old(log), midLog, log);
      RanOn(ThroughBody(name, task, names), ExpandAll(Engine(), Engine().After(name), names),
            old(bodies), mid, bodies, err.Some?);
      if err.Some? {
        err := Some(Wrapped("after " + name + " hook", err.value));
      }
    }

    ghost function ThroughBody(name: string, task: Task, stack: set<string>): Expansion {
      Prelude(name, task, stack).Then(Expansion([name], true))
    }

    method RunThroughBody(name: string, task: Task, stack: TaskStack) returns (err: Option<Error>)
      requires Valid() && out == clusterOut && logTask == name
      modifies this`unreachable, this`clock, this`log, this`taskState, this`bodies
      modifies this`out, this`clusterOut, this`capture, this`logTask, stack
      ensures Valid() && TaskOnly(old(log), log) && old(unreachable) <= unreachable
      ensures stack.names == old(stack.names) && logTask == old(logTask)
      ensures out == old(out) && clusterOut == old(clusterOut) && capture == old(capture)
      ensures old(bodies) <= bodies
      ensures Ran(ThroughBody(name, task, old(stack.names)), bodies[|old(bodies)|..], err.Some?)
      ensures AllWell(world) ==> AllOk(bodies[|old(bodies)|..]) && unreachable == old(unreachable)
      ensures Under(bodies[|old(bodies)|..], phase)
      decreases cfg.tasks.Keys - stack.names, 4, 0
    {
      err := RunPrelude(name, task, stack);
      ghost var mid, prelude := log, Prelude(name, task, stack.names);
      if err.None? {
        err := RunNotedBody(name, task, old(bodies), prelude);
        TaskOnlyThen(old(log), mid, log);
      } else {
        RanFailed(prelude, bodies[|old(bodies)|..], Expansion([name], true));
      }
    }

    ghost function Prelude(name: string, task: Task, stack: set<string>): Expansion {
      ExpandAll(Engine(), Engine().Before(name), stack).Then(ExpandAll(Engine(), task.deps, stack))
    }

    method RunPrelude(name: string, task: Task, stack: TaskStack) returns (err: Option<Error>)
      requires Valid() && out == clusterOut
      modifies this`unreachable, this`clock, this`log, this`taskState, this`bodies
      modifies this`out, this`clusterOut, this`capture, this`logTask, stack
      ensures Valid() && TaskOnly(old(log), log) && old(unreachable) <= unreachable
      ensures stack.names == old(stack.names) && logTask == old(logTask)
      ensures out == old(out) && clusterOut == old(clusterOut) && capture == old(capture)
      ensures old(bodies) <= bodies
      ensures Ran(Prelude(name, task, old(stack.names)), bodies[|old(bodies)|..], err.Some?)
      ensures AllWell(world) ==> AllOk(bodies[|old(bodies)|..]) && unreachable == old(unreachable)
      ensures Under(bodies[|old(bodies)|..], phase)
      decreases cfg.tasks.Keys - stack.names, 3, 0
    {
      ghost var n := |bodies|;
      ghost var before := ExpandAll(Engine(), Engine().Before(name), stack.names);
      ghost var deps := ExpandAll(Engine(), task.deps, stack.names);
      err := RunEach(Engine().Before(name), stack);
      ghost var mid, midLog := bodies, log;
      if err.Some? {
        RanFailed(before, mid[n..], deps);
        return Some(Wrapped("before " + name + " hook", err.value));
      }
      err := RunEach(task.deps, stack);
      TaskOnlyThen(old(log), midLog, log);
      RanOn(before, deps, old(bodies), mid, bodies, err.Some?);
    }

    /** Runs hooks or deps in listed order, up to the first that fails. */
    method RunEach(names: seq<string>, stack: TaskStack) returns (err: Option<Error>)
      requires Valid() && out == clusterOut
      modifies this`unreachable, this`clock, this`log, this`taskState, this`bodies
      modifies this`out, this`clusterOut, this`capture, this`logTask, stack
      ensures Valid() && TaskOnly(old(log), log) && old(unreachable) <= unreachable
      ensures stack.names == old(stack.names) && logTask == old(logTask)
      ensures out == old(out) && clusterOut == old(clusterOut) && capture == old(capture)
      ensures old(bodies) <= bodies
      ensures Ran(ExpandAll(Engine(), names, old(stack.names)), bodies[|old(bodies)|..], err.Some?)
      ensures AllWell(world) ==> AllOk(bodies[|old(bodies)|..]) && unreachable == old(unreachable)
      ensures Under(bodies[|old(bodies)|..], phase)
      decreases cfg.tasks.Keys - stack.names, 2, 0
    {
      ghost var n := |bodies|;
      for i := 0 to |names|
        invariant Valid() && TaskOnly(old(log), log) && old(unreachable) <= unreachable
        invariant stack.names == old(stack.names) && logTask == old(logTask)
        invariant out == old(out) && clusterOut == old(clusterOut) && capture == old(capture)
        invariant old(bodies) <= bodies
        invariant Ran(ExpandAll(Engine(), names[..i], stack.names), bodies[n..], false)
        invariant AllWell(world) ==> unreachable == old(unreachable)
        invariant Under(bodies[n..], phase)
      {
        ghost var mid, midLog := bodies, log;
        err := RunTask(names[i], stack);
        TaskOnlyThen(old(log), midLog, log);
        Continued(old(bodies), mid, bodies);
        RanNext(Engine(), names, i, stack.names, mid[n..], bodies[|mid|..], err.Some?);
        if err.Some? {
          return;
        }
      }
      assert names[..|names|] == names;
      err := None;
    }

    /** Runs a task with the deploy phase exposed to it, then restores the phase. */
    method RunTaskInPhase(name: string, phase: PhaseName) returns (err: Option<Error>)
      requires Valid() && out == clusterOut
      modifies this`unreachable, this`clock, this`log, this`taskState, this`bodies
      modifies this`out, this`clusterOut, this`capture, this`logTask, this`phase
      ensures Valid() && TaskOnly(old(log), log) && old(unreachable) <= unreachable
      ensures this.phase == old(this.phase) && logTask == old(logTask)
      ensures out == old(out) && clusterOut == old(clusterOut) && capture == old(capture)
      ensures old(bodies) <= bodies
      ensures Ran(Expand(Engine(), name, {}), bodies[|old(bodies)|..], err.Some?)
      ensures AllWell(world) ==> AllOk(bodies[|old(bodies)|..]) && unreachable == old(unreachable)
      ensures Under(bodies[|old(bodies)|..], Some(phase))
    {
      var prev := this.phase;
      this.phase := Some(phase);
      var stack := new TaskStack();
      err := RunTask(name, stack);
      this.phase := prev;
    }
  }

  // ---- A host listed twice ----

  lemma TwiceIsNotFresh(h: Host, stops: Host -> bool)
    requires !stops(h)
    ensures !FreshAsFar([h, h], stops, {})
  {
    FreshRest([h, h], stops, {});
    assert [h, h][1..] == [h];
    FreshRest([h], stops, {} + {h.address});
  }

  /** A plugin's capture from a host listed twice: dropped on its first entry, it is asked again on its second. */
  method ActionAsksTwice(h: Host) returns (ex: Executor)
    ensures fresh(ex) && ex.cfg.hosts == [h, h] && !NeverRetargets(ex.log)
  {
    var hosts := [h, h];
    ex := new Executor(EMPTY.(hosts := hosts), "", {}, DEAD, false, [], []);
    ex.SetUnreachablePolicy(true, {});
    TwiceIsNotFresh(h, Stops(ex.Policy()));
    ActionWalkComesBack(ex.Policy(), hosts, ex.clock, ex.log);
    var _, _ := ex.CaptureForAction(hosts);
  }

  /** The same for an output task of at least one step that does not ignore failures. */
  method OutputAsksTwice(h: Host, task: Task) returns (ex: Executor)
    requires !h.isLocal && StepCount(task) > 0 && !task.continueOnError
    ensures fresh(ex) && ex.cfg.hosts == [h, h] && !NeverRetargets(ex.log)
  {
    var hosts := [h, h];
    ex := new Executor(EMPTY.(hosts := hosts), "", {}, DEAD, false, [], []);
    ex.SetUnreachablePolicy(true, {});
    TwiceIsNotFresh(h, OutputStops(ex.Policy(), task));
    OutputWalkComesBack(ex.Policy(), task, hosts, ex.clock, ex.log);
    var _, _ := ex.CaptureFrom(task, hosts);
  }
}
