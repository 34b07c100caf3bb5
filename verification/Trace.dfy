/**
 The log of what a deploy run sends to its hosts, and the properties of such logs.
 All functions recurse on the last event, so that each says what one more event changes.
 */
module Trace {
  import opened Common
  import opened Errors

  /** The built-in commands a deploy runs on every live host. */
  datatype Command =
    EnsureStructure | EnsureMirror | CreateRelease | WriteRevision | LinkShared | Publish | LogRevision | Cleanup

  /** The order in which a deploy runs them. */
  const LIFECYCLE: seq<Command> :=
    [EnsureStructure, EnsureMirror, CreateRelease, WriteRevision, LinkShared, Publish, LogRevision, Cleanup]

  datatype Event =
    | Lock(primary: string, outcome: Option<Error>)
    | Unlock(primary: string, outcome: Option<Error>)
    | Step(command: Command, results: seq<Result>)
    | Read(host: string, outcome: Option<Error>)
    | TaskCommand(results: seq<Result>)
    | HookCall(outcome: Option<Error>)
    | Mark(host: string)

  function ResultHosts(results: seq<Result>): set<string> {
    set i | 0 <= i < |results| :: results[i].host
  }

  function FailedHosts(results: seq<Result>): set<string> {
    set i | 0 <= i < |results| && results[i].err.Some? :: results[i].host
  }

  lemma FailedHostsSnoc(results: seq<Result>, r: Result)
    ensures FailedHosts(results + [r]) == FailedHosts(results) + if r.err.Some? then {r.host} else {}
  {
    var all := results + [r];
    forall h | h in FailedHosts(results)
      ensures h in FailedHosts(all)
    {
      var i :| 0 <= i < |results| && results[i].err.Some? && results[i].host == h;
      assert all[i] == results[i];
    }
    assert all[|results|] == r;
  }

  function SucceededHosts(results: seq<Result>): set<string> {
    set i | 0 <= i < |results| && results[i].err.None? :: results[i].host
  }

  /** The hosts an event sends a command to. */
  function Targets(e: Event): set<string> {
    match e
    case Lock(primary, _) => {primary}
    case Unlock(primary, _) => {primary}
    case Step(_, results) => ResultHosts(results)
    case Read(host, _) => {host}
    case TaskCommand(results) => ResultHosts(results)
    case HookCall(_) => {}
    case Mark(_) => {}
  }

  function Earlier(log: seq<Event>): seq<Event>
    requires log != []
  {
    log[..|log| - 1]
  }

  function Last(log: seq<Event>): Event
    requires log != []
  {
    log[|log| - 1]
  }

  // ---- Dropped hosts ----

  function Marked(log: seq<Event>): set<string> {
    if log == [] then {}
    else Marked(Earlier(log)) + if Last(log).Mark? then {Last(log).host} else {}
  }

  /** No event targets a host that an earlier one marked. */
  predicate NeverRetargets(log: seq<Event>) {
    log == [] || (NeverRetargets(Earlier(log)) && Targets(Last(log)) !! Marked(Earlier(log)))
  }

  lemma {:induction false} MarkedEarlier(log: seq<Event>, i: nat, host: string)
    requires i < |log| && log[i] == Mark(host)
    ensures host in Marked(log)
  {
    if i < |log| - 1 {
      MarkedEarlier(Earlier(log), i, host);
    }
  }

  lemma {:induction false} NothingMarked(log: seq<Event>)
    requires Marked(log) == {}
    ensures NeverRetargets(log)
  {
    if log != [] {
      NothingMarked(Earlier(log));
    }
  }

  /** The meaning of NeverRetargets, event by event. */
  lemma {:induction false} DroppedStaysDropped(log: seq<Event>, i: nat, j: nat, host: string)
    requires NeverRetargets(log)
    requires i < j < |log| && log[i] == Mark(host)
    ensures host !in Targets(log[j])
  {
    if j == |log| - 1 {
      MarkedEarlier(Earlier(log), i, host);
    } else {
      DroppedStaysDropped(Earlier(log), i, j, host);
    }
  }

  // ---- Progress through the lifecycle ----

  /** The built-in commands sent so far. */
  function Issued(log: seq<Event>): seq<Command> {
    if log == [] then []
    else Issued(Earlier(log)) + if Last(log).Step? then [Last(log).command] else []
  }

  /** The built-in commands that have succeeded on the host. */
  function Completed(log: seq<Event>, host: string): seq<Command> {
    if log == [] then []
    else
      Completed(Earlier(log), host) +
      if Last(log).Step? && host in SucceededHosts(Last(log).results) then [Last(log).command] else []
  }

  /** Every built-in command went only to hosts that had completed all the earlier ones. */
  ghost predicate Barrier(log: seq<Event>) {
    log == [] ||
    (&& Barrier(Earlier(log))
     && (Last(log).Step? ==>
           forall h :: h in ResultHosts(Last(log).results) ==> Completed(Earlier(log), h) == Issued(Earlier(log))))
  }

  /** What the barrier means for one command in the middle of a run. */
  lemma {:induction false} BarrierAt(log: seq<Event>, i: nat, host: string)
    requires Barrier(log) && i < |log| && log[i].Step? && host in Targets(log[i])
    ensures Completed(log[..i], host) == Issued(log[..i])
  {
    if i == |log| - 1 {
      assert Earlier(log) == log[..i];
    } else {
      BarrierAt(Earlier(log), i, host);
      assert Earlier(log)[..i] == log[..i];
    }
  }

  /** Behind the barrier every host, dropped or not, has completed a prefix of what was issued. */
  lemma {:induction false} CompletedIsPrefix(log: seq<Event>, host: string)
    requires Barrier(log)
    ensures Completed(log, host) <= Issued(log)
  {
    if log != [] {
      CompletedIsPrefix(Earlier(log), host);
    }
  }

  // ---- The deploy lock as one run sees it ----

  datatype LockPhase = Idle | Held | Refused | Released | Broken

  /** One attempt; commands on all hosts only while the lock is held; one unlock, last, by a holder only. */
  function Advance(p: LockPhase, e: Event): LockPhase {
    if p == Broken || p == Released then Broken
    else
      match e
      case Lock(_, outcome) => if p != Idle then Broken else if outcome.None? then Held else Refused
      case Unlock(_, _) => if p == Held then Released else Broken
      case Step(_, _) => if p == Held then Held else Broken
      case Read(_, _) => p
      case TaskCommand(_) => p
      case HookCall(_) => p
      case Mark(_) => p
  }

  function PhaseOf(log: seq<Event>): LockPhase {
    if log == [] then Idle else Advance(PhaseOf(Earlier(log)), Last(log))
  }

  /** A discipline once broken stays broken, so an unbroken log has only unbroken prefixes. */
  lemma {:induction false} PrefixUnbroken(log: seq<Event>, i: nat)
    requires PhaseOf(log) != Broken && i <= |log|
    ensures PhaseOf(log[..i]) != Broken
  {
    if i < |log| {
      PrefixUnbroken(Earlier(log), i);
      assert Earlier(log)[..i] == log[..i];
    } else {
      assert log[..i] == log;
    }
  }

  // ---- Appending ----

  lemma Snoc(log: seq<Event>, e: Event)
    ensures Earlier(log + [e]) == log && Last(log + [e]) == e
  {
  }

  /** Reading a value off a host changes nothing in the lifecycle's account. */
  lemma ReadKeeps(log: seq<Event>, host: string, outcome: Option<Error>)
    ensures var now := log + [Read(host, outcome)];
            && Issued(now) == Issued(log)
            && (forall h :: Completed(now, h) == Completed(log, h))
            && (Barrier(log) ==> Barrier(now))
            && (PhaseOf(log) != Released ==> PhaseOf(now) == PhaseOf(log))
            && HookCalls(now) == HookCalls(log) && Reads(now) == Reads(log) + 1
  {
    Snoc(log, Read(host, outcome));
  }

  /** The log grew by task commands and marks only. */
  predicate TaskOnly(before: seq<Event>, after: seq<Event>) {
    && before <= after
    && forall i :: |before| <= i < |after| ==> after[i].TaskCommand? || after[i].Mark?
  }

  /** The log grew by what hooks do: task commands, marks and calls of plugin functions. */
  predicate HooksOnly(before: seq<Event>, after: seq<Event>) {
    && before <= after
    && forall i :: |before| <= i < |after| ==> after[i].TaskCommand? || after[i].Mark? || after[i].HookCall?
  }

  lemma HooksOnlyThen(a: seq<Event>, b: seq<Event>, c: seq<Event>)
    requires HooksOnly(a, b) && HooksOnly(b, c)
    ensures HooksOnly(a, c)
  {
  }

  /** The number of plugin functions called for phases. */
  function HookCalls(log: seq<Event>): nat {
    if log == [] then 0 else HookCalls(Earlier(log)) + if Last(log).HookCall? then 1 else 0
  }

  /** The number of values read off hosts for the lifecycle. */
  function Reads(log: seq<Event>): nat {
    if log == [] then 0 else Reads(Earlier(log)) + if Last(log).Read? then 1 else 0
  }

  lemma {:induction false} ReadsGrow(before: seq<Event>, after: seq<Event>)
    requires before <= after
    ensures Reads(before) <= Reads(after)
    decreases |after|
  {
    if |after| > |before| {
      ReadsGrow(before, Earlier(after));
    } else {
      assert after == before;
    }
  }

  /** A log that grew by other events only has as many. */
  lemma {:induction false} NoHookCalls(before: seq<Event>, after: seq<Event>)
    requires before <= after && forall i :: |before| <= i < |after| ==> !after[i].HookCall?
    ensures HookCalls(after) == HookCalls(before)
    decreases |after|
  {
    if |after| > |before| {
      NoHookCalls(before, Earlier(after));
    } else {
      assert after == before;
    }
  }

  lemma TaskOnlyThen(a: seq<Event>, b: seq<Event>, c: seq<Event>)
    requires TaskOnly(a, b) && TaskOnly(b, c)
    ensures TaskOnly(a, c)
  {
  }

  /** The log grew by marks only. */
  predicate MarksOnly(before: seq<Event>, after: seq<Event>) {
    before <= after && forall i :: |before| <= i < |after| ==> after[i].Mark?
  }

  /** The number of task commands sent. */
  function Commands(log: seq<Event>): nat {
    if log == [] then 0 else Commands(Earlier(log)) + if Last(log).TaskCommand? then 1 else 0
  }

  lemma {:induction false} CommandsGrow(before: seq<Event>, after: seq<Event>)
    requires before <= after
    ensures Commands(before) <= Commands(after)
    decreases |after|
  {
    if |after| > |before| {
      CommandsGrow(before, Earlier(after));
    } else {
      assert after == before;
    }
  }

  /** What hooks do leaves the lifecycle's own properties as they were. */
  lemma {:induction false} HooksOnlyKeep(before: seq<Event>, after: seq<Event>)
    requires HooksOnly(before, after)
    ensures Issued(after) == Issued(before)
    ensures forall h :: Completed(after, h) == Completed(before, h)
    ensures Barrier(before) ==> Barrier(after)
    ensures PhaseOf(before) != Released ==> PhaseOf(after) == PhaseOf(before)
    decreases |after|
  {
    if |after| > |before| {
      HooksOnlyKeep(before, Earlier(after));
    } else {
      assert after == before;
    }
  }
}
