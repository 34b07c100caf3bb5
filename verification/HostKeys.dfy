/**
 Trust on first use: dials that snapshot known_hosts early, verify the host's key later, and record
 a new one under a lock. Dials interleave in any way, and servers present any keys.
 */
module HostKeys {
  import opened Common

  datatype Line = Line(host: string, key: string)

  /** A dial that has read the file; verdict is None until its key has been checked. */
  datatype Dial = Dial(host: string, key: string, snapshot: seq<Line>, verdict: Option<bool>)

  datatype State = State(file: seq<Line>, recorded: map<string, string>, dials: map<nat, Dial>)

  /** How an append ends: written and reported so, not written and failed, or written but reported as failed. */
  datatype Append = Written | Refused | Torn

  datatype Step = Begin(id: nat, host: string, key: string) | Verify(id: nat, append: Append)

  /** The keys a file records for a host, in order. */
  function KeysFor(file: seq<Line>, host: string): seq<string> {
    if file == [] then []
    else
      var last := file[|file| - 1];
      KeysFor(file[..|file| - 1], host) + if last.host == host then [last.key] else []
  }

  /** The verdict on a dial, and what it leaves in the file and in the map of recorded keys. */
  function Check(s: State, d: Dial, append: Append): (r: (bool, State)) {
    var known := KeysFor(d.snapshot, d.host);
    if d.key in known then (true, s)
    else if known != [] then (false, s)
    else if d.host in s.recorded then (s.recorded[d.host] == d.key, s)
    else
      var longer := s.file + [Line(d.host, d.key)];
      match append
      case Written => (true, s.(file := longer, recorded := s.recorded[d.host := d.key]))
      case Refused => (false, s)
      case Torn => (false, s.(file := longer))
  }

  predicate Next(s: State, t: State, step: Step) {
    match step
    case Begin(id, host, key) =>
      id !in s.dials && t == s.(dials := s.dials[id := Dial(host, key, s.file, None)])
    case Verify(id, append) =>
      && id in s.dials && s.dials[id].verdict.None?
      && var (ok, after) := Check(s, s.dials[id], append);
         t == after.(dials := s.dials[id := s.dials[id].(verdict := Some(ok))])
  }

  ghost predicate IsPath(states: seq<State>, steps: seq<Step>) {
    && |states| == |steps| + 1
    && forall k :: 0 <= k < |steps| ==> Next(states[k], states[k + 1], steps[k])
  }

  ghost predicate IsRun(states: seq<State>, steps: seq<Step>) {
    IsPath(states, steps) && states[0].recorded == map[] && states[0].dials == map[]
  }

  predicate Accepted(s: State, id: nat, host: string) {
    id in s.dials && s.dials[id].host == host && s.dials[id].verdict == Some(true)
  }

  /** Snapshots are beginnings of the file, which only grows. */
  ghost predicate Snapshots(s: State) {
    forall id :: id in s.dials ==> s.dials[id].snapshot <= s.file
  }

  lemma KeysForSnoc(file: seq<Line>, l: Line, host: string)
    ensures KeysFor(file + [l], host) == KeysFor(file, host) + if l.host == host then [l.key] else []
  {
    assert (file + [l])[..|file + [l]| - 1] == file;
  }

  lemma {:induction false} KeysOfPrefix(a: seq<Line>, b: seq<Line>, host: string)
    requires a <= b
    ensures KeysFor(a, host) <= KeysFor(b, host)
    decreases |b|
  {
    if |a| < |b| {
      KeysOfPrefix(a, b[..|b| - 1], host);
    } else {
      assert a == b;
    }
  }

  /** A check leaves the file or appends its own line. */
  lemma CheckGrows(s: State, d: Dial, append: Append)
    ensures var after := Check(s, d, append).1;
            && (after.file == s.file || after.file == s.file + [Line(d.host, d.key)])
            && after.dials == s.dials
            && (forall h :: h != d.host ==> (h in after.recorded <==> h in s.recorded))
            && (forall h :: h != d.host && h in s.recorded ==> after.recorded[h] == s.recorded[h])
  {
  }

  lemma CheckOther(s: State, d: Dial, append: Append, host: string)
    requires d.host != host
    ensures KeysFor(Check(s, d, append).1.file, host) == KeysFor(s.file, host)
  {
    KeysForSnoc(s.file, Line(d.host, d.key), host);
  }

  /** What a step accepts newly is the dial it verifies. */
  lemma AcceptedBefore(s: State, t: State, step: Step, host: string, id: nat)
    requires Next(s, t, step) && Accepted(t, id, host) && !(step.Verify? && step.id == id)
    ensures Accepted(s, id, host) && t.dials[id] == s.dials[id]
  {
    if step.Verify? {
      CheckGrows(s, s.dials[step.id], step.append);
    }
  }

  lemma SnapshotsStay(s: State, t: State, step: Step)
    requires Snapshots(s) && Next(s, t, step)
    ensures Snapshots(t) && s.file <= t.file
  {
    if step.Verify? {
      CheckGrows(s, s.dials[step.id], step.append);
    }
  }

  // ---- Exactly when one key is all that is ever accepted ----

  /** An open dial whose snapshot has no key of the host, so that it may yet record its own. */
  predicate Unseen(s: State, id: nat, host: string) {
    && id in s.dials && s.dials[id].host == host && s.dials[id].verdict.None?
    && KeysFor(s.dials[id].snapshot, host) == []
  }

  /** The step writes a line for the host and has it reported as failed. */
  predicate TearsFor(s: State, step: Step, host: string) {
    step.Verify? && step.append == Torn && Unseen(s, step.id, host) && host !in s.recorded
  }

  /** Another dial may yet record a different key. */
  ghost predicate HasRival(s: State, id: nat, host: string) {
    id in s.dials && exists other :: Unseen(s, other, host) && s.dials[other].key != s.dials[id].key
  }

  ghost predicate TornAgainstRival(s: State, step: Step, host: string) {
    TearsFor(s, step, host) && HasRival(s, step.id, host)
  }

  ghost predicate RivalFree(states: seq<State>, steps: seq<Step>, host: string)
    requires |states| == |steps| + 1
  {
    forall k :: 0 <= k < |steps| ==> !TornAgainstRival(states[k], steps[k], host)
  }

  /** In any run whatever, what is accepted or recorded is on file. */
  ghost predicate Sound(s: State, host: string) {
    && Snapshots(s)
    && (host in s.recorded ==> s.recorded[host] in KeysFor(s.file, host))
    && (forall id :: Accepted(s, id, host) ==> s.dials[id].key in KeysFor(s.file, host))
  }

  predicate AllSame(keys: seq<string>) {
    forall i, j :: 0 <= i < j < |keys| ==> keys[i] == keys[j]
  }

  /** One key at most is on file, and no open dial can add another. */
  ghost predicate Agreed(s: State, host: string) {
    var keys := KeysFor(s.file, host);
    && AllSame(keys)
    && (keys != [] && host !in s.recorded ==> forall id :: Unseen(s, id, host) ==> s.dials[id].key in keys)
  }

  lemma SameKeys(keys: seq<string>, a: string, b: string)
    requires AllSame(keys) && a in keys && b in keys
    ensures a == b
  {
  }

  lemma SoundMember(s: State, t: State, step: Step, host: string, key: string)
    requires Snapshots(s) && Next(s, t, step) && key in KeysFor(s.file, host)
    ensures key in KeysFor(t.file, host)
  {
    SnapshotsStay(s, t, step);
    KeysOfPrefix(s.file, t.file, host);
  }

  /** The dial of the host that step verifies gets as far as the append. */
  predicate Appends(s: State, step: Step, host: string) {
    step.Verify? && Unseen(s, step.id, host) && host !in s.recorded
  }

  /** An append that is not refused adds the dial's key to the file; only one that is written records and accepts. */
  lemma AppendCases(s: State, t: State, step: Step, host: string)
    requires Next(s, t, step) && Appends(s, step, host)
    ensures KeysFor(t.file, host) ==
            KeysFor(s.file, host) + if step.append == Refused then [] else [s.dials[step.id].key]
    ensures Accepted(t, step.id, host) <==> step.append == Written
    ensures host in t.recorded <==> step.append == Written
    ensures host in t.recorded ==> t.recorded[host] == s.dials[step.id].key
    ensures t.dials[step.id].key == s.dials[step.id].key
  {
    KeysForSnoc(s.file, Line(host, s.dials[step.id].key), host);
  }

  /** Any other step leaves the host's lines and record alone, and accepts only a key it knows. */
  lemma OtherCases(s: State, t: State, step: Step, host: string)
    requires Next(s, t, step) && !Appends(s, step, host)
    ensures KeysFor(t.file, host) == KeysFor(s.file, host)
    ensures host in t.recorded <==> host in s.recorded
    ensures host in t.recorded ==> t.recorded[host] == s.recorded[host]
    ensures step.Verify? && Accepted(t, step.id, host) ==>
              var d := s.dials[step.id];
              && t.dials[step.id].key == d.key
              && (d.key in KeysFor(d.snapshot, host) || (host in s.recorded && s.recorded[host] == d.key))
  {
    if step.Verify? {
      var d := s.dials[step.id];
      CheckGrows(s, d, step.append);
      if d.host != host {
        CheckOther(s, d, step.append, host);
      }
    }
  }

  /** What the verified dial is accepted with is on file afterwards, and so is what is recorded. */
  lemma VerifiedIsSound(s: State, t: State, step: Step, host: string)
    requires Sound(s, host) && Next(s, t, step) && step.Verify?
    ensures Accepted(t, step.id, host) ==> t.dials[step.id].key in KeysFor(t.file, host)
    ensures host in t.recorded ==> t.recorded[host] in KeysFor(t.file, host)
  {
    if Appends(s, step, host) {
      AppendCases(s, t, step, host);
    } else {
      OtherCases(s, t, step, host);
      KeysOfPrefix(s.dials[step.id].snapshot, s.file, host);
    }
  }

  lemma NextKeepsSound(s: State, t: State, step: Step, host: string)
    requires Sound(s, host) && Next(s, t, step)
    ensures Sound(t, host)
  {
    SnapshotsStay(s, t, step);
    if step.Verify? {
      VerifiedIsSound(s, t, step, host);
    }
    forall id | Accepted(t, id, host)
      ensures t.dials[id].key in KeysFor(t.file, host)
    {
      if !(step.Verify? && step.id == id) {
        AcceptedBefore(s, t, step, host, id);
        SoundMember(s, t, step, host, s.dials[id].key);
      }
    }
  }

  /** A dial that has seen no key was open before, or begins now on a file without one. */
  lemma UnseenBefore(s: State, t: State, step: Step, host: string, id: nat)
    requires Next(s, t, step) && Unseen(t, id, host)
    ensures if step.Begin? && step.id == id then KeysFor(s.file, host) == []
            else Unseen(s, id, host) && t.dials[id] == s.dials[id]
  {
    if step.Verify? {
      CheckGrows(s, s.dials[step.id], step.append);
    }
  }

  lemma AppendedSame(keys: seq<string>, key: string)
    ensures AllSame(keys + [key]) <==> AllSame(keys) && (keys == [] || key in keys)
  {
    var all := keys + [key];
    if AllSame(all) && keys != [] {
      assert all[0] == all[|keys|];
    }
    if AllSame(keys) && (keys == [] || key in keys) {
      forall i, j | 0 <= i < j < |all|
        ensures all[i] == all[j]
      {
      }
    }
    if AllSame(all) {
      forall i, j | 0 <= i < j < |keys|
        ensures keys[i] == keys[j]
      {
        assert all[i] == all[j];
      }
    }
  }

  /** Of all steps, exactly a torn append with a rival ends the agreement. */
  lemma AgreedStep(s: State, t: State, step: Step, host: string)
    requires Sound(s, host) && Agreed(s, host) && Next(s, t, step)
    ensures Agreed(t, host) <==> !TornAgainstRival(s, step, host)
  {
    if Appends(s, step, host) {
      AppendCases(s, t, step, host);
      AppendAgreed(s, t, step, host);
    } else {
      OtherCases(s, t, step, host);
      forall id | Unseen(t, id, host) && KeysFor(t.file, host) != []
        ensures Unseen(s, id, host) && t.dials[id] == s.dials[id]
      {
        UnseenBefore(s, t, step, host, id);
      }
    }
  }

  lemma AppendAgreed(s: State, t: State, step: Step, host: string)
    requires Sound(s, host) && Agreed(s, host) && Next(s, t, step) && Appends(s, step, host)
    ensures Agreed(t, host) <==> !TornAgainstRival(s, step, host)
  {
    var keys, key := KeysFor(s.file, host), s.dials[step.id].key;
    AppendCases(s, t, step, host);
    AppendedSame(keys, key);
    forall id | Unseen(t, id, host)
      ensures Unseen(s, id, host) && t.dials[id] == s.dials[id]
    {
      UnseenBefore(s, t, step, host, id);
    }
    if step.append == Torn {
      TornAgreed(s, t, step, host);
    }
  }

  /** After a torn append the agreement is about the dials still open: a rival is one that can break it. */
  lemma TornAgreed(s: State, t: State, step: Step, host: string)
    requires Agreed(s, host) && Next(s, t, step) && TearsFor(s, step, host)
    ensures Agreed(t, host) <==> !HasRival(s, step.id, host)
  {
    var keys, key := KeysFor(s.file, host), s.dials[step.id].key;
    AppendCases(s, t, step, host);
    AppendedSame(keys, key);
    var now := KeysFor(t.file, host);
    assert AllSame(now) && key in now;
    if other :| Unseen(s, other, host) && s.dials[other].key != key {
      OthersStayUnseen(s, t, step, host, other);
      if s.dials[other].key in now {
        SameKeys(now, s.dials[other].key, key);
      }
    }
    forall id | Unseen(t, id, host)
      ensures Unseen(s, id, host) && t.dials[id] == s.dials[id]
    {
      UnseenBefore(s, t, step, host, id);
    }
  }

  lemma OthersStayUnseen(s: State, t: State, step: Step, host: string, other: nat)
    requires Next(s, t, step) && Unseen(s, other, host) && !(step.Verify? && step.id == other)
    ensures Unseen(t, other, host) && t.dials[other] == s.dials[other]
  {
    if step.Verify? {
      CheckGrows(s, s.dials[step.id], step.append);
    }
  }

  ghost predicate OneKey(s: State, host: string) {
    forall a, b :: Accepted(s, a, host) && Accepted(s, b, host) ==> s.dials[a].key == s.dials[b].key
  }

  lemma AgreedMeansOneKey(s: State, host: string)
    requires Sound(s, host) && Agreed(s, host)
    ensures OneKey(s, host)
  {
    forall a, b | Accepted(s, a, host) && Accepted(s, b, host)
      ensures s.dials[a].key == s.dials[b].key
    {
      SameKeys(KeysFor(s.file, host), s.dials[a].key, s.dials[b].key);
    }
  }

  /** However things go on from here without a torn append against a rival, one key is all that is accepted. */
  ghost predicate SafeFrom(s: State, host: string) {
    forall states, steps ::
      IsPath(states, steps) && states[0] == s && RivalFree(states, steps, host) ==> OneKey(states[|steps|], host)
  }

  lemma {:induction false} PathAgreed(states: seq<State>, steps: seq<Step>, host: string, k: nat)
    requires IsPath(states, steps) && Sound(states[0], host) && k < |states|
    requires Agreed(states[0], host) && forall j :: 0 <= j < k ==> !TornAgainstRival(states[j], steps[j], host)
    ensures Sound(states[k], host) && Agreed(states[k], host)
  {
    if k > 0 {
      PathAgreed(states, steps, host, k - 1);
      assert Next(states[k - 1], states[k - 1 + 1], steps[k - 1]);
      NextKeepsSound(states[k - 1], states[k], steps[k - 1], host);
      AgreedStep(states[k - 1], states[k], steps[k - 1], host);
    }
  }

  ghost function Above(ids: set<nat>): (n: nat)
    ensures forall id :: id in ids ==> id < n
  {
    if ids == {} then 0
    else
      var id :| id in ids;
      var n := Above(ids - {id});
      assert ids == (ids - {id}) + {id};
      if n > id then n else id + 1
  }

  /** A new dial presenting a key that is on file is accepted. */
  lemma NewDialAccepted(s: State, host: string, key: string)
    returns (id: nat, begun: State, done: State)
    requires key in KeysFor(s.file, host)
    ensures Next(s, begun, Begin(id, host, key)) && Next(begun, done, Verify(id, Refused))
    ensures Accepted(done, id, host) && done.dials[id].key == key && done.file == s.file
    ensures forall a :: Accepted(s, a, host) ==> Accepted(done, a, host) && done.dials[a] == s.dials[a]
  {
    id := Above(s.dials.Keys);
    var d := Dial(host, key, s.file, None);
    begun := s.(dials := s.dials[id := d]);
    done := begun.(dials := begun.dials[id := d.(verdict := Some(true))]);
  }

  /** An open dial that has seen no key records its own if none is recorded yet. */
  lemma RivalAccepted(s: State, host: string, id: nat) returns (t: State)
    requires Snapshots(s) && Unseen(s, id, host) && host !in s.recorded
    ensures Next(s, t, Verify(id, Written))
    ensures Accepted(t, id, host) && t.dials[id].key == s.dials[id].key
    ensures forall key :: key in KeysFor(s.file, host) ==> key in KeysFor(t.file, host)
  {
    var d := s.dials[id];
    t := Check(s, d, Written).1.(dials := s.dials[id := d.(verdict := Some(true))]);
    AppendCases(s, t, Verify(id, Written), host);
  }

  /** A state is no safer than one it can step to without a torn append. */
  lemma UnsafeBefore(s: State, t: State, step: Step, host: string)
    requires Next(s, t, step) && !(step.Verify? && step.append == Torn) && !SafeFrom(t, host)
    ensures !SafeFrom(s, host)
  {
    var states, steps :|
      IsPath(states, steps) && states[0] == t && RivalFree(states, steps, host) && !OneKey(states[|steps|], host);
    var longer, first := [s] + states, [step] + steps;
    forall k | 0 <= k < |first|
      ensures Next(longer[k], longer[k + 1], first[k]) && !TornAgainstRival(longer[k], first[k], host)
    {
      if k > 0 {
        assert longer[k] == states[k - 1] && longer[k + 1] == states[k - 1 + 1] && first[k] == steps[k - 1];
      }
    }
    assert IsPath(longer, first) && RivalFree(longer, first, host);
    assert longer[|first|] == states[|steps|];
  }

  lemma UnsafeNow(s: State, host: string)
    requires !OneKey(s, host)
    ensures !SafeFrom(s, host)
  {
    var none: seq<Step> := [];
    assert IsPath([s], none) && RivalFree([s], none, host) && [s][|none|] == s;
  }

  /** Next to an accepted key, another one on file gets accepted too. */
  lemma SecondKeyShows(s: State, host: string, a: nat, key: string)
    requires Accepted(s, a, host) && key in KeysFor(s.file, host) && s.dials[a].key != key
    ensures !SafeFrom(s, host)
  {
    var id, begun, done := NewDialAccepted(s, host, key);
    assert Accepted(done, a, host) && Accepted(done, id, host);
    UnsafeNow(done, host);
    UnsafeBefore(begun, done, Verify(id, Refused), host);
    UnsafeBefore(s, begun, Begin(id, host, key), host);
  }

  /** Where there is no agreement, some continuation without any torn append accepts two keys. */
  lemma DisagreementShows(s: State, host: string)
    requires Sound(s, host) && !Agreed(s, host)
    ensures !SafeFrom(s, host)
  {
    var keys := KeysFor(s.file, host);
    if !AllSame(keys) {
      var i, j :| 0 <= i < j < |keys| && keys[i] != keys[j];
      var a, begun, done := NewDialAccepted(s, host, keys[i]);
      SecondKeyShows(done, host, a, keys[j]);
      UnsafeBefore(begun, done, Verify(a, Refused), host);
      UnsafeBefore(s, begun, Begin(a, host, keys[i]), host);
    } else {
      var id :| Unseen(s, id, host) && s.dials[id].key !in keys;
      var t := RivalAccepted(s, host, id);
      SecondKeyShows(t, host, id, keys[0]);
      UnsafeBefore(s, t, Verify(id, Written), host);
    }
  }

  /** A state is safe exactly if it agrees on one key. */
  lemma SafeIffAgreed(s: State, host: string)
    requires Sound(s, host)
    ensures SafeFrom(s, host) <==> Agreed(s, host)
  {
    if Agreed(s, host) {
      forall states, steps | IsPath(states, steps) && states[0] == s && RivalFree(states, steps, host)
        ensures OneKey(states[|steps|], host)
      {
        PathAgreed(states, steps, host, |steps|);
        AgreedMeansOneKey(states[|steps|], host);
      }
    } else {
      DisagreementShows(s, host);
    }
  }

  lemma {:induction false} RunIsSound(states: seq<State>, steps: seq<Step>, host: string, k: nat)
    requires IsRun(states, steps) && k < |states|
    ensures Sound(states[k], host)
  {
    if k > 0 {
      RunIsSound(states, steps, host, k - 1);
      assert Next(states[k - 1], states[k - 1 + 1], steps[k - 1]);
      NextKeepsSound(states[k - 1], states[k], steps[k - 1], host);
    }
  }

  /**
   Trust on first use, exactly: of a host unknown at the start, every moment of a run is safe if and only if no append
   of the run was torn while another dial that had seen no key was open with a different one.
   */
  lemma TrustIffRivalFree(states: seq<State>, steps: seq<Step>, host: string)
    requires IsRun(states, steps) && KeysFor(states[0].file, host) == []
    ensures (forall k :: 0 <= k < |states| ==> SafeFrom(states[k], host)) <==> RivalFree(states, steps, host)
  {
    RunIsSound(states, steps, host, 0);
    if RivalFree(states, steps, host) {
      forall k | 0 <= k < |states|
        ensures SafeFrom(states[k], host)
      {
        PathAgreed(states, steps, host, k);
        SafeIffAgreed(states[k], host);
      }
    } else {
      var k := FirstTorn(states, steps, host, |steps|);
      PathAgreed(states, steps, host, k);
      assert Next(states[k], states[k + 1], steps[k]);
      AgreedStep(states[k], states[k + 1], steps[k], host);
      RunIsSound(states, steps, host, k + 1);
      SafeIffAgreed(states[k + 1], host);
    }
  }

  lemma {:induction false} FirstTorn(states: seq<State>, steps: seq<Step>, host: string, n: nat) returns (k: nat)
    requires |states| == |steps| + 1 && n <= |steps|
    requires exists j :: 0 <= j < n && TornAgainstRival(states[j], steps[j], host)
    ensures k < n && TornAgainstRival(states[k], steps[k], host)
    ensures forall j :: 0 <= j < k ==> !TornAgainstRival(states[j], steps[j], host)
  {
    if exists j :: 0 <= j < n - 1 && TornAgainstRival(states[j], steps[j], host) {
      k := FirstTorn(states, steps, host, n - 1);
    } else {
      k := n - 1;
    }
  }

  /** So all accepted dials of such a run have the one key, which is the only one on file. */
  lemma OneKeyPerHost(states: seq<State>, steps: seq<Step>, host: string, k: nat, a: nat, b: nat)
    requires IsRun(states, steps) && KeysFor(states[0].file, host) == [] && k < |states|
    requires RivalFree(states, steps, host) && Accepted(states[k], a, host) && Accepted(states[k], b, host)
    ensures states[k].dials[a].key == states[k].dials[b].key
    ensures forall key :: key in KeysFor(states[k].file, host) ==> key == states[k].dials[a].key
  {
    RunIsSound(states, steps, host, 0);
    PathAgreed(states, steps, host, k);
    AgreedMeansOneKey(states[k], host);
    forall key | key in KeysFor(states[k].file, host)
      ensures key == states[k].dials[a].key
    {
      SameKeys(KeysFor(states[k].file, host), key, states[k].dials[a].key);
    }
  }

  // ---- Exactly when one line is all that is ever recorded ----

  ghost predicate TornBesideAnother(s: State, step: Step, host: string) {
    TearsFor(s, step, host) && exists other :: other != step.id && Unseen(s, other, host)
  }

  /** No line yet, or a single one that no open dial can add to. */
  ghost predicate Sole(s: State, host: string) {
    var keys := KeysFor(s.file, host);
    keys == [] || (|keys| == 1 && (host in s.recorded || forall id :: !Unseen(s, id, host)))
  }

  lemma SoleStep(s: State, t: State, step: Step, host: string)
    requires Sound(s, host) && Sole(s, host) && Next(s, t, step)
    ensures Sole(t, host) <==> !TornBesideAnother(s, step, host)
  {
    if Appends(s, step, host) {
      AppendCases(s, t, step, host);
      assert KeysFor(s.file, host) == [];
      AppendSole(s, t, step, host);
    } else {
      OtherCases(s, t, step, host);
      forall id | Unseen(t, id, host) && KeysFor(t.file, host) != []
        ensures Unseen(s, id, host)
      {
        UnseenBefore(s, t, step, host, id);
      }
    }
  }

  lemma AppendSole(s: State, t: State, step: Step, host: string)
    requires Next(s, t, step) && Appends(s, step, host) && KeysFor(s.file, host) == []
    ensures Sole(t, host) <==> !TornBesideAnother(s, step, host)
  {
    AppendCases(s, t, step, host);
    forall id | Unseen(t, id, host)
      ensures Unseen(s, id, host) && id != step.id
    {
      UnseenBefore(s, t, step, host, id);
    }
    forall other | other != step.id && Unseen(s, other, host)
      ensures Unseen(t, other, host)
    {
      OthersStayUnseen(s, t, step, host, other);
    }
  }

  ghost predicate NeverBesideAnother(states: seq<State>, steps: seq<Step>, host: string)
    requires |states| == |steps| + 1
  {
    forall k :: 0 <= k < |steps| ==> !TornBesideAnother(states[k], steps[k], host)
  }

  ghost predicate OneLineFrom(s: State, host: string) {
    forall states: seq<State>, steps: seq<Step> ::
      IsPath(states, steps) && states[0] == s && NeverBesideAnother(states, steps, host) ==>
        |KeysFor(states[|steps|].file, host)| <= 1
  }

  lemma {:induction false} PathSole(states: seq<State>, steps: seq<Step>, host: string, k: nat)
    requires IsPath(states, steps) && Sound(states[0], host) && k < |states|
    requires Sole(states[0], host) && forall j :: 0 <= j < k ==> !TornBesideAnother(states[j], steps[j], host)
    ensures Sound(states[k], host) && Sole(states[k], host)
  {
    if k > 0 {
      PathSole(states, steps, host, k - 1);
      assert Next(states[k - 1], states[k - 1 + 1], steps[k - 1]);
      NextKeepsSound(states[k - 1], states[k], steps[k - 1], host);
      SoleStep(states[k - 1], states[k], steps[k - 1], host);
    }
  }

  lemma OneLineIffSole(s: State, host: string)
    requires Sound(s, host)
    ensures OneLineFrom(s, host) <==> Sole(s, host)
  {
    var none: seq<Step> := [];
    if Sole(s, host) {
      forall states: seq<State>, steps: seq<Step> |
        IsPath(states, steps) && states[0] == s && NeverBesideAnother(states, steps, host)
        ensures |KeysFor(states[|steps|].file, host)| <= 1
      {
        PathSole(states, steps, host, |steps|);
      }
    } else if |KeysFor(s.file, host)| > 1 {
      assert IsPath([s], none) && NeverBesideAnother([s], none, host) && [s][|none|] == s;
    } else {
      var id :| Unseen(s, id, host);
      SecondLineShows(s, host, id);
    }
  }

  lemma SecondLineShows(s: State, host: string, id: nat)
    requires Snapshots(s) && Unseen(s, id, host) && host !in s.recorded && KeysFor(s.file, host) != []
    ensures !OneLineFrom(s, host)
  {
    var t := RivalAccepted(s, host, id);
    AppendCases(s, t, Verify(id, Written), host);
    var states, steps := [s, t], [Verify(id, Written)];
    assert IsPath(states, steps) && NeverBesideAnother(states, steps, host) && states[|steps|] == t;
  }

  /** The same for lines: a second one can come about exactly if an append was torn beside another open dial. */
  lemma OneLineIffNeverBesideAnother(states: seq<State>, steps: seq<Step>, host: string)
    requires IsRun(states, steps) && KeysFor(states[0].file, host) == []
    ensures (forall k :: 0 <= k < |states| ==> OneLineFrom(states[k], host)) <==>
            NeverBesideAnother(states, steps, host)
  {
    RunIsSound(states, steps, host, 0);
    if NeverBesideAnother(states, steps, host) {
      forall k | 0 <= k < |states|
        ensures OneLineFrom(states[k], host)
      {
        PathSole(states, steps, host, k);
        OneLineIffSole(states[k], host);
      }
    } else {
      var k := FirstBeside(states, steps, host, |steps|);
      PathSole(states, steps, host, k);
      assert Next(states[k], states[k + 1], steps[k]);
      SoleStep(states[k], states[k + 1], steps[k], host);
      RunIsSound(states, steps, host, k + 1);
      OneLineIffSole(states[k + 1], host);
    }
  }

  lemma {:induction false} FirstBeside(states: seq<State>, steps: seq<Step>, host: string, n: nat) returns (k: nat)
    requires |states| == |steps| + 1 && n <= |steps|
    requires exists j :: 0 <= j < n && TornBesideAnother(states[j], steps[j], host)
    ensures k < n && TornBesideAnother(states[k], steps[k], host)
    ensures forall j :: 0 <= j < k ==> !TornBesideAnother(states[j], steps[j], host)
  {
    if exists j :: 0 <= j < n - 1 && TornBesideAnother(states[j], steps[j], host) {
      k := FirstBeside(states, steps, host, n - 1);
    } else {
      k := n - 1;
    }
  }

  /** With appends that are all or nothing a host gets one key and one line. */
  lemma WholeAppendsSuffice(states: seq<State>, steps: seq<Step>, host: string, k: nat)
    requires IsRun(states, steps) && KeysFor(states[0].file, host) == [] && k < |states|
    requires forall j :: 0 <= j < |steps| ==> !(steps[j].Verify? && steps[j].append == Torn)
    ensures OneKey(states[k], host) && |KeysFor(states[k].file, host)| <= 1
  {
    RunIsSound(states, steps, host, 0);
    PathAgreed(states, steps, host, k);
    AgreedMeansOneKey(states[k], host);
    PathSole(states, steps, host, k);
  }

  /** A host with keys on file from the start keeps exactly those, and is accepted with one of them only. */
  ghost predicate Pinned(s: State, start: seq<Line>, host: string) {
    && KeysFor(s.file, host) == KeysFor(start, host) != []
    && start <= s.file
    && (forall id :: id in s.dials ==> start <= s.dials[id].snapshot <= s.file)
    && (forall id :: Accepted(s, id, host) ==> s.dials[id].key in KeysFor(start, host))
  }

  lemma KeysStay(s: State, t: State, step: Step, start: seq<Line>, host: string)
    requires Pinned(s, start, host) && Next(s, t, step) && step.Verify?
    ensures KeysFor(t.file, host) == KeysFor(start, host)
    ensures Accepted(t, step.id, host) ==> t.dials[step.id].key in KeysFor(start, host)
  {
    var d := s.dials[step.id];
    CheckGrows(s, d, step.append);
    if d.host == host {
      KeysOfPrefix(start, d.snapshot, host);
      KeysOfPrefix(d.snapshot, s.file, host);
      assert KeysFor(d.snapshot, host) == KeysFor(start, host);
    } else {
      CheckOther(s, d, step.append, host);
    }
  }

  lemma NextKeepsPinned(s: State, t: State, step: Step, start: seq<Line>, host: string)
    requires Pinned(s, start, host) && Next(s, t, step)
    ensures Pinned(t, start, host)
  {
    SnapshotsStay(s, t, step);
    if step.Verify? {
      KeysStay(s, t, step, start, host);
    }
    forall id | Accepted(t, id, host)
      ensures t.dials[id].key in KeysFor(start, host)
    {
      if !(step.Verify? && step.id == id) {
        AcceptedBefore(s, t, step, host, id);
      }
    }
  }

  /** A changed key of a known host is refused in every run, torn appends or not. */
  lemma {:induction false} KnownHostsKeepTheirKeys(states: seq<State>, steps: seq<Step>, host: string, k: nat)
    requires IsRun(states, steps) && KeysFor(states[0].file, host) != [] && k < |states|
    ensures Pinned(states[k], states[0].file, host)
  {
    if k > 0 {
      KnownHostsKeepTheirKeys(states, steps, host, k - 1);
      assert Next(states[k - 1], states[k - 1 + 1], steps[k - 1]);
      NextKeepsPinned(states[k - 1], states[k], steps[k - 1], states[0].file, host);
    }
  }

  /** An append that is written but reported as failed breaks it: two keys of one host are accepted later. */
  lemma TornAppendBreaksTrust(host: string, k1: string, k2: string) returns (states: seq<State>, steps: seq<Step>)
    requires k1 != k2
    ensures IsRun(states, steps) && KeysFor(states[0].file, host) == []
    ensures var last := states[|states| - 1];
            && Accepted(last, 1, host) && Accepted(last, 2, host)
            && last.dials[1].key != last.dials[2].key
  {
    var l1, l2 := Line(host, k1), Line(host, k2);
    var d0, d1, d2 := Dial(host, k1, [], None), Dial(host, k2, [], None), Dial(host, k1, [l1, l2], None);
    var s0 := State([], map[], map[]);
    var s1 := s0.(dials := s0.dials[0 := d0]);
    var s2 := s1.(dials := s1.dials[1 := d1]);
    var s3 := s2.(file := [l1], dials := s2.dials[0 := d0.(verdict := Some(false))]);
    var s4 := s3.(file := [l1, l2], recorded := s3.recorded[host := k2],
                  dials := s3.dials[1 := d1.(verdict := Some(true))]);
    var s5 := s4.(dials := s4.dials[2 := d2]);
    var s6 := s5.(dials := s5.dials[2 := d2.(verdict := Some(true))]);
    KeysForSnoc([], l1, host);
    KeysForSnoc([l1], l2, host);
    assert [] + [l1] == [l1] && [l1] + [l2] == [l1, l2];
    assert Next(s0, s1, Begin(0, host, k1)) && Next(s1, s2, Begin(1, host, k2));
    assert Next(s2, s3, Verify(0, Torn));
    assert Next(s3, s4, Verify(1, Written));
    assert Next(s4, s5, Begin(2, host, k1));
    assert Next(s5, s6, Verify(2, Refused));
    states := [s0, s1, s2, s3, s4, s5, s6];
    steps := [Begin(0, host, k1), Begin(1, host, k2), Verify(0, Torn), Verify(1, Written), Begin(2, host, k1),
              Verify(2, Refused)];
  }
}
