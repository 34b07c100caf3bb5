/** The connection pool: its key, and the protocol of lookup, one dial per entry, conditional delete and Close. */
module ConnPool {
  import opened Common

  // ---- The key ----

  datatype Target = Target(
    host: string, port: int, user: string, identityFile: string, isLocal: bool, strictHostKey: Option<bool>)

  /** What two targets must share to share a connection. */
  datatype Identity =
    | LocalShell(host: string)
    | Ssh(host: string, port: int, user: string, identityFile: string, strict: bool)

  function Strict(t: Target, shared: bool): bool {
    if t.strictHostKey.Some? then t.strictHostKey.value else shared
  }

  function IdentityOf(t: Target, shared: bool): Identity {
    if t.isLocal then LocalShell(t.host) else Ssh(t.host, t.port, t.user, t.identityFile, Strict(t, shared))
  }

  const NUL: char := '\0'

  predicate NulFree(s: string) {
    NUL !in s
  }

  function JoinNul(parts: seq<string>): string {
    if parts == [] then ""
    else if |parts| == 1 then parts[0]
    else parts[0] + [NUL] + JoinNul(parts[1..])
  }

  function Digit(d: nat): char
    requires d < 10
  {
    ('0' as int + d) as char
  }

  function Digits(n: nat): (s: string)
    ensures s != "" && forall i :: 0 <= i < |s| ==> '0' <= s[i] <= '9'
  {
    if n < 10 then [Digit(n)] else Digits(n / 10) + [Digit(n % 10)]
  }

  function Itoa(n: int): string {
    if n < 0 then "-" + Digits(-n) else Digits(n)
  }

  function Parts(t: Target, shared: bool): seq<string> {
    ["ssh", t.host, Itoa(t.port), t.user, t.identityFile, if Strict(t, shared) then "strict" else "insecure"]
  }

  /** The key under which a target's connection is pooled. */
  function Key(t: Target, shared: bool): string {
    if t.isLocal then "local" + [NUL] + t.host
    else JoinNul(Parts(t, shared))
  }

  lemma {:induction false} DigitsInjective(a: nat, b: nat)
    requires Digits(a) == Digits(b)
    ensures a == b
  {
    var x, y := Digits(a), Digits(b);
    assert (a >= 10 ==> |x| > 1) && (b >= 10 ==> |y| > 1);
    assert x[|x| - 1] == y[|y| - 1];
    assert x[..|x| - 1] == y[..|y| - 1];
    if a >= 10 && b >= 10 {
      assert x[..|x| - 1] == Digits(a / 10) && y[..|y| - 1] == Digits(b / 10);
      DigitsInjective(a / 10, b / 10);
    }
  }

  lemma ItoaInjective(a: int, b: int)
    requires Itoa(a) == Itoa(b)
    ensures a == b
  {
    assert Itoa(a)[0] == Itoa(b)[0];
    if a < 0 {
      assert Itoa(a)[1..] == Digits(-a) && Itoa(b)[1..] == Digits(-b);
      DigitsInjective(-a, -b);
    } else {
      DigitsInjective(a, b);
    }
  }

  lemma ItoaNulFree(n: int)
    ensures NulFree(Itoa(n))
  {
    if n < 0 {
      assert NUL !in Digits(-n);
    } else {
      assert NUL !in Digits(n);
    }
  }

  function FirstNul(s: string): nat {
    if s == "" || s[0] == NUL then 0 else 1 + FirstNul(s[1..])
  }

  lemma {:induction false} FirstNulAt(a: string, x: string)
    requires NulFree(a)
    ensures FirstNul(a + [NUL] + x) == |a|
  {
    if a == "" {
      assert a + [NUL] + x == [NUL] + x;
    } else {
      assert (a + [NUL] + x)[1..] == a[1..] + [NUL] + x;
      FirstNulAt(a[1..], x);
    }
  }

  lemma HeadsAgree(a: string, x: string, b: string, y: string)
    requires NulFree(a) && NulFree(b) && a + [NUL] + x == b + [NUL] + y
    ensures a == b && x == y
  {
    var s, t := a + [NUL] + x, b + [NUL] + y;
    FirstNulAt(a, x);
    FirstNulAt(b, y);
    assert s[..|a|] == a && t[..|b|] == b;
    assert s[|a| + 1..] == x && t[|b| + 1..] == y;
  }

  lemma {:induction false} JoinInjective(a: seq<string>, b: seq<string>)
    requires |a| == |b| && (forall i :: 0 <= i < |a| ==> NulFree(a[i]) && NulFree(b[i]))
    requires JoinNul(a) == JoinNul(b)
    ensures a == b
    decreases |a|
  {
    if |a| > 1 {
      HeadsAgree(a[0], JoinNul(a[1..]), b[0], JoinNul(b[1..]));
      JoinInjective(a[1..], b[1..]);
      assert a == [a[0]] + a[1..] && b == [b[0]] + b[1..];
    }
  }

  predicate Clean(t: Target) {
    NulFree(t.host) && NulFree(t.user) && NulFree(t.identityFile)
  }

  /** Targets share a key exactly if they agree on everything that changes what a dial produces. */
  lemma KeyIffIdentity(s: Target, t: Target, shared: bool)
    requires Clean(s) && Clean(t)
    ensures Key(s, shared) == Key(t, shared) <==> IdentityOf(s, shared) == IdentityOf(t, shared)
    ensures Key(s, shared) == Key(t, shared) <==>
            && s.isLocal == t.isLocal && s.host == t.host
            && (!s.isLocal ==>
                  && s.port == t.port && s.user == t.user && s.identityFile == t.identityFile
                  && s.strictHostKey.GetOr(shared) == t.strictHostKey.GetOr(shared))
  {
    if Key(s, shared) == Key(t, shared) {
      if s.isLocal && t.isLocal {
        HeadsAgree("local", s.host, "local", t.host);
      } else if s.isLocal != t.isLocal {
        var (l, r) := if s.isLocal then (s, t) else (t, s);
        assert Key(r, shared) == "ssh" + [NUL] + JoinNul(Parts(r, shared)[1..]);
        HeadsAgree("local", l.host, "ssh", JoinNul(Parts(r, shared)[1..]));
      } else {
        SshKeyInjective(s, t, shared);
      }
    }
  }

  lemma SshKeyInjective(s: Target, t: Target, shared: bool)
    requires Clean(s) && Clean(t) && !s.isLocal && !t.isLocal && Key(s, shared) == Key(t, shared)
    ensures IdentityOf(s, shared) == IdentityOf(t, shared)
  {
    var a, b := Parts(s, shared), Parts(t, shared);
    ItoaNulFree(s.port);
    ItoaNulFree(t.port);
    JoinInjective(a, b);
    assert a[1] == b[1] && a[2] == b[2] && a[3] == b[3] && a[4] == b[4] && a[5] == b[5];
    ItoaInjective(s.port, t.port);
  }

  // ---- The protocol ----

  /** An entry dials once; Aborted is a dial that its context ended, Failed one that failed on its own. */
  datatype Dialled = Fresh | Dialling | Open | Aborted | Failed {
    predicate Settled() {
      Open? || Aborted? || Failed?
    }
  }

  datatype Entry = Entry(key: string, dial: Dialled, closed: nat)

  /** A caller that has looked its entry up, and whether it has already returned. */
  datatype Caller = Caller(entry: nat, returned: bool)

  datatype Pool = Pool(conns: map<string, nat>, entries: seq<Entry>, callers: map<nat, Caller>)

  datatype Step =
    | Lookup(caller: nat, key: string)
    | BeginDial(caller: nat)
    | EndDial(caller: nat, outcome: Dialled)
    | Return(caller: nat)
    | Close

  function WithDial(p: Pool, e: nat, d: Dialled): Pool
    requires e < |p.entries|
  {
    p.(entries := p.entries[e := p.entries[e].(dial := d)])
  }

  predicate Waiting(p: Pool, c: nat) {
    c in p.callers && !p.callers[c].returned && p.callers[c].entry < |p.entries|
  }

  function LookedUp(p: Pool, c: nat, key: string): Pool {
    if key in p.conns then p.(callers := p.callers[c := Caller(p.conns[key], false)])
    else
      Pool(p.conns[key := |p.entries|], p.entries + [Entry(key, Fresh, 0)], p.callers[c := Caller(|p.entries|, false)])
  }

  /** The entry is deleted only if its dial was aborted and the key still leads to it. */
  function Returned(p: Pool, c: nat): Pool
    requires Waiting(p, c)
  {
    var e := p.callers[c].entry;
    var key := p.entries[e].key;
    p.(callers := p.callers[c := Caller(e, true)],
       conns := if p.entries[e].dial.Aborted? && key in p.conns && p.conns[key] == e then p.conns - {key} else p.conns)
  }

  /** Closes every open connection the map leads to and empties the map. */
  function Closed(p: Pool): (q: Pool)
    ensures |q.entries| == |p.entries|
  {
    p.(conns := map[],
       entries := seq(|p.entries|, e requires 0 <= e < |p.entries| =>
         if p.entries[e].dial.Open? && e in p.conns.Values then p.entries[e].(closed := p.entries[e].closed + 1)
         else p.entries[e]))
  }

  predicate Next(p: Pool, q: Pool, step: Step) {
    match step
    case Lookup(c, key) => c !in p.callers && q == LookedUp(p, c, key)
    case BeginDial(c) =>
      Waiting(p, c) && p.entries[p.callers[c].entry].dial.Fresh? && q == WithDial(p, p.callers[c].entry, Dialling)
    case EndDial(c, outcome) =>
      && Waiting(p, c) && p.entries[p.callers[c].entry].dial.Dialling? && outcome.Settled()
      && q == WithDial(p, p.callers[c].entry, outcome)
    case Return(c) => Waiting(p, c) && p.entries[p.callers[c].entry].dial.Settled() && q == Returned(p, c)
    case Close => q == Closed(p)
  }

  ghost predicate IsRun(pools: seq<Pool>, steps: seq<Step>) {
    && |pools| == |steps| + 1
    && pools[0] == Pool(map[], [], map[])
    && forall k :: 0 <= k < |steps| ==> Next(pools[k], pools[k + 1], steps[k])
  }

  /** No dial is still to come or in progress. */
  predicate Quiet(p: Pool) {
    forall e :: 0 <= e < |p.entries| ==> p.entries[e].dial.Settled()
  }

  /** Close is called only when no dial is outstanding. */
  ghost predicate Orderly(pools: seq<Pool>, steps: seq<Step>)
    requires |pools| == |steps| + 1
  {
    forall k :: 0 <= k < |steps| && steps[k].Close? ==> Quiet(pools[k])
  }

  /** The map leads to the entry. */
  predicate Pooled(p: Pool, e: nat) {
    e < |p.entries| && p.entries[e].key in p.conns && p.conns[p.entries[e].key] == e
  }

  /** The map leads each key to an entry of that key. */
  ghost predicate Keyed(p: Pool) {
    && (forall k :: k in p.conns ==> p.conns[k] < |p.entries| && p.entries[p.conns[k]].key == k)
    && (forall c :: c in p.callers ==> p.callers[c].entry < |p.entries|)
  }

  lemma PooledIsValue(p: Pool, e: nat)
    requires Keyed(p) && e < |p.entries|
    ensures e in p.conns.Values <==> Pooled(p, e)
  {
    if e in p.conns.Values {
      var k :| k in p.conns && p.conns[k] == e;
    }
  }

  /** Closed connections have left the map for good, and no connection is closed twice. */
  ghost predicate ClosedOnce(p: Pool) {
    forall e :: 0 <= e < |p.entries| ==> p.entries[e].closed <= 1 && (p.entries[e].closed == 1 ==> !Pooled(p, e))
  }

  lemma NextKeepsKeyed(p: Pool, q: Pool, step: Step)
    requires Keyed(p) && Next(p, q, step)
    ensures Keyed(q)
  {
  }

  lemma NextKeepsClosedOnce(p: Pool, q: Pool, step: Step)
    requires Keyed(p) && ClosedOnce(p) && Next(p, q, step)
    ensures ClosedOnce(q)
  {
    if step.Close? {
      forall e: nat | e < |p.entries|
        ensures e in p.conns.Values <==> Pooled(p, e)
      {
        PooledIsValue(p, e);
      }
    } else {
      forall e: nat | e < |p.entries| && p.entries[e].closed == 1
        ensures !Pooled(q, e)
      {
        assert !Pooled(p, e);
      }
    }
  }

  lemma {:induction false} ReachableKeyed(pools: seq<Pool>, steps: seq<Step>, k: nat)
    requires IsRun(pools, steps) && k < |pools|
    ensures Keyed(pools[k]) && ClosedOnce(pools[k])
  {
    if k > 0 {
      ReachableKeyed(pools, steps, k - 1);
      assert Next(pools[k - 1], pools[k - 1 + 1], steps[k - 1]);
      NextKeepsKeyed(pools[k - 1], pools[k], steps[k - 1]);
      NextKeepsClosedOnce(pools[k - 1], pools[k], steps[k - 1]);
    }
  }

  /** A Close before step k came while the entry's dial was still to come or in progress. */
  ghost predicate Caught(pools: seq<Pool>, steps: seq<Step>, k: nat, e: nat)
    requires |pools| == |steps| + 1 && k <= |steps|
  {
    exists j :: 0 <= j < k && steps[j].Close? && e < |pools[j].entries| && !pools[j].entries[e].dial.Settled()
  }

  /** The entry has or may yet get a connection that nobody has closed. */
  predicate AtStake(p: Pool, e: nat) {
    e < |p.entries| && !p.entries[e].dial.Aborted? && !p.entries[e].dial.Failed? && p.entries[e].closed == 0
  }

  /** One step neither loses nor finds an entry, except a Close that catches it before it has settled. */
  lemma StakeKept(p: Pool, q: Pool, step: Step, e: nat)
    requires Keyed(p) && Next(p, q, step) && AtStake(q, e) && e < |p.entries|
    ensures AtStake(p, e)
    ensures Pooled(q, e) <==> Pooled(p, e) && !(step.Close? && !p.entries[e].dial.Settled())
  {
    PooledIsValue(p, e);
  }

  /** A connection leaves the map without being closed exactly if a Close caught its dial. */
  lemma {:induction false} LeaksIff(pools: seq<Pool>, steps: seq<Step>, k: nat, e: nat)
    requires IsRun(pools, steps) && k < |pools| && AtStake(pools[k], e)
    ensures Pooled(pools[k], e) <==> !Caught(pools, steps, k, e)
  {
    if k > 0 {
      ReachableKeyed(pools, steps, k - 1);
      var p, q, step := pools[k - 1], pools[k], steps[k - 1];
      assert Next(p, pools[k - 1 + 1], step);
      if e < |p.entries| {
        StakeKept(p, q, step, e);
        LeaksIff(pools, steps, k - 1, e);
        assert Caught(pools, steps, k, e) <==>
               Caught(pools, steps, k - 1, e) || (step.Close? && !p.entries[e].dial.Settled());
      } else {
        EntriesGrow(pools, steps, k - 1, e);
      }
    }
  }

  lemma {:induction false} EntriesGrow(pools: seq<Pool>, steps: seq<Step>, k: nat, e: nat)
    requires IsRun(pools, steps) && k < |pools| && e >= |pools[k].entries|
    ensures forall j :: 0 <= j <= k ==> e >= |pools[j].entries|
  {
    if k > 0 {
      assert Next(pools[k - 1], pools[k - 1 + 1], steps[k - 1]);
      EntriesGrow(pools, steps, k - 1, e);
    }
  }

  /** If Close is orderly, every opened connection is in the map, or closed exactly once, and never both. */
  lemma NothingLeaks(pools: seq<Pool>, steps: seq<Step>, k: nat, e: nat)
    requires IsRun(pools, steps) && Orderly(pools, steps) && k < |pools|
    requires e < |pools[k].entries| && pools[k].entries[e].dial.Open?
    ensures pools[k].entries[e].closed == if Pooled(pools[k], e) then 0 else 1
  {
    ReachableKeyed(pools, steps, k);
    if pools[k].entries[e].closed == 0 {
      LeaksIff(pools, steps, k, e);
    }
  }

  /** Once a caller has returned from an aborted dial its entry has left the map, so the next call dials anew. */
  ghost predicate AbortedLeft(p: Pool) {
    forall c :: c in p.callers && p.callers[c].returned && p.callers[c].entry < |p.entries| ==>
      p.entries[p.callers[c].entry].dial.Aborted? ==> !Pooled(p, p.callers[c].entry)
  }

  ghost predicate ReturnedSettled(p: Pool) {
    forall c :: c in p.callers && p.callers[c].returned && p.callers[c].entry < |p.entries| ==>
      p.entries[p.callers[c].entry].dial.Settled()
  }

  lemma NextKeepsAbortedLeft(p: Pool, q: Pool, step: Step)
    requires Keyed(p) && ReturnedSettled(p) && AbortedLeft(p) && Next(p, q, step)
    ensures ReturnedSettled(q) && AbortedLeft(q)
  {
  }

  lemma {:induction false} AbortedIsRedialled(pools: seq<Pool>, steps: seq<Step>, k: nat)
    requires IsRun(pools, steps) && k < |pools|
    ensures ReturnedSettled(pools[k]) && AbortedLeft(pools[k])
  {
    if k > 0 {
      AbortedIsRedialled(pools, steps, k - 1);
      ReachableKeyed(pools, steps, k - 1);
      assert Next(pools[k - 1], pools[k - 1 + 1], steps[k - 1]);
      NextKeepsAbortedLeft(pools[k - 1], pools[k], steps[k - 1]);
    }
  }

  /** A Close during a dial leaks: the connection opens outside the map and is never closed. */
  lemma DisorderlyCloseLeaks(key: string) returns (pools: seq<Pool>, steps: seq<Step>)
    ensures IsRun(pools, steps)
    ensures var last := pools[|pools| - 1];
            |last.entries| == 1 && last.entries[0].dial.Open? && last.entries[0].closed == 0 && !Pooled(last, 0)
  {
    var p0 := Pool(map[], [], map[]);
    var p1 := LookedUp(p0, 0, key);
    var p2 := WithDial(p1, 0, Dialling);
    var p3 := Closed(p2);
    assert p3.entries == p2.entries;
    var p4 := WithDial(p3, 0, Open);
    pools := [p0, p1, p2, p3, p4];
    steps := [Lookup(0, key), BeginDial(0), Close, EndDial(0, Open)];
  }
}
