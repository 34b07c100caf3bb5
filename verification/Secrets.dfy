/** The registry of literal secrets: trimmed, without duplicates, longest first. */
module Secrets {
  import opened Common
  import opened Text
  import opened Lines
  import opened Masking

  const MIN_SECRET: nat := 4

  /** The white space of ASCII. */
  predicate IsSpace(c: char) {
    c == ' ' || c == '\t' || c == '\n' || c == '\r' || c == 11 as char || c == 12 as char
  }

  function TrimSpace(s: string): (r: string)
    ensures r == "" || (!IsSpace(r[0]) && !IsSpace(r[|r| - 1]))
  {
    if s == "" then ""
    else if IsSpace(s[0]) then TrimSpace(s[1..])
    else if IsSpace(s[|s| - 1]) then TrimSpace(s[..|s| - 1])
    else s
  }

  /** The lines of s: its maximal runs without a line end. */
  function Fields(s: string): (r: seq<string>)
    ensures forall i :: 0 <= i < |r| ==> r[i] != "" && FreeOf(r[i], LINE_ENDS)
    decreases |s|
  {
    var i := IndexEnd(s, LINE_ENDS);
    (if i > 0 then [s[..i]] else []) + if i == |s| then [] else Fields(s[i + 1..])
  }

  /** The trimmed fields that are long enough to register. */
  function LongLines(fields: seq<string>): seq<string> {
    if fields == [] then []
    else
      var line := TrimSpace(fields[|fields| - 1]);
      LongLines(fields[..|fields| - 1]) + if |line| >= MIN_SECRET then [line] else []
  }

  /** The values one call registers: the whole secret, and each line of a multi-line one. */
  function Values(s: string): seq<string> {
    var t := TrimSpace(s);
    if |t| < MIN_SECRET then []
    else [t] + if FreeOf(t, LINE_ENDS) then [] else LongLines(Fields(t))
  }

  predicate LongestFirst(s: seq<string>) {
    forall i, j :: 0 <= i < j < |s| ==> |s[i]| >= |s[j]|
  }

  /** Puts v behind everything at least as long, so that a sort by insertion is stable. */
  function Insert(sorted: seq<string>, v: string): seq<string> {
    if sorted == [] || |sorted[0]| < |v| then [v] + sorted
    else [sorted[0]] + Insert(sorted[1..], v)
  }

  lemma {:induction false} InsertKeeps(sorted: seq<string>, v: string)
    requires LongestFirst(sorted)
    ensures LongestFirst(Insert(sorted, v))
  {
    if sorted != [] && |sorted[0]| >= |v| {
      InsertKeeps(sorted[1..], v);
      InsertBounded(sorted[1..], v, |sorted[0]|);
    }
  }

  lemma {:induction false} InsertAdds(sorted: seq<string>, v: string)
    ensures multiset(Insert(sorted, v)) == multiset(sorted) + multiset{v}
  {
    if sorted != [] && |sorted[0]| >= |v| {
      InsertAdds(sorted[1..], v);
      assert sorted == [sorted[0]] + sorted[1..];
    }
  }

  lemma {:induction false} InsertBounded(sorted: seq<string>, v: string, bound: nat)
    requires |v| <= bound && forall k :: 0 <= k < |sorted| ==> |sorted[k]| <= bound
    ensures forall k :: 0 <= k < |Insert(sorted, v)| ==> |Insert(sorted, v)[k]| <= bound
  {
    if sorted != [] && |sorted[0]| >= |v| {
      InsertBounded(sorted[1..], v, bound);
    }
  }

  class Registry {
    var secrets: seq<string>
    var known: set<string>

    ghost predicate Valid()
      reads this
    {
      && LongestFirst(secrets)
      && NoDuplicates(secrets)
      && known == ToSet(secrets)
      && forall i :: 0 <= i < |secrets| ==> |secrets[i]| >= MIN_SECRET
    }

    constructor ()
      ensures Valid() && secrets == []
    {
      secrets, known := [], {};
    }

    /** Registers exactly the values of s besides those already known. */
    method AddSecret(s: string)
      requires Valid()
      modifies this
      ensures Valid() && ToSet(secrets) == old(ToSet(secrets)) + ToSet(Values(s))
    {
      var values := Values(s);
      ValuesAreLong(s);
      for i := 0 to |values|
        invariant Valid() && ToSet(secrets) == old(ToSet(secrets)) + ToSet(values[..i])
      {
        var v := values[i];
        assert ToSet(values[..i + 1]) == ToSet(values[..i]) + {v} by {
          assert values[..i + 1] == values[..i] + [v];
        }
        if v !in known {
          Register(v);
        }
      }
      assert values[..|values|] == values;
    }

    method Register(v: string)
      requires Valid() && v !in known && |v| >= MIN_SECRET
      modifies this
      ensures Valid() && ToSet(secrets) == old(ToSet(secrets)) + {v}
    {
      InsertKeeps(secrets, v);
      InsertDistinct(secrets, v);
      ghost var now := Insert(secrets, v);
      forall i | 0 <= i < |now|
        ensures |now[i]| >= MIN_SECRET
      {
        assert now[i] in ToSet(now);
      }
      known := known + {v};
      secrets := Insert(secrets, v);
    }
  }

  lemma InsertDistinct(sorted: seq<string>, v: string)
    requires NoDuplicates(sorted) && v !in sorted
    ensures NoDuplicates(Insert(sorted, v)) && ToSet(Insert(sorted, v)) == ToSet(sorted) + {v}
  {
    InsertAdds(sorted, v);
    var r := Insert(sorted, v);
    forall x
      ensures x in r <==> x in sorted || x == v
    {
      assert x in multiset(r) <==> x in multiset(sorted) || x == v;
    }
    forall i, j | 0 <= i < j < |r|
      ensures r[i] != r[j]
    {
      if r[i] == r[j] {
        TwiceIn(r, i, j);
        OnceEach(sorted, r[i]);
      }
    }
  }

  lemma {:induction false} LongLinesAreLong(fields: seq<string>)
    ensures forall i :: 0 <= i < |LongLines(fields)| ==> |LongLines(fields)[i]| >= MIN_SECRET
  {
    if fields != [] {
      LongLinesAreLong(fields[..|fields| - 1]);
    }
  }

  lemma ValuesAreLong(s: string)
    ensures forall i :: 0 <= i < |Values(s)| ==> |Values(s)[i]| >= MIN_SECRET
  {
    LongLinesAreLong(Fields(TrimSpace(s)));
  }

  lemma {:induction false} LongLineListed(fields: seq<string>, i: nat)
    requires i < |fields| && |TrimSpace(fields[i])| >= MIN_SECRET
    ensures TrimSpace(fields[i]) in LongLines(fields)
  {
    if i < |fields| - 1 {
      LongLineListed(fields[..|fields| - 1], i);
    }
  }

  /** A multi-line secret is registered line by line too, since a writer only ever sees one line. */
  lemma LinesAreRegistered(s: string, i: nat)
    requires |TrimSpace(s)| >= MIN_SECRET && !FreeOf(TrimSpace(s), LINE_ENDS)
    requires i < |Fields(TrimSpace(s))| && |TrimSpace(Fields(TrimSpace(s))[i])| >= MIN_SECRET
    ensures TrimSpace(Fields(TrimSpace(s))[i]) in Values(s)
  {
    LongLineListed(Fields(TrimSpace(s)), i);
  }

  /** Trimming cuts white space off both ends and nothing else. */
  lemma {:induction false} TrimSpaceIs(s: string) returns (a: nat, b: nat)
    ensures a <= b <= |s| && TrimSpace(s) == s[a..b]
    ensures forall i :: 0 <= i < a || b <= i < |s| ==> IsSpace(s[i])
    decreases |s|
  {
    if s == "" {
      a, b := 0, 0;
    } else if IsSpace(s[0]) {
      a, b := TrimSpaceIs(s[1..]);
      assert s[1..][a..b] == s[a + 1..b + 1];
      assert forall i :: 1 <= i < |s| ==> s[i] == s[1..][i - 1];
      a, b := a + 1, b + 1;
    } else if IsSpace(s[|s| - 1]) {
      a, b := TrimSpaceIs(s[..|s| - 1]);
    } else {
      a, b := 0, |s|;
    }
  }

  /** A run of s without a line end that nothing extends. */
  ghost predicate IsRun(s: string, i: nat, j: nat) {
    && i < j <= |s| && FreeOf(s[i..j], LINE_ENDS)
    && (i == 0 || s[i - 1] in LINE_ENDS) && (j == |s| || s[j] in LINE_ENDS)
  }

  lemma {:induction false} FirstRun(s: string, j: nat)
    requires j <= |s| && FreeOf(s[..j], LINE_ENDS) && (j == |s| || s[j] in LINE_ENDS)
    ensures IndexEnd(s, LINE_ENDS) == j
  {
    if j > 0 {
      assert s[..j][0] == s[0];
      assert s[1..][..j - 1] == s[..j][1..];
      FirstRun(s[1..], j - 1);
    }
  }

  lemma FirstRunIsField(s: string, j: nat)
    requires IsRun(s, 0, j)
    ensures s[0..j] in Fields(s)
  {
    assert s[0..j] == s[..j];
    FirstRun(s, j);
    FirstIsField(s);
  }

  lemma EndBefore(s: string, i: nat)
    requires 0 < i <= |s| && s[i - 1] in LINE_ENDS
    ensures IndexEnd(s, LINE_ENDS) < i
  {
  }

  /** Every such run is a field. */
  lemma {:induction false} RunsAreFields(s: string, i: nat, j: nat)
    requires IsRun(s, i, j)
    ensures s[i..j] in Fields(s)
    decreases |s|
  {
    if i == 0 {
      FirstRunIsField(s, j);
    } else {
      var n := IndexEnd(s, LINE_ENDS);
      EndBefore(s, i);
      RunInRest(s, i, j, n + 1);
      RunsAreFields(s[n + 1..], i - (n + 1), j - (n + 1));
      RestAreFields(s, n, s[i..j]);
    }
  }

  lemma FirstIsField(s: string)
    requires IndexEnd(s, LINE_ENDS) > 0
    ensures s[..IndexEnd(s, LINE_ENDS)] in Fields(s)
  {
    assert Fields(s)[0] == s[..IndexEnd(s, LINE_ENDS)];
  }

  lemma RestAreFields(s: string, n: nat, x: string)
    requires n == IndexEnd(s, LINE_ENDS) < |s| && x in Fields(s[n + 1..])
    ensures x in Fields(s)
  {
    var first: seq<string> := if n > 0 then [s[..n]] else [];
    FieldsBehind(s, n, first);
    InLast(first, Fields(s[n + 1..]), x);
  }

  lemma FieldsBehind(s: string, n: nat, first: seq<string>)
    requires n == IndexEnd(s, LINE_ENDS) < |s| && first == if n > 0 then [s[..n]] else []
    ensures Fields(s) == first + Fields(s[n + 1..])
  {
  }

  lemma InLast(a: seq<string>, b: seq<string>, x: string)
    requires x in b
    ensures x in a + b
  {
  }

  lemma RunInRest(s: string, i: nat, j: nat, n: nat)
    requires IsRun(s, i, j) && n <= i
    ensures IsRun(s[n..], i - n, j - n) && s[n..][i - n..j - n] == s[i..j]
  {
    var rest := s[n..];
    assert rest[i - n..j - n] == s[i..j];
    if i > n {
      assert rest[i - n - 1] == s[i - 1];
    }
    if j < |s| {
      assert rest[j - n] == s[j];
    }
  }

  /** So every line of a secret that is long enough once trimmed is registered. */
  lemma RunsAreRegistered(s: string, i: nat, j: nat)
    requires |TrimSpace(s)| >= MIN_SECRET && !FreeOf(TrimSpace(s), LINE_ENDS)
    requires IsRun(TrimSpace(s), i, j) && |TrimSpace(TrimSpace(s)[i..j])| >= MIN_SECRET
    ensures TrimSpace(TrimSpace(s)[i..j]) in Values(s)
  {
    var t := TrimSpace(s);
    RunsAreFields(t, i, j);
    var k :| 0 <= k < |Fields(t)| && Fields(t)[k] == t[i..j];
    LinesAreRegistered(s, k);
  }

  lemma TrimmedOccurs(s: string)
    ensures Occurs(TrimSpace(s), s)
  {
    var a, b := TrimSpaceIs(s);
    assert OccursAt(TrimSpace(s), s, a);
  }

  lemma {:induction false} FieldsOccur(s: string, x: string)
    requires x in Fields(s)
    ensures Occurs(x, s)
    decreases |s|
  {
    var n := IndexEnd(s, LINE_ENDS);
    if n > 0 && x == s[..n] {
      assert OccursAt(x, s, 0);
    } else {
      FieldsOccur(s[n + 1..], x);
      OccursInRest(x, s, n + 1);
    }
  }

  lemma {:induction false} LongLinesOccur(fields: seq<string>, v: string, s: string)
    requires v in LongLines(fields) && forall x :: x in fields ==> Occurs(x, s)
    ensures Occurs(v, s)
  {
    var init, last := fields[..|fields| - 1], fields[|fields| - 1];
    if v in LongLines(init) {
      LongLinesOccur(init, v, s);
    } else {
      TrimmedOccurs(last);
      assert last in fields;
      OccursTransitive(v, last, s);
    }
  }

  /** Nothing is registered that is not part of the secret. */
  lemma ValuesOccur(s: string, v: string)
    requires v in Values(s)
    ensures Occurs(v, s)
  {
    var t := TrimSpace(s);
    TrimmedOccurs(s);
    if v != t {
      forall x | x in Fields(t)
        ensures Occurs(x, t)
      {
        FieldsOccur(t, x);
      }
      LongLinesOccur(Fields(t), v, t);
      OccursTransitive(v, t, s);
    }
  }

  // ---- What the order is for ----

  lemma LongerDoesNotOccur(longer: string, s: string)
    requires |longer| >= |s| && longer != s
    ensures !Occurs(longer, s)
  {
    assert s[0..|s|] == s;
  }

  lemma NotInPlaceholder(secret: string)
    requires secret != "" && !Clashes(secret)
    ensures !Occurs(secret, PLACEHOLDER)
  {
    if i: nat :| OccursAt(secret, PLACEHOLDER, i) {
      assert "" + PLACEHOLDER + "" == PLACEHOLDER;
      TouchingClashes("", "", secret, i);
    }
  }

  lemma {:induction false} UntouchedUpTo(secrets: seq<string>, k: nat, n: nat)
    requires LongestFirst(secrets) && NoDuplicates(secrets) && n <= k < |secrets|
    requires forall i :: 0 <= i < |secrets| ==> secrets[i] != ""
    ensures ReplaceSecrets(secrets[..n], secrets[k]) == secrets[k]
  {
    if n > 0 {
      var upTo := secrets[..n];
      assert upTo[..n - 1] == secrets[..n - 1];
      UntouchedUpTo(secrets, k, n - 1);
      LongerDoesNotOccur(secrets[n - 1], secrets[k]);
      NoMatchKeeps(secrets[k], secrets[n - 1]);
    }
  }

  /** Longest first: a registered secret is masked whole, even if it contains other registered ones. */
  lemma {:induction false} MaskedWhole(secrets: seq<string>, k: nat, n: nat)
    requires LongestFirst(secrets) && NoDuplicates(secrets) && k < n <= |secrets|
    requires forall i :: 0 <= i < |secrets| ==> secrets[i] != "" && !Clashes(secrets[i])
    ensures ReplaceSecrets(secrets[..n], secrets[k]) == PLACEHOLDER
  {
    var upTo := secrets[..n];
    assert upTo[..n - 1] == secrets[..n - 1];
    if n == k + 1 {
      UntouchedUpTo(secrets, k, k);
      assert secrets[k][|secrets[k]|..] == "";
      assert ReplaceAll("", secrets[k], PLACEHOLDER) == "";
    } else {
      MaskedWhole(secrets, k, n - 1);
      NotInPlaceholder(secrets[n - 1]);
      NoMatchKeeps(PLACEHOLDER, secrets[n - 1]);
    }
  }

  // ---- In the middle of a text ----

  lemma {:induction false} JoinEnd(pieces: seq<string>) returns (a: string)
    requires |pieces| > 1
    ensures Join(pieces, PLACEHOLDER) == a + PLACEHOLDER + pieces[|pieces| - 1]
    decreases |pieces|
  {
    if |pieces| == 2 {
      a := pieces[0];
      assert Join(pieces[1..], PLACEHOLDER) == pieces[1];
    } else {
      var rest := JoinEnd(pieces[1..]);
      a := pieces[0] + PLACEHOLDER + rest;
      assert pieces[0] + PLACEHOLDER + (rest + PLACEHOLDER + pieces[|pieces| - 1]) ==
             a + PLACEHOLDER + pieces[|pieces| - 1];
    }
  }

  /** Masked text ends as it did before, behind a placeholder if there is one. */
  lemma MaskedEnd(x: string, t: string) returns (a: string, end: string)
    requires t != ""
    ensures EndsWith(x, end)
    ensures var masked := ReplaceAll(x, t, PLACEHOLDER);
            (masked == x == end) || masked == a + PLACEHOLDER + end
  {
    var pieces := Split(x, t);
    ReplaceIsJoin(x, t, PLACEHOLDER);
    SplitIsCut(x, t);
    PiecesOccur(x, pieces, 0);
    a, end := "", pieces[|pieces| - 1];
    if |pieces| > 1 {
      a := JoinEnd(pieces);
    }
  }

  /** And it begins as it did before. */
  lemma MaskedStart(y: string, t: string) returns (start: string, b: string)
    requires t != ""
    ensures start <= y
    ensures var masked := ReplaceAll(y, t, PLACEHOLDER);
            (masked == y == start) || masked == start + PLACEHOLDER + b
  {
    var pieces := Split(y, t);
    ReplaceIsJoin(y, t, PLACEHOLDER);
    SplitIsCut(y, t);
    PiecePrefix(y, t);
    start, b := pieces[0], Join(pieces[1..], PLACEHOLDER);
  }

  /** An occurrence across the meeting point does not reach a placeholder on the left. */
  lemma TouchesLeft(a: string, end: string, y: string, u: string, i: nat)
    requires OccursAt(u, a + PLACEHOLDER + end + y, i) && !Clashes(u)
    requires i < |a + PLACEHOLDER + end| < i + |u|
    ensures i >= |a + PLACEHOLDER|
  {
    if i < |a + PLACEHOLDER| {
      assert a + PLACEHOLDER + end + y == a + PLACEHOLDER + (end + y);
      TouchingClashes(a, end + y, u, i);
    }
  }

  /** Nor one on the right. */
  lemma TouchesRight(x: string, start: string, b: string, u: string, i: nat)
    requires OccursAt(u, x + (start + PLACEHOLDER + b), i) && !Clashes(u)
    requires i < |x| < i + |u|
    ensures i + |u| <= |x + start|
  {
    if i + |u| > |x + start| {
      assert x + (start + PLACEHOLDER + b) == (x + start) + PLACEHOLDER + b;
      TouchingClashes(x + start, b, u, i);
    }
  }

  /** What lies across the meeting point after masking, within the unchanged text on both sides, did so before. */
  lemma CrossedBefore(x: string, y: string, left: string, right: string, end: string, start: string, u: string, i: nat)
    requires EndsWith(x, end) && start <= y && EndsWith(left, end) && start <= right
    requires OccursAt(u, left + right, i) && |left| - |end| <= i < |left| < i + |u| <= |left| + |start|
    ensures !Uncrossed(u, x, y)
  {
    var j := |x| - (|left| - i);
    var before, now := (x + y)[j..j + |u|], (left + right)[i..i + |u|];
    forall k | 0 <= k < |u|
      ensures before[k] == now[k]
    {
      if i + k < |left| {
        assert end[i + k - (|left| - |end|)] == left[i + k];
        assert end[i + k - (|left| - |end|)] == x[j + k];
      } else {
        assert start[i + k - |left|] == right[i + k - |left|] == y[i + k - |left|];
      }
    }
    assert before == now;
    assert OccursAt(u, x + y, j);
  }

  lemma EndKept(a: string, end: string)
    ensures EndsWith(a + PLACEHOLDER + end, end)
  {
  }

  /** A pass over both sides joins nothing across the meeting point. */
  lemma StaysUncrossed(x: string, y: string, t: string, u: string)
    requires t != "" && !Clashes(u) && Uncrossed(u, x, y)
    ensures Uncrossed(u, ReplaceAll(x, t, PLACEHOLDER), ReplaceAll(y, t, PLACEHOLDER))
  {
    var left, right := ReplaceAll(x, t, PLACEHOLDER), ReplaceAll(y, t, PLACEHOLDER);
    var a, end := MaskedEnd(x, t);
    var start, b := MaskedStart(y, t);
    EndKept(a, end);
    forall i: nat | i < |left| < i + |u|
      ensures !OccursAt(u, left + right, i)
    {
      if OccursAt(u, left + right, i) {
        if left == a + PLACEHOLDER + end {
          TouchesLeft(a, end, right, u, i);
        }
        if right == start + PLACEHOLDER + b {
          TouchesRight(left, start, b, u, i);
        }
        CrossedBefore(x, y, left, right, end, start, u, i);
      }
    }
  }

  predicate Maskable(secrets: seq<string>) {
    forall i :: 0 <= i < |secrets| ==> secrets[i] != ""
  }

  ghost predicate NothingCrosses(secrets: seq<string>, x: string, y: string) {
    forall j :: 0 <= j < |secrets| ==> Uncrossed(secrets[j], x, y)
  }

  /** Texts that no registered secret joins are masked apart, by all secrets in turn. */
  lemma {:induction false} MaskedApart(secrets: seq<string>, x: string, y: string, n: nat)
    requires Maskable(secrets) && n <= |secrets| && (forall j :: 0 <= j < |secrets| ==> !Clashes(secrets[j]))
    requires NothingCrosses(secrets, x, y)
    ensures var upTo := secrets[..n];
            && ReplaceSecrets(upTo, x + y) == ReplaceSecrets(upTo, x) + ReplaceSecrets(upTo, y)
            && NothingCrosses(secrets, ReplaceSecrets(upTo, x), ReplaceSecrets(upTo, y))
  {
    var upTo := secrets[..n];
    if n > 0 {
      assert upTo[..n - 1] == secrets[..n - 1];
      MaskedApart(secrets, x, y, n - 1);
      var left, right := ReplaceSecrets(upTo[..n - 1], x), ReplaceSecrets(upTo[..n - 1], y);
      ReplaceApart(left, right, secrets[n - 1], PLACEHOLDER);
      forall j | 0 <= j < |secrets|
        ensures Uncrossed(secrets[j], ReplaceSecrets(upTo, x), ReplaceSecrets(upTo, y))
      {
        StaysUncrossed(left, right, secrets[n - 1], secrets[j]);
      }
    }
  }

  /**
   In the middle of a text too: an occurrence of a registered secret whose ends no registered secret lies across
   becomes one placeholder, and the text on either side is masked as if it stood alone.
   */
  lemma MaskedWholeWithin(secrets: seq<string>, k: nat, a: string, b: string)
    requires LongestFirst(secrets) && NoDuplicates(secrets) && k < |secrets| && Maskable(secrets)
    requires forall j :: 0 <= j < |secrets| ==> !Clashes(secrets[j])
    requires NothingCrosses(secrets, a, secrets[k] + b) && NothingCrosses(secrets, a + secrets[k], b)
    ensures ReplaceSecrets(secrets, a + secrets[k] + b) ==
            ReplaceSecrets(secrets, a) + PLACEHOLDER + ReplaceSecrets(secrets, b)
  {
    var s, n := secrets[k], |secrets|;
    assert secrets[..n] == secrets;
    forall j | 0 <= j < |secrets|
      ensures Uncrossed(secrets[j], s, b)
    {
      UncrossedRest(secrets[j], a + s, b, |a|);
      assert (a + s)[|a|..] == s;
    }
    MaskedApart(secrets, a, s + b, n);
    MaskedApart(secrets, s, b, n);
    MaskedWhole(secrets, k, n);
    Regroup(a, s, b);
    Regroup(ReplaceSecrets(secrets, a), PLACEHOLDER, ReplaceSecrets(secrets, b));
  }
}
