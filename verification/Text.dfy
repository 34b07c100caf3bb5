/** Byte strings: occurrences, splitting and replacing as in Go's strings package. */
module Text {
  import opened Common

  predicate OccursAt(sub: string, s: string, i: nat) {
    i + |sub| <= |s| && s[i..i + |sub|] == sub
  }

  ghost predicate Occurs(sub: string, s: string) {
    exists i: nat :: OccursAt(sub, s, i)
  }

  lemma OccursWithin(sub: string, a: string, s: string, b: string)
    requires Occurs(sub, s)
    ensures Occurs(sub, a + s + b)
  {
    var i: nat :| OccursAt(sub, s, i);
    var t := a + s + b;
    assert t[|a| + i..|a| + i + |sub|] == s[i..i + |sub|];
    assert OccursAt(sub, t, |a| + i);
  }

  lemma OccursBehind(a: string, sub: string)
    ensures Occurs(sub, a + sub)
  {
    assert (a + sub)[|a|..|a| + |sub|] == sub;
    assert OccursAt(sub, a + sub, |a|);
  }

  lemma OccursTransitive(a: string, b: string, c: string)
    requires Occurs(a, b) && Occurs(b, c)
    ensures Occurs(a, c)
  {
    var j: nat :| OccursAt(b, c, j);
    assert c == c[..j] + b + c[j + |b|..];
    OccursWithin(a, c[..j], b, c[j + |b|..]);
  }

  /** Replaces non-overlapping occurrences from left to right. */
  function ReplaceAll(s: string, old_: string, new_: string): string
    requires old_ != ""
  {
    if |s| < |old_| then s
    else if s[..|old_|] == old_ then new_ + ReplaceAll(s[|old_|..], old_, new_)
    else [s[0]] + ReplaceAll(s[1..], old_, new_)
  }

  /** Replacing by something shorter changes a string exactly when there is something to replace. */
  lemma {:induction false} ReplaceShortens(s: string, old_: string, new_: string)
    requires |new_| < |old_|
    ensures |ReplaceAll(s, old_, new_)| <= |s|
    ensures ReplaceAll(s, old_, new_) == s <==> !Occurs(old_, s)
    decreases |s|
  {
    if |s| < |old_| {
    } else if s[..|old_|] == old_ {
      ReplaceShortens(s[|old_|..], old_, new_);
      assert OccursAt(old_, s, 0);
    } else {
      ReplaceShortens(s[1..], old_, new_);
      assert s == [s[0]] + s[1..];
      OccursInTail(s, old_);
    }
  }

  lemma OccursInTail(s: string, sub: string)
    requires |s| > 0 && !OccursAt(sub, s, 0)
    ensures Occurs(sub, s) <==> Occurs(sub, s[1..])
  {
    if Occurs(sub, s[1..]) {
      OccursWithin(sub, [s[0]], s[1..], "");
      assert [s[0]] + s[1..] + "" == s;
    } else if i: nat :| OccursAt(sub, s, i) {
      assert s[1..][i - 1..i - 1 + |sub|] == s[i..i + |sub|];
      assert OccursAt(sub, s[1..], i - 1);
    }
  }

  /** s with every character replaced by its image, in one pass. */
  function Rewrite(s: string, image: char -> string): string {
    if s == "" then "" else image(s[0]) + Rewrite(s[1..], image)
  }

  lemma RewriteFirst(s: string, image: char -> string, rest: string)
    requires s != ""
    ensures Rewrite(s, image) + rest == image(s[0]) + (Rewrite(s[1..], image) + rest)
  {
  }

  lemma {:induction false} RewriteAppend(a: string, b: string, image: char -> string)
    ensures Rewrite(a + b, image) == Rewrite(a, image) + Rewrite(b, image)
  {
    if a == "" {
      assert a + b == b;
    } else {
      assert (a + b)[1..] == a[1..] + b;
      RewriteAppend(a[1..], b, image);
    }
  }

  /** Replacing one character throughout is a rewrite that moves only that character. */
  lemma {:induction false} ReplaceIsRewrite(s: string, c: char, new_: string, image: char -> string)
    requires image(c) == new_ && forall x :: x != c ==> image(x) == [x]
    ensures ReplaceAll(s, [c], new_) == Rewrite(s, image)
  {
    if s != "" {
      assert s[..1] == [s[0]];
      ReplaceIsRewrite(s[1..], c, new_, image);
    }
  }

  /** Two rewrites in sequence are one, with the composed image. */
  lemma {:induction false} RewriteTwice(s: string, first: char -> string, second: char -> string, both: char -> string)
    requires forall x :: Rewrite(first(x), second) == both(x)
    ensures Rewrite(Rewrite(s, first), second) == Rewrite(s, both)
  {
    if s != "" {
      RewriteAppend(first(s[0]), Rewrite(s[1..], first), second);
      RewriteTwice(s[1..], first, second, both);
    }
  }

  /** The pieces of s between non-overlapping occurrences of sep, found from left to right. */
  function Split(s: string, sep: string): (pieces: seq<string>)
    requires sep != ""
    ensures pieces != []
  {
    if |s| < |sep| then [s]
    else if s[..|sep|] == sep then [""] + Split(s[|sep|..], sep)
    else
      var rest := Split(s[1..], sep);
      [[s[0]] + rest[0]] + rest[1..]
  }

  function Join(pieces: seq<string>, sep: string): string {
    if pieces == [] then ""
    else if |pieces| == 1 then pieces[0]
    else pieces[0] + sep + Join(pieces[1..], sep)
  }

  lemma JoinEmpty(pieces: seq<string>, sep: string)
    requires pieces != []
    ensures Join([""] + pieces, sep) == sep + Join(pieces, sep)
  {
    assert ([""] + pieces)[1..] == pieces;
  }

  lemma JoinLonger(a: string, pieces: seq<string>, sep: string)
    requires pieces != []
    ensures Join([a + pieces[0]] + pieces[1..], sep) == a + Join(pieces, sep)
  {
    assert ([a + pieces[0]] + pieces[1..])[1..] == pieces[1..];
    if |pieces| > 1 {
      assert (a + pieces[0]) + sep + Join(pieces[1..], sep) == a + (pieces[0] + sep + Join(pieces[1..], sep));
    }
  }

  lemma {:induction false} ReplaceIsJoin(s: string, old_: string, new_: string)
    requires old_ != ""
    ensures ReplaceAll(s, old_, new_) == Join(Split(s, old_), new_)
    decreases |s|
  {
    if |s| < |old_| {
    } else if s[..|old_|] == old_ {
      ReplaceIsJoin(s[|old_|..], old_, new_);
      JoinEmpty(Split(s[|old_|..], old_), new_);
    } else {
      ReplaceIsJoin(s[1..], old_, new_);
      JoinLonger([s[0]], Split(s[1..], old_), new_);
    }
  }

  /** pieces is s with some disjoint spans cut out of it. */
  ghost predicate IsCut(s: string, pieces: seq<string>) {
    && pieces != []
    && if |pieces| == 1 then pieces[0] == s
       else pieces[0] <= s && exists m :: |pieces[0]| <= m <= |s| && IsCut(s[m..], pieces[1..])
  }

  lemma {:induction false} SplitIsCut(s: string, sep: string)
    requires sep != ""
    ensures IsCut(s, Split(s, sep))
    decreases |s|
  {
    var pieces := Split(s, sep);
    if |s| < |sep| {
    } else if s[..|sep|] == sep {
      SplitIsCut(s[|sep|..], sep);
      assert pieces[1..] == Split(s[|sep|..], sep);
    } else {
      var rest := Split(s[1..], sep);
      SplitIsCut(s[1..], sep);
      assert pieces[0] == [s[0]] + rest[0] && pieces[1..] == rest[1..];
      if |rest| == 1 {
        assert s == [s[0]] + s[1..];
      } else {
        var m :| |rest[0]| <= m <= |s[1..]| && IsCut(s[1..][m..], rest[1..]);
        assert s[1..][m..] == s[m + 1..];
        assert s == [s[0]] + s[1..];
        assert IsCut(s[m + 1..], pieces[1..]);
      }
    }
  }

  lemma {:induction false} PiecePrefix(s: string, sep: string)
    requires sep != ""
    ensures Split(s, sep)[0] <= s
    decreases |s|
  {
    if |s| >= |sep| && s[..|sep|] != sep {
      PiecePrefix(s[1..], sep);
      assert s == [s[0]] + s[1..];
    }
  }

  /** What was split away does not occur in any piece. */
  lemma {:induction false} PiecesAreFree(s: string, sep: string, k: nat)
    requires sep != "" && k < |Split(s, sep)|
    ensures !Occurs(sep, Split(s, sep)[k])
    decreases |s|
  {
    var pieces := Split(s, sep);
    if |s| < |sep| {
    } else if s[..|sep|] == sep {
      if k > 0 {
        PiecesAreFree(s[|sep|..], sep, k - 1);
      }
    } else {
      var rest := Split(s[1..], sep);
      PiecesAreFree(s[1..], sep, k);
      if k == 0 {
        PiecePrefix(s, sep);
        assert !OccursAt(sep, pieces[0], 0);
        OccursInTail(pieces[0], sep);
        assert pieces[0][1..] == rest[0];
      }
    }
  }

  /** Every piece of a cut occurs in what was cut, and the last one ends it. */
  lemma {:induction false} PiecesOccur(s: string, pieces: seq<string>, k: nat)
    requires IsCut(s, pieces) && k < |pieces|
    ensures Occurs(pieces[k], s)
    ensures EndsWith(s, pieces[|pieces| - 1])
    decreases |pieces|
  {
    if |pieces| == 1 {
      assert OccursAt(s, s, 0);
    } else {
      var m :| |pieces[0]| <= m <= |s| && IsCut(s[m..], pieces[1..]);
      PiecesOccur(s[m..], pieces[1..], if k == 0 then 0 else k - 1);
      EndOfRest(s, m, pieces[|pieces| - 1]);
      if k == 0 {
        assert OccursAt(pieces[0], s, 0);
      } else {
        OccursInRest(pieces[k], s, m);
      }
    }
  }

  predicate EndsWith(s: string, end: string) {
    |end| <= |s| && s[|s| - |end|..] == end
  }

  lemma EndOfRest(s: string, m: nat, end: string)
    requires m <= |s| && EndsWith(s[m..], end)
    ensures EndsWith(s, end)
  {
    assert s[m..][|s[m..]| - |end|..] == s[|s| - |end|..];
  }

  lemma OccursInRest(sub: string, s: string, m: nat)
    requires m <= |s| && Occurs(sub, s[m..])
    ensures Occurs(sub, s)
  {
    OccursWithin(sub, s[..m], s[m..], "");
    assert s[..m] + s[m..] + "" == s;
  }

  /** No occurrence of u in x + y lies across the point where they meet. */
  ghost predicate Uncrossed(u: string, x: string, y: string) {
    forall i: nat :: i < |x| < i + |u| ==> !OccursAt(u, x + y, i)
  }

  lemma UncrossedRest(u: string, x: string, y: string, n: nat)
    requires Uncrossed(u, x, y) && n <= |x|
    ensures Uncrossed(u, x[n..], y)
  {
    var rest := x[n..];
    assert x + y == x[..n] + (rest + y);
    forall i: nat | i < |rest| < i + |u|
      ensures !OccursAt(u, rest + y, i)
    {
      if i + |u| <= |rest + y| {
        assert (rest + y)[i..i + |u|] == (x + y)[n + i..n + i + |u|];
        assert !OccursAt(u, x + y, n + i);
      }
    }
  }

  lemma ReplaceStep(s: string, t: string, new_: string)
    requires s != "" && t != "" && !OccursAt(t, s, 0)
    ensures ReplaceAll(s, t, new_) == [s[0]] + ReplaceAll(s[1..], t, new_)
  {
    assert s == [s[0]] + s[1..];
  }

  lemma ReplaceMatch(s: string, t: string, new_: string)
    requires t != "" && OccursAt(t, s, 0)
    ensures ReplaceAll(s, t, new_) == new_ + ReplaceAll(s[|t|..], t, new_)
  {
    assert s[..|t|] == s[0..0 + |t|];
  }

  /** Whether there is a match at the front of x + y is decided by x. */
  lemma MatchInFront(x: string, y: string, t: string)
    requires x != "" && t != "" && Uncrossed(t, x, y)
    ensures OccursAt(t, x + y, 0) <==> OccursAt(t, x, 0)
  {
    if |t| <= |x| {
      assert (x + y)[0..|t|] == x[0..|t|];
    } else {
      assert !OccursAt(t, x + y, 0);
    }
  }

  predicate Apart(x: string, y: string, t: string, new_: string)
    requires t != ""
  {
    ReplaceAll(x + y, t, new_) == ReplaceAll(x, t, new_) + ReplaceAll(y, t, new_)
  }

  lemma ApartMatch(x: string, y: string, t: string, new_: string)
    requires t != "" && OccursAt(t, x, 0) && OccursAt(t, x + y, 0) && Apart(x[|t|..], y, t, new_)
    ensures Apart(x, y, t, new_)
  {
    ReplaceMatch(x + y, t, new_);
    ReplaceMatch(x, t, new_);
    assert (x + y)[|t|..] == x[|t|..] + y;
    Regroup(new_, ReplaceAll(x[|t|..], t, new_), ReplaceAll(y, t, new_));
  }

  lemma ApartStep(x: string, y: string, t: string, new_: string)
    requires x != "" && t != "" && !OccursAt(t, x, 0) && !OccursAt(t, x + y, 0) && Apart(x[1..], y, t, new_)
    ensures Apart(x, y, t, new_)
  {
    ReplaceStep(x + y, t, new_);
    ReplaceStep(x, t, new_);
    assert (x + y)[1..] == x[1..] + y;
    Regroup([x[0]], ReplaceAll(x[1..], t, new_), ReplaceAll(y, t, new_));
  }

  /** Texts that no occurrence joins are replaced in apart. */
  lemma {:induction false} ReplaceApart(x: string, y: string, t: string, new_: string)
    requires t != "" && Uncrossed(t, x, y)
    ensures Apart(x, y, t, new_)
    decreases |x|
  {
    if x == "" {
      assert x + y == y;
    } else {
      MatchInFront(x, y, t);
      if OccursAt(t, x, 0) {
        UncrossedRest(t, x, y, |t|);
        ReplaceApart(x[|t|..], y, t, new_);
        ApartMatch(x, y, t, new_);
      } else {
        UncrossedRest(t, x, y, 1);
        ReplaceApart(x[1..], y, t, new_);
        ApartStep(x, y, t, new_);
      }
    }
  }
}
