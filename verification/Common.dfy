/** Datatypes and sequence functions shared by the other modules. */
module Common {

  datatype Option<+T> = None | Some(value: T) {
    function GetOr(default_: T): T {
      if Some? then value else default_
    }
  }

  /** The elements of s that satisfy keep, in order. */
  function Filter<T>(s: seq<T>, keep: T -> bool): seq<T> {
    if s == [] then []
    else (if keep(s[0]) then [s[0]] else []) + Filter(s[1..], keep)
  }

  lemma {:induction false} FilterMembers<T>(s: seq<T>, keep: T -> bool)
    ensures forall x :: x in Filter(s, keep) ==> x in s && keep(x)
    ensures forall x :: x in s && keep(x) ==> x in Filter(s, keep)
  {
    if s != [] {
      FilterMembers(s[1..], keep);
      assert forall x :: x in s <==> x == s[0] || x in s[1..];
    }
  }

  lemma {:induction false} FilterAppend<T>(a: seq<T>, b: seq<T>, keep: T -> bool)
    ensures Filter(a + b, keep) == Filter(a, keep) + Filter(b, keep)
  {
    if a == [] {
      assert a + b == b;
    } else {
      var ab := a + b;
      assert ab[1..] == a[1..] + b && ab[0] == a[0];
      FilterAppend(a[1..], b, keep);
      var first := if keep(a[0]) then [a[0]] else [];
      assert Filter(ab, keep) == first + Filter(ab[1..], keep);
      assert Filter(a, keep) == first + Filter(a[1..], keep);
      assert first + (Filter(a[1..], keep) + Filter(b, keep)) == first + Filter(a[1..], keep) + Filter(b, keep);
    }
  }

  lemma {:induction false} FilterAll<T>(s: seq<T>, keep: T -> bool)
    requires forall x :: x in s ==> keep(x)
    ensures Filter(s, keep) == s
  {
    if s != [] {
      FilterAll(s[1..], keep);
    }
  }

  lemma {:induction false} FilterNone<T>(s: seq<T>, keep: T -> bool)
    requires forall x :: x in s ==> !keep(x)
    ensures Filter(s, keep) == []
  {
    if s != [] {
      FilterNone(s[1..], keep);
    }
  }

  /** Keeping strictly fewer elements gives a strictly shorter result. */
  lemma {:induction false} FilterShrinks<T>(s: seq<T>, keep: T -> bool, fewer: T -> bool, lost: T)
    requires forall x :: x in s && fewer(x) ==> keep(x)
    requires lost in s && keep(lost) && !fewer(lost)
    ensures |Filter(s, fewer)| < |Filter(s, keep)|
  {
    if s[0] == lost && lost !in s[1..] {
      FilterMonotone(s[1..], keep, fewer);
    } else {
      FilterShrinks(s[1..], keep, fewer, lost);
    }
  }

  lemma {:induction false} FilterMonotone<T>(s: seq<T>, keep: T -> bool, fewer: T -> bool)
    requires forall x :: x in s && fewer(x) ==> keep(x)
    ensures |Filter(s, fewer)| <= |Filter(s, keep)|
  {
    if s != [] {
      FilterMonotone(s[1..], keep, fewer);
    }
  }

  lemma Regroup<T>(a: seq<T>, b: seq<T>, c: seq<T>)
    ensures a + (b + c) == a + b + c
  {
  }

  predicate NoDuplicates<T(==)>(s: seq<T>) {
    forall i, j :: 0 <= i < j < |s| ==> s[i] != s[j]
  }

  lemma TwiceIn<T>(s: seq<T>, i: nat, j: nat)
    requires i < j < |s| && s[i] == s[j]
    ensures multiset(s)[s[i]] >= 2
  {
    assert s == s[..i] + [s[i]] + s[i + 1..j] + [s[j]] + s[j + 1..];
  }

  lemma {:induction false} OnceEach<T>(s: seq<T>, x: T)
    requires NoDuplicates(s)
    ensures multiset(s)[x] <= 1
  {
    if s != [] {
      assert s == [s[0]] + s[1..];
      OnceEach(s[1..], x);
      if x == s[0] {
        assert x !in s[1..];
      }
    }
  }

  function ToSet<T>(s: seq<T>): set<T> {
    set x | x in s
  }
}
