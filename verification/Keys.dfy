/** Variable names, and the keys of a map in byte order as Go's slices.Sorted and text/template's range give them. */
module Keys {
  import opened Common

  predicate Less(a: string, b: string) {
    if b == "" then false
    else if a == "" then true
    else a[0] < b[0] || (a[0] == b[0] && Less(a[1..], b[1..]))
  }

  lemma {:induction false} LessIsTotal(a: string, b: string)
    ensures a == b || Less(a, b) || Less(b, a)
    ensures !(Less(a, b) && Less(b, a))
  {
    if a != "" && b != "" {
      LessIsTotal(a[1..], b[1..]);
      assert a == [a[0]] + a[1..] && b == [b[0]] + b[1..];
    }
  }

  lemma {:induction false} LessIsTransitive(a: string, b: string, c: string)
    requires Less(a, b) && Less(b, c)
    ensures Less(a, c)
  {
    if a != "" && a[0] == b[0] == c[0] {
      LessIsTransitive(a[1..], b[1..], c[1..]);
    }
  }

  ghost predicate Ascending(s: seq<string>) {
    forall i, j :: 0 <= i < j < |s| ==> Less(s[i], s[j])
  }

  /** One set of keys has one ascending order. */
  lemma {:induction false} AscendingIsUnique(s: seq<string>, t: seq<string>)
    requires Ascending(s) && Ascending(t) && ToSet(s) == ToSet(t)
    ensures s == t
    decreases |s|
  {
    assert s != [] ==> s[0] in ToSet(s);
    assert t != [] ==> t[0] in ToSet(t);
    if s != [] && t != [] {
      LessIsTotal(s[0], t[0]);
      RestIsRest(s);
      RestIsRest(t);
      AscendingIsUnique(s[1..], t[1..]);
    }
  }

  lemma RestIsRest(s: seq<string>)
    requires Ascending(s) && s != []
    ensures Ascending(s[1..]) && ToSet(s[1..]) == ToSet(s) - {s[0]}
  {
    LessIsTotal(s[0], s[0]);
    forall k ensures k in ToSet(s[1..]) <==> k in ToSet(s) - {s[0]} {
      if k in s[1..] {
        var i :| 0 <= i < |s| - 1 && s[1..][i] == k;
        assert Less(s[0], s[i + 1]);
      }
    }
  }

  function Insert(k: string, s: seq<string>): seq<string> {
    if s == [] || Less(k, s[0]) then [k] + s else [s[0]] + Insert(k, s[1..])
  }

  lemma {:induction false} InsertKeepsAscending(k: string, s: seq<string>)
    requires Ascending(s) && k !in s
    ensures Ascending(Insert(k, s)) && ToSet(Insert(k, s)) == ToSet(s) + {k}
  {
    var r := Insert(k, s);
    if s == [] || Less(k, s[0]) {
      forall j | 0 < j < |r| ensures Less(k, r[j]) {
        if j > 1 {
          LessIsTransitive(k, s[0], s[j - 1]);
        }
      }
    } else {
      LessIsTotal(k, s[0]);
      InsertKeepsAscending(k, s[1..]);
      var rest := Insert(k, s[1..]);
      forall j | 0 < j < |r| ensures Less(s[0], r[j]) {
        assert r[j] == rest[j - 1];
        assert rest[j - 1] in ToSet(rest);
        assert rest[j - 1] == k || rest[j - 1] in s[1..];
      }
      assert ToSet(r) == ToSet(rest) + {s[0]};
      assert ToSet(s) == ToSet(s[1..]) + {s[0]};
    }
  }

  ghost function Sorted(keys: set<string>): (s: seq<string>)
    ensures Ascending(s) && ToSet(s) == keys
  {
    if keys == {} then []
    else
      var k :| k in keys;
      var rest := Sorted(keys - {k});
      assert k in rest <==> k in ToSet(rest);
      InsertKeepsAscending(k, rest);
      Insert(k, rest)
  }

  method Sort(keys: set<string>) returns (sorted: seq<string>)
    ensures sorted == Sorted(keys)
  {
    sorted := [];
    var rest := keys;
    while rest != {}
      invariant rest <= keys
      invariant Ascending(sorted) && ToSet(sorted) == keys - rest
    {
      var k :| k in rest;
      assert k in ToSet(sorted) <==> k in sorted;
      InsertKeepsAscending(k, sorted);
      sorted := Insert(k, sorted);
      rest := rest - {k};
    }
    AscendingIsUnique(sorted, Sorted(keys));
  }

  // ---------------------------------------------------------------- names

  predicate NameChar(c: char) {
    'A' <= c <= 'Z' || 'a' <= c <= 'z' || '0' <= c <= '9' || c == '_'
  }

  predicate IsName(s: string) {
    s != "" && forall c :: c in s ==> NameChar(c)
  }

  /** The length of the name at the front of s. */
  function NameLength(s: string): (n: nat)
    ensures n <= |s|
  {
    if s == "" || !NameChar(s[0]) then 0 else 1 + NameLength(s[1..])
  }

  lemma {:induction false} NameReads(name: string, rest: string)
    requires forall c :: c in name ==> NameChar(c)
    requires rest != "" && !NameChar(rest[0])
    ensures NameLength(name + rest) == |name|
  {
    if name == "" {
      assert name + rest == rest;
    } else {
      assert (name + rest)[1..] == name[1..] + rest;
      NameReads(name[1..], rest);
    }
  }
}
