/** Rendering an environment as a dotenv file (plugins/aws/internal/dotenv/generate.go) and reading it back. */
module Dotenv {
  import opened Common
  import opened Text
  import opened Keys

  // ---------------------------------------------------------------- keys

  function KeyOnly(c: char): string {
    if NameChar(c) then [c] else "_"
  }

  function TrimLeft(s: string): (r: string)
    ensures r == "" || r[0] != '_'
    ensures forall c :: c in r ==> c in s
  {
    if s != "" && s[0] == '_' then TrimLeft(s[1..]) else s
  }

  function TrimRight(s: string): (r: string)
    ensures r <= s && (r == "" || r[|r| - 1] != '_')
    ensures s != "" && s[0] != '_' ==> r != ""
  {
    if s != "" && s[|s| - 1] == '_' then TrimRight(s[..|s| - 1]) else s
  }

  /** upper stands for strings.ToUpper. */
  function NormalizeKey(k: string, upper: string -> string): string {
    var trimmed := TrimRight(TrimLeft(Rewrite(upper(k), KeyOnly)));
    if trimmed == "" then "_" else trimmed
  }

  predicate NoLowerCase(s: string) {
    forall c :: c in s ==> !('a' <= c <= 'z')
  }

  lemma {:induction false} KeyOnlyIsKey(s: string)
    ensures |Rewrite(s, KeyOnly)| == |s|
    ensures forall c :: c in Rewrite(s, KeyOnly) ==> NameChar(c)
    ensures (forall c :: c in s ==> NameChar(c)) ==> Rewrite(s, KeyOnly) == s
  {
    if s != "" {
      KeyOnlyIsKey(s[1..]);
      assert s == [s[0]] + s[1..];
    }
  }

  lemma {:induction false} KeyOnlyKeepsCase(s: string)
    requires NoLowerCase(s)
    ensures NoLowerCase(Rewrite(s, KeyOnly))
  {
    if s != "" {
      assert s[0] in s && forall c :: c in s[1..] ==> c in s;
      KeyOnlyKeepsCase(s[1..]);
    }
  }

  /** A normalized key is a name that neither starts nor ends with an underscore, or is a single one. */
  lemma NormalizedIsKey(k: string, upper: string -> string)
    ensures var r := NormalizeKey(k, upper); IsName(r) && (r == "_" || (r[0] != '_' && r[|r| - 1] != '_'))
    ensures NoLowerCase(upper(k)) ==> NoLowerCase(NormalizeKey(k, upper))
  {
    var clean := Rewrite(upper(k), KeyOnly);
    KeyOnlyIsKey(upper(k));
    if NoLowerCase(upper(k)) {
      KeyOnlyKeepsCase(upper(k));
    }
    var left := TrimLeft(clean);
    var r := TrimRight(left);
    assert forall c :: c in r ==> c in left;
  }

  lemma {:induction false} KeyOnlyAt(s: string)
    ensures |Rewrite(s, KeyOnly)| == |s|
    ensures forall i :: 0 <= i < |s| ==> Rewrite(s, KeyOnly)[i] == if NameChar(s[i]) then s[i] else '_'
  {
    if s != "" {
      KeyOnlyAt(s[1..]);
    }
  }

  lemma {:induction false} TrimLeftIs(s: string) returns (n: nat)
    ensures n <= |s| && TrimLeft(s) == s[n..] && forall i :: 0 <= i < n ==> s[i] == '_'
  {
    n := 0;
    if s != "" && s[0] == '_' {
      var m := TrimLeftIs(s[1..]);
      assert s[1..][m..] == s[m + 1..];
      assert forall i :: 1 <= i < |s| ==> s[i] == s[1..][i - 1];
      n := m + 1;
    }
  }

  lemma {:induction false} TrimRightIs(s: string) returns (n: nat)
    ensures n <= |s| && TrimRight(s) == s[..n] && forall i :: n <= i < |s| ==> s[i] == '_'
    decreases |s|
  {
    n := |s|;
    if s != "" && s[|s| - 1] == '_' {
      n := TrimRightIs(s[..|s| - 1]);
    }
  }

  /**
   A normalized key is the part of the upper-cased one between two positions, with an underscore for every character
   that a key cannot hold; beyond them there were only such characters and underscores, and an empty part gives "_".
   */
  lemma NormalizedIs(k: string, upper: string -> string) returns (from: nat, to: nat)
    ensures from <= to <= |upper(k)|
    ensures forall i :: 0 <= i < from || to <= i < |upper(k)| ==> upper(k)[i] == '_' || !NameChar(upper(k)[i])
    ensures if from == to then NormalizeKey(k, upper) == "_"
            else && |NormalizeKey(k, upper)| == to - from
                 && forall i :: from <= i < to ==>
                      NormalizeKey(k, upper)[i - from] == if NameChar(upper(k)[i]) then upper(k)[i] else '_'
  {
    KeyOnlyAt(upper(k));
    from, to := TrimmedIs(Rewrite(upper(k), KeyOnly));
  }

  lemma TrimmedIs(s: string) returns (from: nat, to: nat)
    ensures from <= to <= |s| && TrimRight(TrimLeft(s)) == s[from..to]
    ensures forall i :: 0 <= i < from || to <= i < |s| ==> s[i] == '_'
  {
    from := TrimLeftIs(s);
    var rest := s[from..];
    var n := TrimRightIs(rest);
    to := from + n;
    assert rest[..n] == s[from..to];
    forall i | to <= i < |s|
      ensures s[i] == '_'
    {
      assert s[i] == rest[i - from];
    }
  }

  /** Normalizing twice is normalizing once, as far as strings.ToUpper leaves the normalized key alone. */
  lemma NormalizeIsIdempotent(k: string, upper: string -> string)
    requires upper(NormalizeKey(k, upper)) == NormalizeKey(k, upper)
    ensures NormalizeKey(NormalizeKey(k, upper), upper) == NormalizeKey(k, upper)
  {
    var r := NormalizeKey(k, upper);
    NormalizedIsKey(k, upper);
    KeyOnlyIsKey(r);
    if r == "_" {
      assert TrimLeft(r) == TrimLeft(r[1..]);
    }
  }

  // ---------------------------------------------------------------- values

  const CRLF: string := "\r\n"

  function Unix(v: string): string {
    ReplaceAll(v, CRLF, "\n")
  }

  /** The passes of the source, in its order. */
  function Passes(v: string, multiline: bool): string {
    var a := ReplaceAll(v, "\\", "\\\\");
    var b := ReplaceAll(a, "\"", "\\\"");
    var c := ReplaceAll(b, "$", "\\$");
    if multiline then c else ReplaceAll(c, "\n", "\\n")
  }

  function Special(multiline: bool): set<char> {
    {'\\', '"', '$'} + if multiline then {} else {'\n'}
  }

  function Escaped(c: char): string {
    ['\\', if c == '\n' then 'n' else c]
  }

  /** The single-pass escape: a backslash before each special character, and a newline as the letter n. */
  function Escape(special: set<char>): char -> string {
    c => if c in special then Escaped(c) else [c]
  }

  lemma RewriteOne(x: char, image: char -> string)
    ensures Rewrite([x], image) == image(x)
  {
    assert [x][1..] == "" && image(x) + "" == image(x);
  }

  lemma PassOnImage(special: set<char>, c: char, x: char)
    requires c !in special && c != 'n' && (c == '\\' ==> special == {})
    ensures Rewrite(Escape(special)(x), Escape({c})) == Escape(special + {c})(x)
  {
    var pass := Escape({c});
    if x in special {
      var y := Escaped(x)[1];
      RewriteAppend(['\\'], [y], pass);
      RewriteOne('\\', pass);
      RewriteOne(y, pass);
      assert Escaped(x) == ['\\'] + [y];
    } else {
      RewriteOne(x, pass);
    }
  }

  /** A pass does not disturb what earlier passes wrote, as long as the backslash pass is the first. */
  lemma NextPass(v: string, special: set<char>, c: char)
    requires c !in special && c != 'n' && (c == '\\' ==> special == {})
    ensures ReplaceAll(Rewrite(v, Escape(special)), [c], Escaped(c)) == Rewrite(v, Escape(special + {c}))
  {
    var pass := Escape({c});
    ReplaceIsRewrite(Rewrite(v, Escape(special)), c, Escaped(c), pass);
    forall x ensures Rewrite(Escape(special)(x), pass) == Escape(special + {c})(x) {
      PassOnImage(special, c, x);
    }
    RewriteTwice(v, Escape(special), pass, Escape(special + {c}));
  }

  /** The passes together are the single-pass escape. */
  lemma PassesAreOnePass(v: string, multiline: bool)
    ensures Passes(v, multiline) == Rewrite(v, Escape(Special(multiline)))
  {
    NoPass(v);
    NextPass(v, {}, '\\');
    NextPass(v, {} + {'\\'}, '"');
    NextPass(v, {} + {'\\'} + {'"'}, '$');
    NextPass(v, {} + {'\\'} + {'"'} + {'$'}, '\n');
    assert {} + {'\\'} + {'"'} + {'$'} == Special(true);
    assert {} + {'\\'} + {'"'} + {'$'} + {'\n'} == Special(false);
  }

  lemma {:induction false} NoPass(v: string)
    ensures Rewrite(v, Escape({})) == v
  {
    if v != "" {
      NoPass(v[1..]);
      assert v == [v[0]] + v[1..];
    }
  }

  // ---------------------------------------------------------------- the file

  function Entry(key: string, value: string, multiline: bool): string {
    if value == "" then key + "=\n"
    else key + ("=\"" + (Passes(Unix(value), multiline) + "\"\n"))
  }

  function Entries(keys: seq<string>, env: map<string, string>, multiline: bool): string
    requires forall k :: k in keys ==> k in env
  {
    if keys == [] then "" else Entry(keys[0], env[keys[0]], multiline) + Entries(keys[1..], env, multiline)
  }

  /** An empty value is left bare, any other is quoted, and an entry ends its line. */
  lemma EntryShapes(key: string, value: string, multiline: bool)
    ensures key + "=" <= Entry(key, value, multiline)
    ensures Entry(key, value, multiline) == key + "=\n" <==> value == ""
    ensures value != "" ==> key + "=\"" <= Entry(key, value, multiline)
    ensures Entry(key, value, multiline)[|Entry(key, value, multiline)| - 1] == '\n'
  {
    var e := Entry(key, value, multiline);
    if value != "" {
      assert e[|key| + 1] == '"' && (key + "=\n")[|key| + 1] == '\n';
    }
  }

  // ---------------------------------------------------------------- reading

  datatype Quoted = Quoted(value: string, rest: string)

  /** Reads up to the closing quote, undoing the escapes. */
  function ReadQuoted(s: string, multiline: bool): (r: Option<Quoted>)
    ensures r.Some? ==> |r.value.rest| < |s|
  {
    if s == "" then None
    else if s[0] == '"' then Some(Quoted("", s[1..]))
    else if s[0] != '\\' then Before(s[0], ReadQuoted(s[1..], multiline))
    else if |s| == 1 then None
    else if s[1] == '\\' || s[1] == '"' || s[1] == '$' then Before(s[1], ReadQuoted(s[2..], multiline))
    else if s[1] == 'n' && !multiline then Before('\n', ReadQuoted(s[2..], multiline))
    else None
  }

  function Before(c: char, q: Option<Quoted>): Option<Quoted> {
    if q.None? then None else Some(Quoted([c] + q.value.value, q.value.rest))
  }

  predicate IsKey(s: string) {
    '=' !in s
  }

  /** A key is all that stands before the first equals sign. */
  function KeyLength(s: string): (n: nat)
    ensures n <= |s| && IsKey(s[..n]) && (n < |s| ==> s[n] == '=')
  {
    if s == "" || s[0] == '=' then 0 else 1 + KeyLength(s[1..])
  }

  lemma {:induction false} KeyReads(key: string, rest: string)
    requires IsKey(key) && rest != "" && rest[0] == '='
    ensures KeyLength(key + rest) == |key|
  {
    if key == "" {
      assert key + rest == rest;
    } else {
      assert (key + rest)[1..] == key[1..] + rest;
      KeyReads(key[1..], rest);
    }
  }

  datatype Assignment = Assignment(key: string, value: string, rest: string)

  function ReadEntry(s: string, multiline: bool): (r: Option<Assignment>)
    ensures r.Some? ==> |r.value.rest| < |s|
  {
    var m := KeyLength(s);
    if m + 1 >= |s| then None
    else if s[m + 1] == '\n' then Some(Assignment(s[..m], "", s[m + 2..]))
    else if s[m + 1] != '"' then None
    else
      var q := ReadQuoted(s[m + 2..], multiline);
      if q.None? || q.value.rest == "" || q.value.rest[0] != '\n' then None
      else Some(Assignment(s[..m], q.value.value, q.value.rest[1..]))
  }

  /** Reads a whole file, the later of two entries for one key winning. */
  function Parse(s: string, multiline: bool): Option<map<string, string>>
    decreases |s|
  {
    if s == "" then Some(map[])
    else
      var first := ReadEntry(s, multiline);
      if first.None? then None
      else
        var more := Parse(first.value.rest, multiline);
        if more.None? then None else Some(map[first.value.key := first.value.value] + more.value)
  }

  // ---------------------------------------------------------------- round trip

  lemma EscapedReads(c: char, tail: string, multiline: bool)
    ensures ReadQuoted(Escape(Special(multiline))(c) + tail, multiline) == Before(c, ReadQuoted(tail, multiline))
  {
    var a := Escape(Special(multiline))(c) + tail;
    if c in Special(multiline) {
      assert a[2..] == tail;
    } else {
      assert a[1..] == tail;
    }
  }

  lemma {:induction false} QuotedReads(v: string, rest: string, multiline: bool)
    ensures ReadQuoted(Rewrite(v, Escape(Special(multiline))) + (['"'] + rest), multiline) == Some(Quoted(v, rest))
  {
    var esc := Escape(Special(multiline));
    var close := ['"'] + rest;
    if v == "" {
      assert Rewrite(v, esc) + close == close;
      assert close[1..] == rest;
    } else {
      QuotedReads(v[1..], rest, multiline);
      EscapedReads(v[0], Rewrite(v[1..], esc) + close, multiline);
      RewriteFirst(v, esc, close);
      assert v == [v[0]] + v[1..];
    }
  }

  lemma EmptyReads(key: string, rest: string, multiline: bool)
    requires IsKey(key)
    ensures ReadEntry(key + (['=', '\n'] + rest), multiline) == Some(Assignment(key, "", rest))
  {
    var s := key + (['=', '\n'] + rest);
    KeyReads(key, ['=', '\n'] + rest);
    assert s[|key|] == '=' && s[|key| + 1] == '\n' && s[..|key|] == key && s[|key| + 2..] == rest;
  }

  lemma QuotedEntryReads(key: string, body: string, q: Quoted, multiline: bool)
    requires IsKey(key) && ReadQuoted(body, multiline) == Some(q) && q.rest != "" && q.rest[0] == '\n'
    ensures ReadEntry(key + (['=', '"'] + body), multiline) == Some(Assignment(key, q.value, q.rest[1..]))
  {
    var s := key + (['=', '"'] + body);
    KeyReads(key, ['=', '"'] + body);
    assert s[|key|] == '=' && s[|key| + 1] == '"' && s[..|key|] == key && s[|key| + 2..] == body;
  }

  lemma EntryReads(key: string, v: string, rest: string, multiline: bool)
    requires IsKey(key)
    ensures ReadEntry(Entry(key, v, multiline) + rest, multiline) == Some(Assignment(key, Unix(v), rest))
  {
    if v == "" {
      EmptyReads(key, rest, multiline);
      assert Entry(key, v, multiline) + rest == key + (['=', '\n'] + rest);
    } else {
      var escaped := Passes(Unix(v), multiline);
      var line := ['\n'] + rest;
      PassesAreOnePass(Unix(v), multiline);
      QuotedReads(Unix(v), line, multiline);
      QuotedEntryReads(key, escaped + (['"'] + line), Quoted(Unix(v), line), multiline);
      EntryShape(key, escaped, rest);
      assert line[1..] == rest;
    }
  }

  lemma EntryShape(key: string, escaped: string, rest: string)
    ensures key + ("=\"" + (escaped + "\"\n")) + rest == key + (['=', '"'] + (escaped + (['"'] + (['\n'] + rest))))
  {
  }

  function UnixValues(keys: seq<string>, env: map<string, string>): map<string, string>
    requires forall k :: k in keys ==> k in env
  {
    if keys == [] then map[] else map[keys[0] := Unix(env[keys[0]])] + UnixValues(keys[1..], env)
  }

  lemma {:induction false} EntriesRead(keys: seq<string>, env: map<string, string>, multiline: bool)
    requires forall k :: k in keys ==> k in env && IsKey(k)
    ensures Parse(Entries(keys, env, multiline), multiline) == Some(UnixValues(keys, env))
  {
    if keys != [] {
      EntryReads(keys[0], env[keys[0]], Entries(keys[1..], env, multiline), multiline);
      EntriesRead(keys[1..], env, multiline);
    }
  }

  lemma {:induction false} UnixValuesAre(keys: seq<string>, env: map<string, string>)
    requires forall k :: k in keys ==> k in env
    ensures UnixValues(keys, env) == map k | k in ToSet(keys) :: Unix(env[k])
  {
    if keys != [] {
      UnixValuesAre(keys[1..], env);
      assert forall k :: k in ToSet(keys) <==> k == keys[0] || k in ToSet(keys[1..]);
    }
  }

  ghost function File(env: map<string, string>, multiline: bool): string {
    var keys := Sorted(env.Keys);
    assert forall k :: k in keys ==> k in ToSet(keys);
    Entries(keys, env, multiline)
  }

  function UnixEnv(env: map<string, string>): map<string, string> {
    map k | k in env :: Unix(env[k])
  }

  lemma KeysReadBack(env: map<string, string>, multiline: bool)
    requires forall k :: k in env ==> IsKey(k)
    ensures Parse(File(env, multiline), multiline) == Some(UnixEnv(env))
  {
    var keys := Sorted(env.Keys);
    assert forall k :: k in keys <==> k in ToSet(keys);
    EntriesRead(keys, env, multiline);
    UnixValuesAre(keys, env);
  }

  /** Whatever text is read, no key of it holds an equals sign. */
  lemma {:induction false} ParsedKeys(s: string, multiline: bool)
    ensures var r := Parse(s, multiline); r.Some? ==> forall k :: k in r.value ==> IsKey(k)
    decreases |s|
  {
    if s != "" {
      var first := ReadEntry(s, multiline);
      if first.Some? {
        ParsedKeys(first.value.rest, multiline);
      }
    }
  }

  /** The file reads back as the environment with CRLF replaced, exactly if no key holds an equals sign. */
  lemma RenderReadsBackIff(env: map<string, string>, multiline: bool)
    ensures Parse(File(env, multiline), multiline) == Some(UnixEnv(env)) <==> forall k :: k in env ==> IsKey(k)
  {
    ParsedKeys(File(env, multiline), multiline);
    assert UnixEnv(env).Keys == env.Keys;
    if forall k :: k in env ==> IsKey(k) {
      KeysReadBack(env, multiline);
    }
  }

  /** It reads back unchanged exactly if besides that no value holds a CRLF. */
  lemma ReadsBackUnchangedIff(env: map<string, string>, multiline: bool)
    ensures Parse(File(env, multiline), multiline) == Some(env) <==>
            forall k :: k in env ==> IsKey(k) && !Occurs(CRLF, env[k])
  {
    ParsedKeys(File(env, multiline), multiline);
    if forall k :: k in env ==> IsKey(k) {
      KeysReadBack(env, multiline);
      var read := UnixEnv(env);
      forall k | k in env
        ensures read[k] == env[k] <==> !Occurs(CRLF, env[k])
      {
        ReplaceShortens(env[k], CRLF, "\n");
      }
      assert read == env <==> forall k :: k in env ==> read[k] == env[k];
    }
  }

  /** Keys that NormalizeKey makes always read back. */
  lemma NormalizedReadsBack(env: map<string, string>, multiline: bool, upper: string -> string)
    requires forall k :: k in env ==> exists name :: NormalizeKey(name, upper) == k
    ensures Parse(File(env, multiline), multiline) == Some(UnixEnv(env))
  {
    forall k | k in env
      ensures IsKey(k)
    {
      var name :| NormalizeKey(name, upper) == k;
      NormalizedIsKey(name, upper);
    }
    KeysReadBack(env, multiline);
  }

  lemma {:induction false} EntriesSnoc(keys: seq<string>, i: nat, env: map<string, string>, multiline: bool)
    requires i < |keys| && forall k :: k in keys ==> k in env
    ensures Entries(keys[..i + 1], env, multiline) ==
            Entries(keys[..i], env, multiline) + Entry(keys[i], env[keys[i]], multiline)
    decreases i
  {
    assert keys[..i + 1][1..] == keys[1..][..i];
    if i > 0 {
      assert keys[..i][1..] == keys[1..][..i - 1];
      EntriesSnoc(keys[1..], i - 1, env, multiline);
      Regroup(Entry(keys[0], env[keys[0]], multiline), Entries(keys[1..][..i - 1], env, multiline),
              Entry(keys[i], env[keys[i]], multiline));
    }
  }

  method Render(env: map<string, string>, multiline: bool) returns (text: string)
    ensures text == File(env, multiline)
  {
    var keys := Sort(env.Keys);
    assert forall k :: k in keys <==> k in ToSet(keys);
    text := "";
    for i := 0 to |keys|
      invariant text == Entries(keys[..i], env, multiline)
    {
      EntriesSnoc(keys, i, env, multiline);
      text := text + Entry(keys[i], env[keys[i]], multiline);
    }
    assert keys[..|keys|] == keys;
  }
}
