/**
 * Quoting for the shell (internal/shtmpl/quote.go), the command wrapper built from it
 * (internal/executor/shell.go), and a reader for words after sections 2.2.1 to 2.2.3 of the POSIX Shell Command
 * Language, against which both are proved.
 */
module ShellQuote {
  import opened Common
  import opened Text
  import opened Keys

  // ---------------------------------------------------------------- quoting

  function Quote(s: string): string {
    "'" + ReplaceAll(s, "'", "'\\''") + "'"
  }

  function EscapeDouble(c: char): string {
    if c == '\\' || c == '"' || c == '`' then ['\\', c] else [c]
  }

  /** A strings.Replacer of single characters works in one pass. */
  function QuoteDouble(s: string): string {
    "\"" + Rewrite(s, EscapeDouble) + "\""
  }

  // ---------------------------------------------------------------- the reader

  /** A word with its quoting removed and what follows it; or a word whose value depends on an expansion. */
  datatype Scan = Word(word: string, rest: string) | Expands | Unclosed

  function Prepend(s: string, scan: Scan): Scan {
    if scan.Word? then Word(s + scan.word, scan.rest) else scan
  }

  predicate EndsWord(c: char) {
    || c == ' ' || c == '\t' || c == '\n'
    || c == ';' || c == '&' || c == '|' || c == '<' || c == '>' || c == '(' || c == ')'
  }

  predicate StartsExpansion(c: char) {
    c == '$' || c == '`' || c == '*' || c == '?' || c == '[' || c == '~' || c == '#'
  }

  /** Reads the word at the front of s, outside quotes. */
  function Read(s: string): Scan {
    if s == "" || EndsWord(s[0]) then Word("", s)
    else if s[0] == '\'' then ReadSingle(s[1..])
    else if s[0] == '"' then ReadDouble(s[1..])
    else if s[0] == '\\' then
      if |s| == 1 then Unclosed
      else if s[1] == '\n' then Read(s[2..])
      else Prepend([s[1]], Read(s[2..]))
    else if StartsExpansion(s[0]) then Expands
    else Prepend([s[0]], Read(s[1..]))
  }

  /** Inside single quotes nothing but the closing quote is special. */
  function ReadSingle(s: string): Scan {
    if s == "" then Unclosed
    else if s[0] == '\'' then Read(s[1..])
    else Prepend([s[0]], ReadSingle(s[1..]))
  }

  /** Inside double quotes a backslash is special only before the characters it can escape. */
  function ReadDouble(s: string): Scan {
    if s == "" then Unclosed
    else if s[0] == '"' then Read(s[1..])
    else if s[0] == '$' || s[0] == '`' then Expands
    else if s[0] == '\\' && |s| > 1 && s[1] == '\n' then ReadDouble(s[2..])
    else if s[0] == '\\' && |s| > 1 && (s[1] == '$' || s[1] == '`' || s[1] == '"' || s[1] == '\\') then
      Prepend([s[1]], ReadDouble(s[2..]))
    else Prepend([s[0]], ReadDouble(s[1..]))
  }

  // ---------------------------------------------------------------- quoting reads back

  function EscapeSingle(c: char): string {
    if c == '\'' then ['\'', '\\', '\'', '\''] else [c]
  }

  lemma QuoteIsRewrite(s: string)
    ensures Quote(s) == "'" + Rewrite(s, EscapeSingle) + "'"
  {
    ReplaceIsRewrite(s, '\'', "'\\''", EscapeSingle);
  }

  /** A quote inside is closed, escaped and reopened: one literal single quote. */
  lemma EscapedReadsSingle(c: char, tail: string)
    ensures ReadSingle(EscapeSingle(c) + tail) == Prepend([c], ReadSingle(tail))
  {
    var a := EscapeSingle(c) + tail;
    if c == '\'' {
      var b := a[1..];
      assert b[2..] == ['\''] + tail && (['\''] + tail)[1..] == tail;
      assert Read(['\''] + tail) == ReadSingle(tail);
      assert Read(b) == Prepend(['\''], Read(b[2..]));
    } else {
      assert a[1..] == tail;
    }
  }

  lemma PrependTwice(c: char, s: string, scan: Scan)
    ensures Prepend([c], Prepend(s, scan)) == Prepend([c] + s, scan)
  {
    if scan.Word? {
      assert [c] + (s + scan.word) == [c] + s + scan.word;
    }
  }

  lemma {:induction false} QuotedReads(s: string, rest: string)
    ensures ReadSingle(Rewrite(s, EscapeSingle) + (['\''] + rest)) == Prepend(s, Read(rest))
  {
    var close := ['\''] + rest;
    if s == "" {
      assert Rewrite(s, EscapeSingle) + close == close;
      assert close[1..] == rest;
    } else {
      QuotedReads(s[1..], rest);
      EscapedReadsSingle(s[0], Rewrite(s[1..], EscapeSingle) + close);
      RewriteFirst(s, EscapeSingle, close);
      PrependTwice(s[0], s[1..], Read(rest));
      assert s == [s[0]] + s[1..];
    }
  }

  lemma Opened(quote: char, inner: string, rest: string)
    ensures var line := [quote] + inner + [quote] + rest;
            line[0] == quote && line[1..] == inner + ([quote] + rest)
  {
  }

  lemma NothingMore(s: string, rest: string)
    requires rest == "" || EndsWord(rest[0])
    ensures Prepend(s, Read(rest)) == Word(s, rest)
  {
  }

  /** Quote(s) is one word equal to s, for every s. */
  lemma QuoteIsOneWord(s: string, rest: string)
    requires rest == "" || EndsWord(rest[0])
    ensures Read(Quote(s) + rest) == Word(s, rest)
  {
    QuoteIsRewrite(s);
    QuotedReads(s, rest);
    Opened('\'', Rewrite(s, EscapeSingle), rest);
    NothingMore(s, rest);
  }

  lemma EscapedReadsDouble(c: char, tail: string)
    requires tail != ""
    ensures ReadDouble(EscapeDouble(c) + tail) == if c == '$' then Expands else Prepend([c], ReadDouble(tail))
  {
    var a := EscapeDouble(c) + tail;
    if c == '\\' || c == '"' || c == '`' {
      assert a[2..] == tail;
    } else {
      assert a[1..] == tail;
    }
  }

  lemma {:induction false} DoubleQuotedReads(s: string, rest: string)
    ensures ReadDouble(Rewrite(s, EscapeDouble) + (['"'] + rest)) ==
            if '$' in s then Expands else Prepend(s, Read(rest))
  {
    var close := ['"'] + rest;
    if s == "" {
      assert Rewrite(s, EscapeDouble) + close == close;
      assert close[1..] == rest;
    } else {
      DoubleQuotedReads(s[1..], rest);
      EscapedReadsDouble(s[0], Rewrite(s[1..], EscapeDouble) + close);
      RewriteFirst(s, EscapeDouble, close);
      PrependTwice(s[0], s[1..], Read(rest));
      assert s == [s[0]] + s[1..];
      assert '$' in s <==> s[0] == '$' || '$' in s[1..];
    }
  }

  /** QuoteDouble(s) is one word equal to s exactly when s has no '$'; with one, its value is left to an expansion. */
  lemma QuoteDoubleIsOneWord(s: string, rest: string)
    requires rest == "" || EndsWord(rest[0])
    ensures Read(QuoteDouble(s) + rest) == if '$' in s then Expands else Word(s, rest)
  {
    DoubleQuotedReads(s, rest);
    Opened('"', Rewrite(s, EscapeDouble), rest);
    NothingMore(s, rest);
  }

  // ---------------------------------------------------------------- wrapRemote

  datatype EnvValue = EnvValue(value: string, expand: bool)

  function QuoteValue(v: EnvValue): string {
    if v.expand then QuoteDouble(v.value) else Quote(v.value)
  }

  function Export(key: string, v: EnvValue, rest: string): string {
    "export " + (key + ("=" + (QuoteValue(v) + ("; " + rest))))
  }

  function Exports(keys: seq<string>, env: map<string, EnvValue>, rest: string): string
    requires forall k :: k in keys ==> k in env
  {
    if keys == [] then rest else Export(keys[0], env[keys[0]], Exports(keys[1..], env, rest))
  }

  function InDir(dir: string, command: string): string {
    if dir == "" then command else "cd " + (Quote(dir) + (" && " + command))
  }

  ghost function WrapRemote(command: string, dir: string, env: map<string, EnvValue>): string {
    var keys := Sorted(env.Keys);
    assert forall k :: k in keys ==> k in ToSet(keys);
    Exports(keys, env, InDir(dir, command))
  }

  // ---------------------------------------------------------------- and back

  /** A name in the sense of the shell: letters, digits and underscores, not beginning with a digit. */
  predicate IsShellName(s: string) {
    IsName(s) && !('0' <= s[0] <= '9')
  }

  datatype Binding = Binding(name: string, value: string, rest: string)

  /** Reads one export command off the front of a command line. */
  function ReadExport(s: string): Option<Binding> {
    if !("export " <= s) then None
    else
      var t := s[7..];
      var m := NameLength(t);
      if !IsShellName(t[..m]) || m == |t| || t[m] != '=' then None
      else
        var scan := Read(t[m + 1..]);
        if !scan.Word? || !("; " <= scan.rest) then None else Some(Binding(t[..m], scan.word, scan.rest[2..]))
  }

  datatype Line = Line(env: map<string, string>, rest: string)

  /** Reads n export commands, the later of two for one name winning. */
  function ReadExports(s: string, n: nat): Option<Line>
    decreases n
  {
    if n == 0 then Some(Line(map[], s))
    else
      var first := ReadExport(s);
      if first.None? then None
      else
        var more := ReadExports(first.value.rest, n - 1);
        if more.None? then None
        else Some(Line(map[first.value.name := first.value.value] + more.value.env, more.value.rest))
  }

  /** Reads a directory change: the directory and the command run in it. */
  function ReadDir(s: string): Option<(string, string)> {
    if !("cd " <= s) then None
    else
      var scan := Read(s[3..]);
      if !scan.Word? || !(" && " <= scan.rest) then None else Some((scan.word, scan.rest[4..]))
  }

  predicate Literal(v: EnvValue) {
    v.expand ==> '$' !in v.value
  }

  lemma ValueReads(v: EnvValue, rest: string)
    requires rest != "" && EndsWord(rest[0])
    ensures Read(QuoteValue(v) + rest) == if Literal(v) then Word(v.value, rest) else Expands
  {
    if v.expand {
      QuoteDoubleIsOneWord(v.value, rest);
    } else {
      QuoteIsOneWord(v.value, rest);
    }
  }

  lemma ExportReads(name: string, v: EnvValue, rest: string)
    requires IsShellName(name)
    ensures ReadExport(Export(name, v, rest)) == if Literal(v) then Some(Binding(name, v.value, rest)) else None
  {
    var after := QuoteValue(v) + ("; " + rest);
    var t := name + ("=" + after);
    NameReads(name, "=" + after);
    assert Export(name, v, rest)[7..] == t;
    assert t[..|name|] == name && t[|name| + 1..] == after;
    ValueReads(v, "; " + rest);
    assert ("; " + rest)[2..] == rest;
  }

  function Values(keys: set<string>, env: map<string, EnvValue>): map<string, string>
    requires keys <= env.Keys
  {
    map k | k in keys :: env[k].value
  }

  predicate AllLiteral(keys: seq<string>, env: map<string, EnvValue>)
    requires forall k :: k in keys ==> k in env
  {
    keys == [] || (Literal(env[keys[0]]) && AllLiteral(keys[1..], env))
  }

  function Bound(keys: seq<string>, env: map<string, EnvValue>): map<string, string>
    requires forall k :: k in keys ==> k in env
  {
    if keys == [] then map[] else map[keys[0] := env[keys[0]].value] + Bound(keys[1..], env)
  }

  lemma {:induction false} ExportsRead(keys: seq<string>, env: map<string, EnvValue>, rest: string)
    requires forall k :: k in keys ==> k in env && IsShellName(k)
    ensures ReadExports(Exports(keys, env, rest), |keys|) ==
            if AllLiteral(keys, env) then Some(Line(Bound(keys, env), rest)) else None
  {
    if keys != [] {
      ExportReads(keys[0], env[keys[0]], Exports(keys[1..], env, rest));
      ExportsRead(keys[1..], env, rest);
    }
  }

  lemma {:induction false} BoundIsValues(keys: seq<string>, env: map<string, EnvValue>)
    requires forall k :: k in keys ==> k in env
    ensures ToSet(keys) <= env.Keys && Bound(keys, env) == Values(ToSet(keys), env)
  {
    if keys != [] {
      BoundIsValues(keys[1..], env);
      assert ToSet(keys) == {keys[0]} + ToSet(keys[1..]);
    }
  }

  lemma {:induction false} AllLiteralMeans(keys: seq<string>, env: map<string, EnvValue>)
    requires forall k :: k in keys ==> k in env
    ensures AllLiteral(keys, env) <==> forall k :: k in keys ==> Literal(env[k])
  {
    if keys != [] {
      AllLiteralMeans(keys[1..], env);
      assert forall k :: k in keys <==> k == keys[0] || k in keys[1..];
    }
  }

  lemma KeyCount(s: seq<string>)
    requires Ascending(s)
    ensures |ToSet(s)| == |s|
    decreases |s|
  {
    if s != [] {
      RestIsRest(s);
      KeyCount(s[1..]);
    }
  }

  lemma DirReads(dir: string, command: string)
    ensures if dir == "" then InDir(dir, command) == command else ReadDir(InDir(dir, command)) == Some((dir, command))
  {
    if dir != "" {
      QuoteIsOneWord(dir, " && " + command);
      assert InDir(dir, command)[3..] == Quote(dir) + (" && " + command);
      assert (" && " + command)[4..] == command;
    }
  }

  /** Whatever line is read, what it binds are names. */
  lemma {:induction false} NamesRead(s: string, n: nat)
    ensures var r := ReadExports(s, n); r.Some? ==> forall k :: k in r.value.env ==> IsShellName(k)
    decreases n
  {
    if n > 0 && ReadExport(s).Some? {
      NamesRead(ReadExport(s).value.rest, n - 1);
    }
  }

  lemma NamedReadsBack(command: string, dir: string, env: map<string, EnvValue>)
    requires forall k :: k in env ==> IsShellName(k)
    ensures ReadExports(WrapRemote(command, dir, env), |env.Keys|) ==
            if forall k :: k in env ==> Literal(env[k]) then Some(Line(Values(env.Keys, env), InDir(dir, command)))
            else None
  {
    var keys := Sorted(env.Keys);
    assert forall k :: k in keys <==> k in ToSet(keys);
    KeyCount(keys);
    ExportsRead(keys, env, InDir(dir, command));
    BoundIsValues(keys, env);
    AllLiteralMeans(keys, env);
  }

  /**
   * A wrapped command line reads back as its environment followed by the directory change and the command, exactly
   * if every key is a name and no expandable value has a '$' in it.
   */
  lemma WrapRemoteReadsBackIff(command: string, dir: string, env: map<string, EnvValue>)
    ensures ReadExports(WrapRemote(command, dir, env), |env.Keys|) ==
              Some(Line(Values(env.Keys, env), InDir(dir, command))) <==>
            forall k :: k in env ==> IsShellName(k) && Literal(env[k])
  {
    NamesRead(WrapRemote(command, dir, env), |env.Keys|);
    assert Values(env.Keys, env).Keys == env.Keys;
    if forall k :: k in env ==> IsShellName(k) {
      NamedReadsBack(command, dir, env);
    }
  }
}
