/** Masking of registered secrets in text, and of a stream line by line. */
module Masking {
  import opened Text
  import opened Lines

  const PLACEHOLDER := "[FILTERED]"
  const INSIDE := "FILTERED"

  // ---- Text ----

  /** Masks every registered secret in turn. */
  function ReplaceSecrets(secrets: seq<string>, s: string): string
    requires forall i :: 0 <= i < |secrets| ==> secrets[i] != ""
  {
    if secrets == [] then s
    else ReplaceAll(ReplaceSecrets(secrets[..|secrets| - 1], s), secrets[|secrets| - 1], PLACEHOLDER)
  }

  /** A built-in pattern: what it leaves of a text when the spans it matches are cut out. */
  datatype Rule = Rule(keep: string -> seq<string>)

  ghost predicate CutsSpans(rules: seq<Rule>) {
    forall i, s :: 0 <= i < |rules| ==> IsCut(s, rules[i].keep(s))
  }

  function ApplyRules(rules: seq<Rule>, s: string): string {
    if rules == [] then s
    else Join(rules[|rules| - 1].keep(ApplyRules(rules[..|rules| - 1], s)), PLACEHOLDER)
  }

  /** Registered secrets first, then the built-in patterns. */
  function Mask(secrets: seq<string>, rules: seq<Rule>, s: string): string
    requires forall i :: 0 <= i < |secrets| ==> secrets[i] != ""
  {
    ApplyRules(rules, ReplaceSecrets(secrets, s))
  }

  // ---- When a placeholder can hide a secret ----

  /** Laid over the placeholder with offset d, the secret agrees with it wherever they overlap. */
  predicate AgreesAt(secret: string, d: int) {
    forall j :: 0 <= j < |secret| && 0 <= d + j < |PLACEHOLDER| ==> secret[j] == PLACEHOLDER[d + j]
  }

  /** Some text next to a placeholder, together with part of it, could read as the secret. */
  ghost predicate Clashes(secret: string) {
    exists d :: -|secret| < d < |PLACEHOLDER| && AgreesAt(secret, d)
  }

  /** Placeholders between pieces bring no secret about that was not in a piece. */
  lemma {:induction false} JoinHides(pieces: seq<string>, secret: string)
    requires secret != "" && !Clashes(secret)
    requires forall k :: 0 <= k < |pieces| ==> !Occurs(secret, pieces[k])
    ensures !Occurs(secret, Join(pieces, PLACEHOLDER))
    decreases |pieces|
  {
    if |pieces| > 1 {
      var rest := Join(pieces[1..], PLACEHOLDER);
      JoinHides(pieces[1..], secret);
      Around(pieces[0], rest, secret);
    }
  }

  lemma Around(a: string, b: string, secret: string)
    requires secret != "" && !Clashes(secret) && !Occurs(secret, a) && !Occurs(secret, b)
    ensures !Occurs(secret, a + PLACEHOLDER + b)
  {
    var s := a + PLACEHOLDER + b;
    if i: nat :| OccursAt(secret, s, i) {
      if i + |secret| <= |a| {
        assert s[i..i + |secret|] == a[i..i + |secret|];
        assert OccursAt(secret, a, i);
      } else if i >= |a| + |PLACEHOLDER| {
        var j := i - |a| - |PLACEHOLDER|;
        assert s[i..i + |secret|] == b[j..j + |secret|];
        assert OccursAt(secret, b, j);
      } else {
        TouchingClashes(a, b, secret, i);
      }
    }
  }

  lemma TouchingClashes(a: string, b: string, secret: string, i: nat)
    requires OccursAt(secret, a + PLACEHOLDER + b, i)
    requires |a| - |secret| < i < |a| + |PLACEHOLDER|
    ensures Clashes(secret)
  {
    var s, d := a + PLACEHOLDER + b, i - |a|;
    forall j | 0 <= j < |secret| && 0 <= d + j < |PLACEHOLDER|
      ensures secret[j] == PLACEHOLDER[d + j]
    {
      assert s[i..i + |secret|][j] == s[i + j];
    }
    assert AgreesAt(secret, d);
  }

  /** A secret's own pass removes it. */
  lemma OwnPassHides(s: string, secret: string)
    requires secret != "" && !Clashes(secret)
    ensures !Occurs(secret, ReplaceAll(s, secret, PLACEHOLDER))
  {
    ReplaceIsJoin(s, secret, PLACEHOLDER);
    forall k | 0 <= k < |Split(s, secret)|
      ensures !Occurs(secret, Split(s, secret)[k])
    {
      PiecesAreFree(s, secret, k);
    }
    JoinHides(Split(s, secret), secret);
  }

  /** A secret that is gone stays gone when disjoint spans are replaced by the placeholder. */
  lemma CutKeepsHidden(s: string, pieces: seq<string>, secret: string)
    requires secret != "" && !Clashes(secret) && !Occurs(secret, s) && IsCut(s, pieces)
    ensures !Occurs(secret, Join(pieces, PLACEHOLDER))
  {
    forall k | 0 <= k < |pieces|
      ensures !Occurs(secret, pieces[k])
    {
      PiecesOccur(s, pieces, k);
      if Occurs(secret, pieces[k]) {
        OccursTransitive(secret, pieces[k], s);
      }
    }
    JoinHides(pieces, secret);
  }

  lemma {:induction false} SecretsHidden(secrets: seq<string>, s: string, k: nat)
    requires forall i :: 0 <= i < |secrets| ==> secrets[i] != ""
    requires k < |secrets| && !Clashes(secrets[k])
    ensures !Occurs(secrets[k], ReplaceSecrets(secrets, s))
    decreases |secrets|
  {
    var n := |secrets| - 1;
    var before := ReplaceSecrets(secrets[..n], s);
    if k == n {
      OwnPassHides(before, secrets[n]);
    } else {
      SecretsHidden(secrets[..n], s, k);
      assert secrets[..n][k] == secrets[k];
      ReplaceIsJoin(before, secrets[n], PLACEHOLDER);
      SplitIsCut(before, secrets[n]);
      CutKeepsHidden(before, Split(before, secrets[n]), secrets[k]);
    }
  }

  lemma {:induction false} RulesKeepHidden(rules: seq<Rule>, s: string, secret: string)
    requires CutsSpans(rules) && secret != "" && !Clashes(secret) && !Occurs(secret, s)
    ensures !Occurs(secret, ApplyRules(rules, s))
    decreases |rules|
  {
    if rules != [] {
      var n := |rules| - 1;
      RulesKeepHidden(rules[..n], s, secret);
      CutKeepsHidden(ApplyRules(rules[..n], s), rules[n].keep(ApplyRules(rules[..n], s)), secret);
    }
  }

  /** No registered secret that cannot clash with the placeholder is left in masked text. */
  lemma MaskHides(secrets: seq<string>, rules: seq<Rule>, s: string, k: nat)
    requires forall i :: 0 <= i < |secrets| ==> secrets[i] != ""
    requires CutsSpans(rules) && k < |secrets| && !Clashes(secrets[k])
    ensures !Occurs(secrets[k], Mask(secrets, rules, s))
  {
    SecretsHidden(secrets, s, k);
    RulesKeepHidden(rules, ReplaceSecrets(secrets, s), secrets[k]);
  }

  // ---- What masking does, pass by pass ----

  /** Without rules only the registered secrets are masked, and without those nothing. */
  lemma OnlySecrets(secrets: seq<string>, s: string)
    requires forall i :: 0 <= i < |secrets| ==> secrets[i] != ""
    ensures Mask(secrets, [], s) == ReplaceSecrets(secrets, s)
    ensures Mask([], [], s) == s
  {
  }

  /** One more registered secret: its occurrences in what the others leave become placeholders. */
  lemma OneMoreSecret(secrets: seq<string>, secret: string, s: string)
    requires secret != "" && forall i :: 0 <= i < |secrets| ==> secrets[i] != ""
    ensures var all := secrets + [secret];
            && (forall i :: 0 <= i < |all| ==> all[i] != "")
            && ReplaceSecrets(all, s) == ReplaceAll(ReplaceSecrets(secrets, s), secret, PLACEHOLDER)
  {
    assert (secrets + [secret])[..|secrets|] == secrets;
  }

  /** One more rule: what it keeps of the text that the secrets and the other rules leave, with placeholders between. */
  lemma OneMoreRule(secrets: seq<string>, rules: seq<Rule>, rule: Rule, s: string)
    requires forall i :: 0 <= i < |secrets| ==> secrets[i] != ""
    ensures Mask(secrets, rules + [rule], s) == Join(rule.keep(Mask(secrets, rules, s)), PLACEHOLDER)
  {
    assert (rules + [rule])[..|rules|] == rules;
  }

  /** The rule leaves nothing of the text, wherever it occurs. */
  ghost predicate CutsOut(rule: Rule, text: string) {
    forall s, k :: 0 <= k < |rule.keep(s)| ==> !Occurs(text, rule.keep(s)[k])
  }

  lemma {:induction false} RuleHides(rules: seq<Rule>, j: nat, text: string, s: string)
    requires CutsSpans(rules) && j < |rules| && CutsOut(rules[j], text) && text != "" && !Clashes(text)
    ensures !Occurs(text, ApplyRules(rules, s))
    decreases |rules|
  {
    var n := |rules| - 1;
    var before := ApplyRules(rules[..n], s);
    if j == n {
      JoinHides(rules[n].keep(before), text);
    } else {
      RuleHides(rules[..n], j, text, s);
      CutKeepsHidden(before, rules[n].keep(before), text);
    }
  }

  /** A text that some rule cuts out is not left in masked text. */
  lemma MatchedIsHidden(secrets: seq<string>, rules: seq<Rule>, j: nat, text: string, s: string)
    requires forall i :: 0 <= i < |secrets| ==> secrets[i] != ""
    requires CutsSpans(rules) && j < |rules| && CutsOut(rules[j], text) && text != "" && !Clashes(text)
    ensures !Occurs(text, Mask(secrets, rules, s))
  {
    RuleHides(rules, j, text, ReplaceSecrets(secrets, s));
  }

  lemma {:induction false} SecretsLeaveRest(secrets: seq<string>, s: string)
    requires forall i :: 0 <= i < |secrets| ==> secrets[i] != "" && !Occurs(secrets[i], s)
    ensures ReplaceSecrets(secrets, s) == s
    decreases |secrets|
  {
    if secrets != [] {
      SecretsLeaveRest(secrets[..|secrets| - 1], s);
      NoMatchKeeps(s, secrets[|secrets| - 1]);
    }
  }

  lemma {:induction false} RulesLeaveRest(rules: seq<Rule>, s: string)
    requires forall i :: 0 <= i < |rules| ==> rules[i].keep(s) == [s]
    ensures ApplyRules(rules, s) == s
    decreases |rules|
  {
    if rules != [] {
      RulesLeaveRest(rules[..|rules| - 1], s);
    }
  }

  /** Text without a registered secret and without a match is left as it is. */
  lemma LeavesRest(secrets: seq<string>, rules: seq<Rule>, s: string)
    requires forall i :: 0 <= i < |secrets| ==> secrets[i] != "" && !Occurs(secrets[i], s)
    requires forall i :: 0 <= i < |rules| ==> rules[i].keep(s) == [s]
    ensures Mask(secrets, rules, s) == s
  {
    SecretsLeaveRest(secrets, s);
    RulesLeaveRest(rules, s);
  }

  // ---- Exactly when masking is complete ----

  ghost predicate Complete(secrets: seq<string>)
    requires forall i :: 0 <= i < |secrets| ==> secrets[i] != ""
  {
    forall s, k :: 0 <= k < |secrets| ==> !Occurs(secrets[k], ReplaceSecrets(secrets, s))
  }

  predicate BracketFree(secret: string) {
    '[' !in secret && ']' !in secret
  }

  lemma ReachesBracket(secret: string, d: int, at: nat)
    requires AgreesAt(secret, d) && (at == 0 || at == 9) && 0 <= at - d < |secret|
    ensures !BracketFree(secret)
  {
    assert secret[at - d] == PLACEHOLDER[d + (at - d)];
  }

  /** Without brackets, a clash means lying inside the placeholder's brackets. */
  lemma ClashIsInside(secret: string)
    requires secret != "" && BracketFree(secret) && Clashes(secret)
    ensures Occurs(secret, INSIDE)
  {
    var d :| -|secret| < d < |PLACEHOLDER| && AgreesAt(secret, d);
    if d <= 0 {
      ReachesBracket(secret, d, 0);
    } else if d + |secret| > 9 {
      ReachesBracket(secret, d, 9);
    } else {
      LiesInside(secret, d);
    }
  }

  lemma LiesInside(secret: string, d: int)
    requires AgreesAt(secret, d) && 0 < d && d + |secret| <= 9
    ensures Occurs(secret, INSIDE)
  {
    var found := INSIDE[d - 1..d - 1 + |secret|];
    forall j | 0 <= j < |secret|
      ensures secret[j] == found[j]
    {
      InsidePlaceholder(d - 1 + j);
      assert found[j] == INSIDE[d - 1 + j] && secret[j] == PLACEHOLDER[d + j];
    }
    assert found == secret;
    assert OccursAt(secret, INSIDE, d - 1);
  }

  lemma InsidePlaceholder(i: nat)
    requires i < |INSIDE|
    ensures PLACEHOLDER[i + 1] == INSIDE[i]
  {
  }

  lemma PassLeavesInside(s: string, secret: string)
    requires secret != "" && (Occurs(INSIDE, s) || Occurs(secret, s))
    ensures Occurs(INSIDE, ReplaceAll(s, secret, PLACEHOLDER))
  {
    if Occurs(secret, s) {
      MatchBrings(s, secret);
    } else {
      NoMatchKeeps(s, secret);
    }
  }

  lemma {:induction false} MatchBrings(s: string, secret: string)
    requires secret != "" && Occurs(secret, s)
    ensures Occurs(INSIDE, ReplaceAll(s, secret, PLACEHOLDER))
    decreases |s|
  {
    if s[..|secret|] == secret {
      assert OccursAt(INSIDE, PLACEHOLDER, 1);
      OccursWithin(INSIDE, "", PLACEHOLDER, ReplaceAll(s[|secret|..], secret, PLACEHOLDER));
      assert "" + PLACEHOLDER == PLACEHOLDER;
    } else {
      var i: nat :| OccursAt(secret, s, i);
      assert s[1..][i - 1..i - 1 + |secret|] == s[i..i + |secret|];
      assert OccursAt(secret, s[1..], i - 1);
      MatchBrings(s[1..], secret);
      var t := ReplaceAll(s[1..], secret, PLACEHOLDER);
      OccursWithin(INSIDE, [s[0]], t, "");
      assert [s[0]] + t + "" == [s[0]] + t;
    }
  }

  lemma {:induction false} NoMatchKeeps(s: string, secret: string)
    requires secret != "" && !Occurs(secret, s)
    ensures ReplaceAll(s, secret, PLACEHOLDER) == s
    decreases |s|
  {
    if |s| >= |secret| {
      assert !OccursAt(secret, s, 0);
      if i: nat :| OccursAt(secret, s[1..], i) {
        assert s[1..][i..i + |secret|] == s[i + 1..i + 1 + |secret|];
        assert OccursAt(secret, s, i + 1);
      }
      NoMatchKeeps(s[1..], secret);
    }
  }

  lemma {:induction false} InsideStays(secrets: seq<string>, s: string, k: nat)
    requires forall i :: 0 <= i < |secrets| ==> secrets[i] != ""
    requires k < |secrets| && s == secrets[k]
    ensures Occurs(INSIDE, ReplaceSecrets(secrets, s))
    decreases |secrets|
  {
    var n := |secrets| - 1;
    var before := ReplaceSecrets(secrets[..n], s);
    if k < n {
      InsideStays(secrets[..n], s, k);
    } else {
      UnchangedOrInside(secrets[..n], s);
      assert OccursAt(s, s, 0);
    }
    PassLeavesInside(before, secrets[n]);
  }

  lemma {:induction false} UnchangedOrInside(secrets: seq<string>, s: string)
    requires forall i :: 0 <= i < |secrets| ==> secrets[i] != ""
    ensures ReplaceSecrets(secrets, s) == s || Occurs(INSIDE, ReplaceSecrets(secrets, s))
    decreases |secrets|
  {
    if secrets != [] {
      var n := |secrets| - 1;
      UnchangedOrInside(secrets[..n], s);
      var before := ReplaceSecrets(secrets[..n], s);
      if Occurs(INSIDE, before) || Occurs(secrets[n], before) {
        PassLeavesInside(before, secrets[n]);
      } else {
        NoMatchKeeps(before, secrets[n]);
      }
    }
  }

  /** For secrets without brackets, masking is complete exactly if none of them lies inside "FILTERED". */
  lemma CompleteIff(secrets: seq<string>)
    requires forall i :: 0 <= i < |secrets| ==> secrets[i] != "" && BracketFree(secrets[i])
    ensures Complete(secrets) <==> forall k :: 0 <= k < |secrets| ==> !Occurs(secrets[k], INSIDE)
  {
    forall k | 0 <= k < |secrets| && Occurs(secrets[k], INSIDE)
      ensures !Complete(secrets)
    {
      InsideStays(secrets, secrets[k], k);
      OccursTransitive(secrets[k], INSIDE, ReplaceSecrets(secrets, secrets[k]));
    }
    if forall k :: 0 <= k < |secrets| ==> !Occurs(secrets[k], INSIDE) {
      forall s, k | 0 <= k < |secrets|
        ensures !Occurs(secrets[k], ReplaceSecrets(secrets, s))
      {
        if Clashes(secrets[k]) {
          ClashIsInside(secrets[k]);
        }
        SecretsHidden(secrets, s, k);
      }
    }
  }

  /** A secret the placeholder itself spells out survives its own masking. */
  lemma FilteredLeaks()
    ensures !Complete(["FILT"])
  {
    assert OccursAt("FILT", INSIDE, 0);
    CompleteIff(["FILT"]);
    assert Occurs(["FILT"][0], INSIDE);
  }

  // ---- Across the lines of a stream ----

  /** No end of s could be the beginning of the secret, so nothing behind s can complete it. */
  predicate Seals(s: string, secret: string) {
    forall k :: 1 <= k <= |secret| && k <= |s| ==> s[|s| - k..] != secret[..k]
  }

  /** Text that ends in a placeholder, or in a piece that seals, seals. */
  lemma PlaceholderSeals(a: string, b: string, secret: string)
    requires secret != "" && !Clashes(secret) && Seals(b, secret)
    ensures Seals(a + PLACEHOLDER + b, secret)
  {
    var s := a + PLACEHOLDER + b;
    forall k | 1 <= k <= |secret| && k <= |s|
      ensures s[|s| - k..] != secret[..k]
    {
      if k <= |b| {
        assert s[|s| - k..] == b[|b| - k..];
      } else if s[|s| - k..] == secret[..k] {
        var d := |PLACEHOLDER| + |b| - k;
        forall j | 0 <= j < |secret| && 0 <= d + j < |PLACEHOLDER|
          ensures secret[j] == PLACEHOLDER[d + j]
        {
          assert secret[..k][j] == s[|s| - k..][j] == s[|s| - k + j];
        }
        assert AgreesAt(secret, d);
      }
    }
  }

  lemma {:induction false} JoinSeals(pieces: seq<string>, secret: string)
    requires pieces != [] && secret != "" && !Clashes(secret) && Seals(pieces[|pieces| - 1], secret)
    ensures Seals(Join(pieces, PLACEHOLDER), secret)
    decreases |pieces|
  {
    if |pieces| > 1 {
      JoinSeals(pieces[1..], secret);
      PlaceholderSeals(pieces[0], Join(pieces[1..], PLACEHOLDER), secret);
    }
  }

  lemma CutSeals(s: string, pieces: seq<string>, secret: string)
    requires secret != "" && !Clashes(secret) && Seals(s, secret) && IsCut(s, pieces)
    ensures Seals(Join(pieces, PLACEHOLDER), secret)
  {
    PiecesOccur(s, pieces, 0);
    var last := pieces[|pieces| - 1];
    forall k | 1 <= k <= |secret| && k <= |last|
      ensures last[|last| - k..] != secret[..k]
    {
      assert s[|s| - k..] == last[|last| - k..];
    }
    JoinSeals(pieces, secret);
  }

  lemma {:induction false} SecretsSeal(secrets: seq<string>, s: string, secret: string)
    requires forall i :: 0 <= i < |secrets| ==> secrets[i] != ""
    requires secret != "" && !Clashes(secret) && Seals(s, secret)
    ensures Seals(ReplaceSecrets(secrets, s), secret)
    decreases |secrets|
  {
    if secrets != [] {
      var n := |secrets| - 1;
      var before := ReplaceSecrets(secrets[..n], s);
      SecretsSeal(secrets[..n], s, secret);
      ReplaceIsJoin(before, secrets[n], PLACEHOLDER);
      SplitIsCut(before, secrets[n]);
      CutSeals(before, Split(before, secrets[n]), secret);
    }
  }

  lemma {:induction false} RulesSeal(rules: seq<Rule>, s: string, secret: string)
    requires CutsSpans(rules) && secret != "" && !Clashes(secret) && Seals(s, secret)
    ensures Seals(ApplyRules(rules, s), secret)
    decreases |rules|
  {
    if rules != [] {
      var n := |rules| - 1;
      RulesSeal(rules[..n], s, secret);
      CutSeals(ApplyRules(rules[..n], s), rules[n].keep(ApplyRules(rules[..n], s)), secret);
    }
  }

  const LINE_ENDS: set<char> := {'\r', '\n'}
  const MAX_LINE: nat := 65536

  /** A line end that the secret does not contain seals the line. */
  lemma LineSeals(line: string, secret: string)
    requires IsLine(line, LINE_ENDS) && FreeOf(secret, LINE_ENDS)
    ensures Seals(line, secret)
  {
    forall k | 1 <= k <= |secret| && k <= |line|
      ensures line[|line| - k..] != secret[..k]
    {
      assert line[|line| - k..][k - 1] == line[|line| - 1];
      assert secret[..k][k - 1] == secret[k - 1];
    }
  }

  /** The masked chunks, one after the other. */
  function MaskChunks(secrets: seq<string>, rules: seq<Rule>, chunks: seq<string>): string
    requires forall i :: 0 <= i < |secrets| ==> secrets[i] != ""
  {
    if chunks == [] then ""
    else MaskChunks(secrets, rules, chunks[..|chunks| - 1]) + Mask(secrets, rules, chunks[|chunks| - 1])
  }

  // ---- Masked text is unchanged, or shows a placeholder ----

  lemma {:induction false} JoinShows(pieces: seq<string>)
    requires |pieces| > 1
    ensures Occurs(PLACEHOLDER, Join(pieces, PLACEHOLDER))
  {
    var rest := Join(pieces[1..], PLACEHOLDER);
    assert OccursAt(PLACEHOLDER, PLACEHOLDER, 0);
    OccursWithin(PLACEHOLDER, pieces[0], PLACEHOLDER, rest);
  }

  ghost predicate SameOrShown(s: string, masked: string) {
    masked == s || Occurs(PLACEHOLDER, masked)
  }

  lemma CutShows(s: string, pieces: seq<string>)
    requires IsCut(s, pieces)
    ensures SameOrShown(s, Join(pieces, PLACEHOLDER))
  {
    if |pieces| > 1 {
      JoinShows(pieces);
    }
  }

  lemma {:induction false} SecretsShow(secrets: seq<string>, s: string)
    requires forall i :: 0 <= i < |secrets| ==> secrets[i] != ""
    ensures SameOrShown(s, ReplaceSecrets(secrets, s))
    decreases |secrets|
  {
    if secrets != [] {
      var n := |secrets| - 1;
      var before := ReplaceSecrets(secrets[..n], s);
      SecretsShow(secrets[..n], s);
      ReplaceIsJoin(before, secrets[n], PLACEHOLDER);
      SplitIsCut(before, secrets[n]);
      CutShows(before, Split(before, secrets[n]));
    }
  }

  lemma {:induction false} RulesShow(rules: seq<Rule>, s: string)
    requires CutsSpans(rules)
    ensures SameOrShown(s, ApplyRules(rules, s))
    decreases |rules|
  {
    if rules != [] {
      var n := |rules| - 1;
      RulesShow(rules[..n], s);
      CutShows(ApplyRules(rules[..n], s), rules[n].keep(ApplyRules(rules[..n], s)));
    }
  }

  lemma PlaceholderInsideClashes(secret: string)
    requires Occurs(PLACEHOLDER, secret)
    ensures Clashes(secret)
  {
    var i: nat :| OccursAt(PLACEHOLDER, secret, i);
    forall j | 0 <= j < |secret| && 0 <= j - i < |PLACEHOLDER|
      ensures secret[j] == PLACEHOLDER[j - i]
    {
      assert secret[i..i + |PLACEHOLDER|][j - i] == secret[j];
    }
    assert AgreesAt(secret, -(i as int));
  }

  lemma LineNotInside(line: string, secret: string)
    requires IsLine(line, LINE_ENDS) && FreeOf(secret, LINE_ENDS)
    ensures !Occurs(line, secret)
  {
    forall i: nat
      ensures !OccursAt(line, secret, i)
    {
      if i + |line| <= |secret| {
        assert secret[i..i + |line|][|line| - 1] == secret[i + |line| - 1];
      }
    }
  }

  /** What is put out for a line does not lie inside a secret, and does not end like the beginning of one. */
  lemma MaskedLineParts(secrets: seq<string>, rules: seq<Rule>, line: string, secret: string)
    requires forall i :: 0 <= i < |secrets| ==> secrets[i] != ""
    requires CutsSpans(rules) && secret != "" && !Clashes(secret)
    requires FreeOf(secret, LINE_ENDS) && IsLine(line, LINE_ENDS)
    ensures !Occurs(Mask(secrets, rules, line), secret) && Seals(Mask(secrets, rules, line), secret)
  {
    var before, masked := ReplaceSecrets(secrets, line), Mask(secrets, rules, line);
    LineSeals(line, secret);
    SecretsSeal(secrets, line, secret);
    RulesSeal(rules, before, secret);
    SecretsShow(secrets, line);
    RulesShow(rules, before);
    LineNotInside(line, secret);
    if Occurs(masked, secret) && Occurs(PLACEHOLDER, masked) {
      OccursTransitive(PLACEHOLDER, masked, secret);
      PlaceholderInsideClashes(secret);
    }
  }

  // ---- Where a secret can leak ----

  /** Nothing that was put out for a line can be followed by the rest of a secret begun in or before it. */
  lemma NoStraddle(a: string, line: string, b: string, secret: string, i: nat)
    requires Seals(line, secret) && !Occurs(line, secret)
    requires i < |a + line| < i + |secret|
    ensures !OccursAt(secret, a + line + b, i)
  {
    var before, k := a + line, |a + line| - i;
    var s := before + b;
    if i + |secret| <= |s| {
      var here := s[i..i + |secret|];
      assert here[..k] == before[i..];
      if k <= |line| {
        assert before[i..] == line[|line| - k..];
      } else {
        var at: nat := k - |line|;
        assert before[i..][at..] == line;
        assert here[at..at + |line|] == here[..k][at..];
        assert here == secret ==> OccursAt(line, secret, at);
      }
    }
  }

  /** Between output positions i and i + len lies the end of a piece that was cut off an overlong line. */
  ghost predicate AcrossCut(secrets: seq<string>, rules: seq<Rule>, chunks: seq<string>, i: nat, len: nat)
    requires forall i :: 0 <= i < |secrets| ==> secrets[i] != ""
  {
    exists m :: 0 < m <= |chunks| && IsPiece(chunks[m - 1], LINE_ENDS, MAX_LINE) &&
                i < |MaskChunks(secrets, rules, chunks[..m])| < i + len
  }

  /** Masking removes the text from whatever it is given. */
  ghost predicate Removes(secrets: seq<string>, rules: seq<Rule>, secret: string)
    requires forall i :: 0 <= i < |secrets| ==> secrets[i] != ""
  {
    forall s :: !Occurs(secret, Mask(secrets, rules, s))
  }

  lemma {:induction false} LeaksAcrossCuts(secrets: seq<string>, rules: seq<Rule>, chunks: seq<string>, tail: string,
                                           secret: string, i: nat)
    requires forall i :: 0 <= i < |secrets| ==> secrets[i] != ""
    requires CutsSpans(rules) && Removes(secrets, rules, secret)
    requires secret != "" && !Clashes(secret) && FreeOf(secret, LINE_ENDS)
    requires LinesOrPieces(chunks, LINE_ENDS, MAX_LINE) && !Occurs(secret, tail)
    requires OccursAt(secret, MaskChunks(secrets, rules, chunks) + tail, i)
    ensures AcrossCut(secrets, rules, chunks, i, |secret|)
    decreases |chunks|
  {
    var all := MaskChunks(secrets, rules, chunks);
    BeforeTail(all, tail, secret, i);
    if i + |secret| <= |all| {
      assert chunks != [];
      var n := |chunks| - 1;
      LeaksAcrossCuts(secrets, rules, chunks[..n], Mask(secrets, rules, chunks[n]), secret, i);
      CutEarlier(secrets, rules, chunks, n, i, |secret|);
    } else {
      var n := |chunks| - 1;
      if IsLine(chunks[n], LINE_ENDS) {
        MaskedLineParts(secrets, rules, chunks[n], secret);
        NoStraddle(MaskChunks(secrets, rules, chunks[..n]), Mask(secrets, rules, chunks[n]), tail, secret, i);
      }
      assert chunks[..n + 1] == chunks;
    }
  }

  /** An occurrence that is not in the tail begins before it. */
  lemma BeforeTail(all: string, tail: string, secret: string, i: nat)
    requires OccursAt(secret, all + tail, i) && !Occurs(secret, tail) && secret != ""
    ensures i < |all|
    ensures i + |secret| <= |all| ==> OccursAt(secret, all, i)
  {
    var s := all + tail;
    if i >= |all| {
      assert s[i..i + |secret|] == tail[i - |all|..i - |all| + |secret|];
      assert OccursAt(secret, tail, i - |all|);
    } else if i + |secret| <= |all| {
      assert s[i..i + |secret|] == all[i..i + |secret|];
    }
  }

  lemma CutEarlier(secrets: seq<string>, rules: seq<Rule>, chunks: seq<string>, n: nat, i: nat, len: nat)
    requires forall i :: 0 <= i < |secrets| ==> secrets[i] != ""
    requires n <= |chunks| && AcrossCut(secrets, rules, chunks[..n], i, len)
    ensures AcrossCut(secrets, rules, chunks, i, len)
  {
    var m :| 0 < m <= n && IsPiece(chunks[..n][m - 1], LINE_ENDS, MAX_LINE) &&
             i < |MaskChunks(secrets, rules, chunks[..n][..m])| < i + len;
    assert chunks[..n][..m] == chunks[..m] && chunks[..n][m - 1] == chunks[m - 1];
  }

  /** Everything a writer has put out after these writes and a flush. */
  function Output(secrets: seq<string>, rules: seq<Rule>, writes: seq<string>): string
    requires forall i :: 0 <= i < |secrets| ==> secrets[i] != ""
  {
    var d := Feed("", writes, LINE_ENDS, MAX_LINE);
    MaskChunks(secrets, rules, d.chunks) + if d.rest == "" then "" else Mask(secrets, rules, d.rest)
  }

  function Chunks(writes: seq<string>): seq<string> {
    Feed("", writes, LINE_ENDS, MAX_LINE).chunks
  }

  /**
   For every stream and every way to cut it into writes: wherever a single-line text that masking removes, and that
   cannot clash with the placeholder, occurs in the whole output, it lies across a cut made at MAX_LINE bytes of an
   overlong line.
   */
  lemma RemovedLeaksAcrossCuts(secrets: seq<string>, rules: seq<Rule>, writes: seq<string>, secret: string, i: nat)
    requires forall i :: 0 <= i < |secrets| ==> secrets[i] != ""
    requires CutsSpans(rules) && Removes(secrets, rules, secret)
    requires secret != "" && !Clashes(secret) && FreeOf(secret, LINE_ENDS)
    requires OccursAt(secret, Output(secrets, rules, writes), i)
    ensures AcrossCut(secrets, rules, Chunks(writes), i, |secret|)
  {
    var d := Feed("", writes, LINE_ENDS, MAX_LINE);
    FeedKinds("", writes, LINE_ENDS, MAX_LINE);
    LeaksAcrossCuts(secrets, rules, d.chunks, if d.rest == "" then "" else Mask(secrets, rules, d.rest), secret, i);
  }

  /** So it occurs nowhere in the output of a stream without overlong lines. */
  lemma RemovedIsHidden(secrets: seq<string>, rules: seq<Rule>, writes: seq<string>, secret: string)
    requires forall i :: 0 <= i < |secrets| ==> secrets[i] != ""
    requires CutsSpans(rules) && Removes(secrets, rules, secret)
    requires secret != "" && !Clashes(secret) && FreeOf(secret, LINE_ENDS)
    requires ShortRuns(Concat(writes), LINE_ENDS, MAX_LINE)
    ensures !Occurs(secret, Output(secrets, rules, writes))
  {
    var all := Concat(writes);
    assert "" + all == all;
    FeedIsDrain("", writes, LINE_ENDS, MAX_LINE);
    ChunksAreLines(all, LINE_ENDS, MAX_LINE);
    NoCuts(secrets, rules, Chunks(writes), |secret|);
    if i: nat :| OccursAt(secret, Output(secrets, rules, writes), i) {
      RemovedLeaksAcrossCuts(secrets, rules, writes, secret, i);
    }
  }

  lemma SecretIsRemoved(secrets: seq<string>, rules: seq<Rule>, k: nat)
    requires forall i :: 0 <= i < |secrets| ==> secrets[i] != ""
    requires CutsSpans(rules) && k < |secrets| && !Clashes(secrets[k])
    ensures Removes(secrets, rules, secrets[k])
  {
    forall s
      ensures !Occurs(secrets[k], Mask(secrets, rules, s))
    {
      MaskHides(secrets, rules, s, k);
    }
  }

  /** Both for a registered secret ... */
  lemma StreamLeaksAcrossCuts(secrets: seq<string>, rules: seq<Rule>, writes: seq<string>, k: nat, i: nat)
    requires forall i :: 0 <= i < |secrets| ==> secrets[i] != ""
    requires CutsSpans(rules) && k < |secrets| && !Clashes(secrets[k]) && FreeOf(secrets[k], LINE_ENDS)
    requires OccursAt(secrets[k], Output(secrets, rules, writes), i)
    ensures AcrossCut(secrets, rules, Chunks(writes), i, |secrets[k]|)
  {
    SecretIsRemoved(secrets, rules, k);
    RemovedLeaksAcrossCuts(secrets, rules, writes, secrets[k], i);
  }

  lemma StreamHides(secrets: seq<string>, rules: seq<Rule>, writes: seq<string>, k: nat)
    requires forall i :: 0 <= i < |secrets| ==> secrets[i] != ""
    requires CutsSpans(rules) && k < |secrets| && !Clashes(secrets[k]) && FreeOf(secrets[k], LINE_ENDS)
    requires ShortRuns(Concat(writes), LINE_ENDS, MAX_LINE)
    ensures !Occurs(secrets[k], Output(secrets, rules, writes))
  {
    SecretIsRemoved(secrets, rules, k);
    RemovedIsHidden(secrets, rules, writes, secrets[k]);
  }

  /** ... and for a text that a built-in pattern cuts out. */
  lemma StreamHidesMatched(secrets: seq<string>, rules: seq<Rule>, writes: seq<string>, j: nat, text: string)
    requires forall i :: 0 <= i < |secrets| ==> secrets[i] != ""
    requires CutsSpans(rules) && j < |rules| && CutsOut(rules[j], text)
    requires text != "" && !Clashes(text) && FreeOf(text, LINE_ENDS)
    requires ShortRuns(Concat(writes), LINE_ENDS, MAX_LINE)
    ensures !Occurs(text, Output(secrets, rules, writes))
  {
    forall s
      ensures !Occurs(text, Mask(secrets, rules, s))
    {
      MatchedIsHidden(secrets, rules, j, text, s);
    }
    RemovedIsHidden(secrets, rules, writes, text);
  }

  lemma NoCuts(secrets: seq<string>, rules: seq<Rule>, lines: seq<string>, len: nat)
    requires forall i :: 0 <= i < |secrets| ==> secrets[i] != ""
    requires forall k :: 0 <= k < |lines| ==> IsLine(lines[k], LINE_ENDS)
    ensures forall i: nat :: !AcrossCut(secrets, rules, lines, i, len)
  {
    forall k | 0 <= k < |lines|
      ensures !IsPiece(lines[k], LINE_ENDS, MAX_LINE)
    {
      assert IsLine(lines[k], LINE_ENDS);
    }
  }

  lemma {:induction false} ChunksConserved(secrets: seq<string>, rules: seq<Rule>, chunks: seq<string>)
    requires forall i :: 0 <= i < |secrets| ==> secrets[i] != ""
    requires forall k :: 0 <= k < |chunks| ==> Mask(secrets, rules, chunks[k]) == chunks[k]
    ensures MaskChunks(secrets, rules, chunks) == Concat(chunks)
    decreases |chunks|
  {
    if chunks != [] {
      var n := |chunks| - 1;
      ChunksConserved(secrets, rules, chunks[..n]);
      ConcatAppend(chunks[..n], [chunks[n]]);
      assert chunks == chunks[..n] + [chunks[n]];
      ConcatCons(chunks[n], []);
      assert chunks[n] + "" == chunks[n] && [chunks[n]] + [] == [chunks[n]];
    }
  }

  /** What masking has no reason to touch comes out byte for byte, however it was written. */
  lemma OutputConserves(secrets: seq<string>, rules: seq<Rule>, writes: seq<string>)
    requires forall i :: 0 <= i < |secrets| ==> secrets[i] != ""
    requires var d := Feed("", writes, LINE_ENDS, MAX_LINE);
             && (forall k :: 0 <= k < |d.chunks| ==> Mask(secrets, rules, d.chunks[k]) == d.chunks[k])
             && Mask(secrets, rules, d.rest) == d.rest
    ensures Output(secrets, rules, writes) == Concat(writes)
  {
    ChunksConserved(secrets, rules, Chunks(writes));
    FeedConserves("", writes, LINE_ENDS, MAX_LINE);
    assert "" + Concat(writes) == Concat(writes);
  }

  /** A pass leaves text that the secret does not fit into. */
  lemma Unmasked(secret: string, s: string)
    requires secret != "" && !Occurs(secret, s)
    ensures Mask([secret], [], s) == s
  {
    var one := [secret];
    assert one[..0] == [];
    assert ReplaceSecrets(one, s) == ReplaceAll(ReplaceSecrets(one[..0], s), secret, PLACEHOLDER);
    NoMatchKeeps(s, secret);
  }

  /** Padding and the first character of a secret do not hold the secret. */
  lemma FirstOnly(secret: string, pad: string)
    requires |secret| >= 2 && forall c :: c in pad ==> c !in secret
    ensures !Occurs(secret, pad + secret[..1]) && !Occurs(secret, secret[1..])
  {
    var s := pad + secret[..1];
    forall i: nat
      ensures !OccursAt(secret, s, i)
    {
      if i + |secret| <= |s| {
        assert s[i] in pad;
        assert s[i..i + |secret|][0] == s[i];
      }
    }
  }

  /** An overlong line without any line end is drained as one piece and a rest. */
  lemma DrainOverlong(w: string)
    requires FreeOf(w, LINE_ENDS) && MAX_LINE <= |w| < 2 * MAX_LINE
    ensures Drain(w, LINE_ENDS, MAX_LINE) == Drained([w[..MAX_LINE]], w[MAX_LINE..])
  {
    assert IndexEnd(w, LINE_ENDS) == |w|;
    Peel(w, MAX_LINE, LINE_ENDS, MAX_LINE);
    DrainSettled(w[MAX_LINE..], LINE_ENDS, MAX_LINE);
  }

  /** The bound on lines is needed: behind enough padding, every secret of two characters or more gets through. */
  lemma OverlongLeaks(secret: string, pad: string)
    requires 2 <= |secret| <= MAX_LINE && FreeOf(secret, LINE_ENDS)
    requires |pad| == MAX_LINE - 1 && FreeOf(pad, LINE_ENDS) && forall c :: c in pad ==> c !in secret
    ensures Occurs(secret, Output([secret], [], [pad + secret]))
  {
    var w, writes := pad + secret, [pad + secret];
    var first, rest := w[..MAX_LINE], w[MAX_LINE..];
    assert first == pad + secret[..1] && rest == secret[1..];
    assert "" + w == w && writes[0] == w && writes[1..] == [];
    DrainOverlong(w);
    assert Feed("", writes, LINE_ENDS, MAX_LINE) == Drained([first] + [], rest);
    assert [first] + [] == [first];
    FirstOnly(secret, pad);
    Unmasked(secret, first);
    Unmasked(secret, rest);
    OneChunk([secret], [], first);
    assert Output([secret], [], writes) == first + rest == w;
    OccursBehind(pad, secret);
  }

  lemma OneChunk(secrets: seq<string>, rules: seq<Rule>, chunk: string)
    requires forall i :: 0 <= i < |secrets| ==> secrets[i] != ""
    ensures MaskChunks(secrets, rules, [chunk]) == Mask(secrets, rules, chunk)
  {
    assert [chunk][..0] == [];
  }

  /** In terms a user can check: a bracket-free single-line secret that is not part of the word "FILTERED". */
  lemma StreamHidesPlain(secrets: seq<string>, rules: seq<Rule>, writes: seq<string>, k: nat)
    requires forall i :: 0 <= i < |secrets| ==> secrets[i] != ""
    requires CutsSpans(rules) && ShortRuns(Concat(writes), LINE_ENDS, MAX_LINE)
    requires k < |secrets| && FreeOf(secrets[k], LINE_ENDS) && BracketFree(secrets[k]) && !Occurs(secrets[k], INSIDE)
    ensures !Occurs(secrets[k], Output(secrets, rules, writes))
  {
    if Clashes(secrets[k]) {
      ClashIsInside(secrets[k]);
    }
    StreamHides(secrets, rules, writes, k);
  }

  /** The masking writer: buffers partial lines and puts out each complete line masked. */
  class Writer {
    const secrets: seq<string>
    const rules: seq<Rule>
    const enabled: bool
    const fails: nat -> bool           // whether the underlying writer rejects its n-th write
    var buf: string
    var attempts: nat
    var out: string                    // what the underlying writer has accepted

    constructor (secrets: seq<string>, rules: seq<Rule>, enabled: bool, fails: nat -> bool)
      ensures buf == "" && out == ""
      ensures this.secrets == secrets && this.rules == rules && this.enabled == enabled && this.fails == fails
    {
      this.secrets, this.rules, this.enabled, this.fails := secrets, rules, enabled, fails;
      buf, attempts, out := "", 0, "";
    }

    method Put(text: string) returns (ok: bool)
      modifies this`attempts, this`out
      ensures out == if ok then old(out) + text else old(out)
      ensures (forall n :: !fails(n)) ==> ok
    {
      ok := !fails(attempts);
      attempts := attempts + 1;
      if ok {
        out := out + text;
      }
    }

    /** A rejected line is dropped, what follows it stays buffered; disabled, everything passes through unbuffered. */
    method Write(p: string) returns (ok: bool, ghost accepted: nat)
      requires forall i :: 0 <= i < |secrets| ==> secrets[i] != ""
      modifies this
      ensures !enabled ==> buf == old(buf) && out == if ok then old(out) + p else old(out)
      ensures enabled ==>
                var d := Drain(old(buf) + p, LINE_ENDS, MAX_LINE);
                && accepted <= |d.chunks| && (ok <==> accepted == |d.chunks|)
                && out == old(out) + MaskChunks(secrets, rules, d.chunks[..accepted])
                && buf == if ok then d.rest else Concat(d.chunks[accepted + 1..]) + d.rest
      ensures (forall n :: !fails(n)) ==> ok
    {
      accepted := 0;
      if !enabled {
        ok := Put(p);
        return;
      }
      buf := buf + p;
      ghost var d := Drain(buf, LINE_ENDS, MAX_LINE);
      assert d.chunks[..0] == [] && d.chunks[0..] == d.chunks;
      while true
        invariant accepted <= |d.chunks|
        invariant out == old(out) + MaskChunks(secrets, rules, d.chunks[..accepted])
        invariant Drain(buf, LINE_ENDS, MAX_LINE) == Drained(d.chunks[accepted..], d.rest)
        decreases |buf|
      {
        var n := ChunkLength(buf, LINE_ENDS, MAX_LINE);
        NextChunk(d, accepted, buf, n, LINE_ENDS, MAX_LINE);
        if n == 0 {
          return true, accepted;
        }
        var masked := Mask(secrets, rules, buf[..n]);
        MaskSnoc(old(out), secrets, rules, d.chunks, accepted);
        buf := buf[n..];
        var sent := Put(masked);
        if !sent {
          return false, accepted;
        }
        accepted := accepted + 1;
      }
    }

    method Flush() returns (ok: bool)
      requires forall i :: 0 <= i < |secrets| ==> secrets[i] != ""
      modifies this
      ensures buf == ""
      ensures out == if ok && old(buf) != "" then old(out) + Emitted(old(buf)) else old(out)
      ensures (forall n :: !fails(n)) ==> ok
    {
      if |buf| == 0 {
        return true;
      }
      ok := Put(Emitted(buf));
      buf := "";
    }

    function Emitted(s: string): string
      requires forall i :: 0 <= i < |secrets| ==> secrets[i] != ""
    {
      if enabled then Mask(secrets, rules, s) else s
    }
  }

  lemma MaskSnoc(before: string, secrets: seq<string>, rules: seq<Rule>, chunks: seq<string>, k: nat)
    requires forall i :: 0 <= i < |secrets| ==> secrets[i] != ""
    requires k < |chunks|
    ensures before + MaskChunks(secrets, rules, chunks[..k]) + Mask(secrets, rules, chunks[k]) ==
            before + MaskChunks(secrets, rules, chunks[..k + 1])
  {
    var upTo := chunks[..k + 1];
    assert upTo[..|upTo| - 1] == chunks[..k] && upTo[|upTo| - 1] == chunks[k];
  }

  lemma {:induction false} MaskChunksAppend(secrets: seq<string>, rules: seq<Rule>, a: seq<string>, b: seq<string>)
    requires forall i :: 0 <= i < |secrets| ==> secrets[i] != ""
    ensures MaskChunks(secrets, rules, a + b) == MaskChunks(secrets, rules, a) + MaskChunks(secrets, rules, b)
    decreases |b|
  {
    if b == [] {
      assert a + b == a;
    } else {
      assert (a + b)[..|a + b| - 1] == a + b[..|b| - 1];
      MaskChunksAppend(secrets, rules, a, b[..|b| - 1]);
    }
  }

  /** A fresh writer over a sink that accepts everything puts out Output, write by write. */
  method Stream(secrets: seq<string>, rules: seq<Rule>, writes: seq<string>) returns (out: string)
    requires forall i :: 0 <= i < |secrets| ==> secrets[i] != ""
    ensures out == Output(secrets, rules, writes)
  {
    var w := new Writer(secrets, rules, true, n => false);
    ghost var done: seq<string> := [];
    ghost var all := Feed("", writes, LINE_ENDS, MAX_LINE);
    assert writes[0..] == writes && [] + all.chunks == all.chunks;
    for i := 0 to |writes|
      invariant fresh(w) && w.enabled && w.secrets == secrets && w.rules == rules && forall n :: !w.fails(n)
      invariant w.out == MaskChunks(secrets, rules, done)
      invariant Feed(w.buf, writes[i..], LINE_ENDS, MAX_LINE).rest == all.rest
      invariant done + Feed(w.buf, writes[i..], LINE_ENDS, MAX_LINE).chunks == all.chunks
    {
      FeedStep(w.buf, writes, i, done, LINE_ENDS, MAX_LINE);
      ghost var d := Drain(w.buf + writes[i], LINE_ENDS, MAX_LINE);
      var ok, accepted := w.Write(writes[i]);
      assert d.chunks[..accepted] == d.chunks;
      MaskChunksAppend(secrets, rules, done, d.chunks);
      done := done + d.chunks;
    }
    assert writes[|writes|..] == [] && done + [] == done;
    var _ := w.Flush();
    out := w.out;
  }
}
