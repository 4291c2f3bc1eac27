/** Formatter.renderTemplate: a small mustache-like interpreter. Every
    component's value replaces its "{{{k}}}" and "{{k}}" tokens, leftover
    triple-brace tokens are deleted, each "{{#first}} a || b {{/first}}"
    block becomes its first non-blank alternative, and leftover
    double-brace tokens are deleted. */
module Renderer {
  import opened Wrappers
  import opened JavaString
  import opened Components

  function TripleToken(k: string): string {
    "{{{" + k + "}}}"
  }

  function DoubleToken(k: string): string {
    "{{" + k + "}}"
  }

  /** The substitution loop of lines 201-204 over the keys in order. */
  function Substituted(m: Entries<string>, t: string, ks: seq<string>): string
    requires forall k :: k in ks ==> k in m.vals
  {
    if ks == [] then t
    else
      var k := ks[|ks| - 1];
      SubstStep(Substituted(m, t, ks[..|ks| - 1]), k, m.vals[k])
  }

  function Repeat(c: char, n: nat): (r: string)
    ensures |r| == n && forall i :: 0 <= i < n ==> r[i] == c
  {
    seq(n, _ => c)
  }

  /** The end of a token of n-brace delimiters starting at s[0]: n opening
      braces, then everything up to the first '}', which must begin n
      closing braces. The class [^}] also matches line terminators. */
  function TokenEnd(s: string, n: nat): (r: Option<nat>)
    requires n > 0
    ensures r.Some? ==> n <= r.value <= |s|
    ensures r.Some? ==> s[0] == '{'
  {
    if OccursAt(s, Repeat('{', n), 0) then
      assert s[0] == s[..n][0];
      match IndexFrom(s, "}", n)
      case None => None
      case Some(q) => if OccursAt(s, Repeat('}', n), q) then Some(q + n) else None
    else None
  }

  /** replaceAll("\\{\\{\\{[^\\}]*\\}\\}\\}", "") for n = 3 and
      replaceAll("\\{\\{[^\\}]*\\}\\}", "") for n = 2: tokens are found and
      deleted left to right, matching resumes after a deleted token. */
  function DeleteTokens(s: string, n: nat): (r: string)
    requires n > 0
    ensures |r| <= |s|
    decreases |s|
  {
    if s == [] then []
    else match TokenEnd(s, n)
      case Some(e) => DeleteTokens(s[e..], n)
      case None => [s[0]] + DeleteTokens(s[1..], n)
  }

  /** Text without an opening brace has no token to delete. */
  lemma {:induction false} DeleteTokensPlain(s: string, n: nat)
    requires n > 0 && '{' !in s
    ensures DeleteTokens(s, n) == s
    decreases |s|
  {
    if s != [] {
      assert forall c :: c in s[1..] ==> c in s;
      DeleteTokensPlain(s[1..], n);
    }
  }

  /** Text in which no token starts anywhere is left as it is. */
  lemma {:induction false} DeleteTokensTokenFree(s: string, n: nat)
    requires n > 0 && forall i :: 0 <= i < |s| ==> TokenEnd(s[i..], n).None?
    ensures DeleteTokens(s, n) == s
    decreases |s|
  {
    if s != [] {
      assert s[0..] == s;
      forall i | 0 <= i < |s| - 1 ensures TokenEnd(s[1..][i..], n).None? {
        assert s[1..][i..] == s[i + 1..];
      }
      DeleteTokensTokenFree(s[1..], n);
    }
  }

  /** A token of n opening braces, text without '}', and n closing braces. */
  function Token(x: string, n: nat): string {
    Repeat('{', n) + x + Repeat('}', n)
  }

  /** The two-brace token around x. */
  lemma TokenText(x: string)
    ensures Token(x, 2) == "{{" + x + "}}"
  {
    assert Repeat('{', 2) == "{{" && Repeat('}', 2) == "}}";
  }

  /** A token at the start of the text is recognised whole. */
  lemma TokenEndOfToken(x: string, b: string, n: nat)
    requires n > 0 && '}' !in x
    ensures TokenEnd(Token(x, n) + b, n) == Some(|Token(x, n)|)
  {
    var s := Token(x, n) + b;
    assert s[..n] == Repeat('{', n);
    forall j | n <= j < n + |x| ensures !OccursAt(s, "}", j) {
      assert s[j] == x[j - n];
      assert s[j..j + 1] == [s[j]];
    }
    assert s[n + |x|..n + |x| + n] == Repeat('}', n);
    assert s[n + |x|..n + |x| + 1] == [s[n + |x|]];
    IndexFromIs(s, "}", n, n + |x|);
  }

  /** In text without other opening braces, a single token is deleted and
      the rest is kept. */
  lemma {:induction false} DeleteTokensSingle(a: string, x: string, b: string, n: nat)
    requires n > 0 && '{' !in a && '}' !in x && '{' !in b
    ensures DeleteTokens(a + Token(x, n) + b, n) == a + b
    decreases |a|
  {
    var s := a + Token(x, n) + b;
    if a == [] {
      assert s == Token(x, n) + b;
      TokenEndOfToken(x, b, n);
      assert s[|Token(x, n)|..] == b;
      DeleteTokensPlain(b, n);
    } else {
      assert s[0] == a[0];
      assert TokenEnd(s, n).None?;
      assert s[1..] == a[1..] + Token(x, n) + b;
      assert forall c :: c in a[1..] ==> c in a;
      DeleteTokensSingle(a[1..], x, b, n);
    }
  }

  /** Where no token starts, the first character is kept. */
  lemma DeleteTokensStep(s: string, n: nat)
    requires n > 0 && s != [] && TokenEnd(s, n).None?
    ensures DeleteTokens(s, n) == [s[0]] + DeleteTokens(s[1..], n)
  {
  }

  /** No token starts at "{{}{": its first '}' is not followed by another. */
  lemma NoTokenAtUnclosed(s: string)
    requires |s| >= 4 && s[0] == '{' && s[1] == '{' && s[2] == '}' && s[3] == '{'
    ensures TokenEnd(s, 2).None?
  {
    assert s[..2] == "{{";
    assert s[2..3] == [s[2]];
    IndexFromIs(s, "}", 2, 2);
    assert s[2..4][1] == s[3];
  }

  /** No token starts where the text does not begin with two braces. */
  lemma NoTokenWithoutBraces(s: string, n: nat)
    requires n >= 2 && |s| >= 2 && (s[0] != '{' || s[1] != '{')
    ensures TokenEnd(s, n).None?
  {
    if n <= |s| {
      assert s[..n][0] == s[0] && s[..n][1] == s[1];
    }
  }

  /** One left-to-right pass, like a single replaceAll, can leave a token
      that the deletion itself forms: "{{}{{}}}" becomes "{{}}". */
  lemma DeleteTokensCanLeaveToken(s: string, t: string)
    requires s == "{{}{{}}}" && t == "{{}}"
    ensures DeleteTokens(s, 2) == t && TokenEnd(t, 2) == Some(|t|)
  {
    var s1 := s[1..];
    var s2 := s1[1..];
    NoTokenAtUnclosed(s);
    NoTokenWithoutBraces(s1, 2);
    NoTokenWithoutBraces(s2, 2);
    DeleteTokensStep(s, 2);
    DeleteTokensStep(s1, 2);
    DeleteTokensStep(s2, 2);
    ClosedTokenDeleted(s2[1..]);
    assert [s[0]] + ([s1[0]] + ([s2[0]] + "}")) == t;
    LeftoverToken(t);
  }

  /** "{{}}}" loses its token. */
  lemma ClosedTokenDeleted(r: string)
    requires r == "{{}}}"
    ensures DeleteTokens(r, 2) == "}"
  {
    TokenText("");
    assert r == "" + Token("", 2) + "}";
    DeleteTokensSingle("", "", "}", 2);
  }

  /** "{{}}" is a complete two-brace token. */
  lemma LeftoverToken(t: string)
    requires t == "{{}}"
    ensures TokenEnd(t, 2) == Some(|t|)
  {
    TokenText("");
    TokenEndOfToken("", "", 2);
    assert Token("", 2) + "" == t;
  }

  const FirstOpen := "{{#first}}"
  const FirstClose := "{{/first}}"
  const AltSep := "||"

  /** The first alternative at or after from whose trim is non-empty. */
  function FirstNonBlankFrom(cs: seq<string>, from: nat): (r: Option<nat>)
    ensures r.Some? ==> from <= r.value < |cs| && Trim(cs[r.value]) != ""
    ensures r.Some? ==> forall j :: from <= j < r.value ==> Trim(cs[j]) == ""
    ensures r.None? ==> forall j :: from <= j < |cs| ==> Trim(cs[j]) == ""
    decreases |cs| - from
  {
    if from >= |cs| then None
    else if Trim(cs[from]) != "" then Some(from)
    else FirstNonBlankFrom(cs, from + 1)
  }

  /** The first alternative whose trim is non-empty, trimmed (null when all
      are blank). */
  function FirstNonBlank(cs: seq<string>): Option<string> {
    match FirstNonBlankFrom(cs, 0)
    case None => None
    case Some(i) => Some(Trim(cs[i]))
  }

  /** The loop of lines 214-220. */
  method PickAlternative(cs: seq<string>) returns (h: Option<string>)
    ensures h == FirstNonBlank(cs)
  {
    h := None;
    var i := 0;
    while i < |cs|
      invariant 0 <= i <= |cs|
      invariant FirstNonBlankFrom(cs, 0) == FirstNonBlankFrom(cs, i)
    {
      if Trim(cs[i]) != "" {
        h := Some(Trim(cs[i]));
        break;
      }
      i := i + 1;
    }
  }

  /** A picked alternative is trimmed and non-empty, and every alternative
      before it is blank. */
  lemma FirstNonBlankSpec(cs: seq<string>)
    ensures FirstNonBlank(cs).Some? ==> FirstNonBlank(cs).value != "" && IsTrimmed(FirstNonBlank(cs).value)
    ensures FirstNonBlank(cs).None? <==> forall j :: 0 <= j < |cs| ==> Trim(cs[j]) == ""
  {
    match FirstNonBlankFrom(cs, 0)
    case None =>
    case Some(i) => TrimIsTrimmed(cs[i]);
  }

  /** One segment after a "{{#first}}": the picked alternative, then the
      text after "{{/first}}" (text after a second "{{/first}}" is lost).
      A segment without text after its "{{/first}}" is an
      ArrayIndexOutOfBoundsException. */
  function Block(p: string): Result<string> {
    var s := JavaSplit(p, FirstClose);
    if |s| < 2 then Err(FirstBlockMalformed)
    else Ok(FirstNonBlank(JavaSplit(s[0], AltSep)).GetOr("") + s[1])
  }

  /** The StringBuilder loop of lines 209-224 over the segments. */
  function Assembled(head: string, parts: seq<string>): Result<string> {
    if parts == [] then Ok(head)
    else Appended(Assembled(head, parts[..|parts| - 1]), parts[|parts| - 1])
  }

  /** The text so far followed by one more segment's contribution. */
  function Appended(acc: Result<string>, p: string): Result<string> {
    var text :- acc;
    var b :- Block(p);
    Ok(text + b)
  }

  function Blocks(t: string): Result<string> {
    var split := JavaSplit(t, FirstOpen);
    if split == [] then Err(TemplateSplitEmpty) else Assembled(split[0], split[1..])
  }

  /** renderTemplate. */
  function Render(m: Entries<string>, t: string): Result<string>
    requires m.Wf()
  {
    var t1 := DeleteTokens(Substituted(m, t, m.keys), 3);
    var b :- Blocks(t1);
    Ok(DeleteTokens(b, 2))
  }

  /** Lines 201-204. */
  method Substitute(c: ComponentMap<string>, template: string) returns (t: string)
    requires c.Valid()
    ensures t == Substituted(c.Model(), template, c.keys)
  {
    var ks := c.keys;
    t := template;
    var i := 0;
    while i < |ks|
      invariant 0 <= i <= |ks|
      invariant t == Substituted(c.Model(), template, ks[..i])
    {
      t := ReplaceLit(t, TripleToken(ks[i]), c.vals[ks[i]]);
      t := ReplaceLit(t, DoubleToken(ks[i]), c.vals[ks[i]]);
      assert ks[..i + 1][..i] == ks[..i];
      i := i + 1;
    }
    assert ks[..|ks|] == ks;
  }

  /** A failing block fails the whole assembly with its error. */
  lemma {:induction false} AssembledFails(head: string, parts: seq<string>, j: nat)
    requires j <= |parts| && Assembled(head, parts[..j]).Err?
    ensures Assembled(head, parts) == Assembled(head, parts[..j])
    decreases |parts|
  {
    if j < |parts| {
      var n := |parts| - 1;
      var init := parts[..n];
      assert init[..j] == parts[..j];
      AssembledFails(head, init, j);
      assert Assembled(head, parts) == Appended(Assembled(head, init), parts[n]);
    } else {
      assert parts[..j] == parts;
    }
  }

  /** One more segment extends the prefix's assembly. */
  lemma AssembledStep(head: string, parts: seq<string>, i: nat)
    requires i < |parts|
    ensures Assembled(head, parts[..i + 1]) == Appended(Assembled(head, parts[..i]), parts[i])
  {
    assert parts[..i + 1][..i] == parts[..i];
  }

  /** Lines 212-223: one segment's contribution. */
  method RenderBlock(p: string) returns (r: Result<string>)
    ensures r == Block(p)
  {
    var s := JavaSplit(p, FirstClose);
    if |s| == 0 {
      return Err(FirstBlockMalformed);
    }
    var h := PickAlternative(JavaSplit(s[0], AltSep));
    if |s| < 2 {
      return Err(FirstBlockMalformed);
    }
    var text := s[1];
    if h.Some? {
      text := h.value + text;
    } else {
      assert "" + text == text;
    }
    return Ok(text);
  }

  /** Lines 206-225. */
  method AssembleBlocks(t: string) returns (r: Result<string>)
    ensures r == Blocks(t)
  {
    var split := JavaSplit(t, FirstOpen);
    if split == [] {
      return Err(TemplateSplitEmpty);
    }
    var head, parts := split[0], split[1..];
    var sb := head;
    for i := 0 to |parts|
      invariant Assembled(head, parts[..i]) == Ok(sb)
    {
      var b := RenderBlock(parts[i]);
      AssembledStep(head, parts, i);
      if b.Err? {
        AssembledFails(head, parts, i + 1);
        return Err(b.error);
      }
      sb := sb + b.value;
    }
    assert parts[..|parts|] == parts;
    return Ok(sb);
  }

  /** renderTemplate. */
  method RenderTemplate(c: ComponentMap<string>, template: string) returns (r: Result<string>)
    requires c.Valid()
    ensures r == Render(c.Model(), template)
  {
    var t := Substitute(c, template);
    t := DeleteTokens(t, 3);
    var b := AssembleBlocks(t);
    if b.Err? {
      return Err(b.error);
    }
    return Ok(DeleteTokens(b.value, 2));
  }

  // ---------------------------------------------------------------------
  // Properties

  predicate NoBraces(s: string) {
    '{' !in s && '}' !in s
  }

  /** A target that starts with '{' does not occur in text without one. */
  lemma BraceTargetAbsent(s: string, tok: string)
    requires '{' !in s && |tok| > 0 && tok[0] == '{'
    ensures !Contains(s, tok)
  {
    forall j | 0 <= j && j + |tok| <= |s| ensures !OccursAt(s, tok, j) {
      assert s[j..j + |tok|][0] == s[j];
    }
  }

  lemma {:induction false} SubstitutedPlain(m: Entries<string>, t: string, ks: seq<string>)
    requires forall k :: k in ks ==> k in m.vals
    requires '{' !in t
    ensures Substituted(m, t, ks) == t
  {
    if ks != [] {
      var k := ks[|ks| - 1];
      SubstitutedPlain(m, t, ks[..|ks| - 1]);
      SubstStepPlain(t, k, m.vals[k]);
    }
  }

  /** Once substitution leaves no opening brace, rendering is done. */
  lemma RenderedAfterSubstitution(m: Entries<string>, t: string)
    requires m.Wf() && '{' !in Substituted(m, t, m.keys)
    ensures Render(m, t) == Ok(Substituted(m, t, m.keys))
  {
    var u := Substituted(m, t, m.keys);
    DeleteTokensPlain(u, 3);
    BraceTargetAbsent(u, FirstOpen);
    assert JavaSplit(u, FirstOpen) == [u];
    assert [u][1..] == [];
    DeleteTokensPlain(u, 2);
  }

  /** A template without an opening brace renders as itself. */
  lemma RenderPlain(m: Entries<string>, t: string)
    requires m.Wf() && '{' !in t
    ensures Render(m, t) == Ok(t)
  {
    SubstitutedPlain(m, t, m.keys);
    RenderedAfterSubstitution(m, t);
  }

  /** The only opening braces of a + "{{k}}" + b are the token's two. */
  lemma TokenBraces(a: string, k: string, b: string)
    requires '{' !in a && NoBraces(k) && '{' !in b
    ensures forall j :: (0 <= j < |a + DoubleToken(k) + b| && j != |a| && j != |a| + 1
      ==> (a + DoubleToken(k) + b)[j] != '{')
  {
    var t := a + DoubleToken(k) + b;
    forall j | 0 <= j < |t| && j != |a| && j != |a| + 1 ensures t[j] != '{' {
      if j < |a| {
        assert t[j] == a[j];
      } else if j < |a| + 2 + |k| {
        assert t[j] == k[j - |a| - 2];
      } else if j < |a| + 4 + |k| {
        assert t[j] == '}';
      } else {
        assert t[j] == b[j - |a| - 4 - |k|];
      }
    }
  }

  /** No triple-brace token occurs in a + "{{k}}" + b. */
  lemma NoTripleToken(a: string, k: string, b: string, k': string)
    requires '{' !in a && NoBraces(k) && '{' !in b
    ensures !Contains(a + DoubleToken(k) + b, TripleToken(k'))
  {
    var t := a + DoubleToken(k) + b;
    var tok := TripleToken(k');
    TokenBraces(a, k, b);
    forall j | 0 <= j && j + |tok| <= |t| ensures !OccursAt(t, tok, j) {
      var w := t[j..j + |tok|];
      assert w[0] == t[j] && w[1] == t[j + 1] && w[2] == t[j + 2];
    }
  }

  /** The token of another brace-free key does not occur in
      a + "{{k}}" + b. */
  lemma NoOtherToken(a: string, k: string, b: string, k': string)
    requires '{' !in a && NoBraces(k) && '{' !in b && NoBraces(k') && k' != k
    ensures !Contains(a + DoubleToken(k) + b, DoubleToken(k'))
  {
    var t := a + DoubleToken(k) + b;
    var tok := DoubleToken(k');
    TokenBraces(a, k, b);
    forall j | 0 <= j && j + |tok| <= |t| ensures !OccursAt(t, tok, j) {
      var w := t[j..j + |tok|];
      assert w[0] == t[j] && w[1] == t[j + 1];
      if j == |a| {
        if |k'| < |k| {
          assert w[2 + |k'|] == k[|k'|] && tok[2 + |k'|] == '}';
        } else if |k'| > |k| {
          assert w[2 + |k|] == '}' && tok[2 + |k|] == k'[|k|];
        } else {
          assert w[2..2 + |k|] == k && tok[2..2 + |k'|] == k';
        }
      }
    }
  }

  /** Replacing "{{k}}" in a + "{{k}}" + b by v gives a + v + b. */
  lemma ReplaceToken(a: string, k: string, b: string, v: string)
    requires '{' !in a && '{' !in b
    ensures ReplaceLit(a + DoubleToken(k) + b, DoubleToken(k), v) == a + v + b
  {
    var t := a + DoubleToken(k) + b;
    var tok := DoubleToken(k);
    assert t[|a|..|a| + |tok|] == tok;
    assert OccursAt(t, tok, |a|);
    forall j | 0 <= j < |a| && j + |tok| <= |t| ensures !OccursAt(t, tok, j) {
      assert t[j..j + |tok|][0] == a[j];
    }
    assert IndexOf(t, tok) == Some(|a|);
    assert t[..|a|] == a;
    assert t[|a| + |tok|..] == b;
    BraceTargetAbsent(b, tok);
    ReplaceAbsent(b, tok, v);
  }

  /** One key's step of the substitution loop. */
  function SubstStep(u: string, k: string, v: string): string {
    ReplaceLit(ReplaceLit(u, TripleToken(k), v), DoubleToken(k), v)
  }

  lemma SubstStepPlain(u: string, k: string, v: string)
    requires '{' !in u
    ensures SubstStep(u, k, v) == u
  {
    BraceTargetAbsent(u, TripleToken(k));
    ReplaceAbsent(u, TripleToken(k), v);
    BraceTargetAbsent(u, DoubleToken(k));
    ReplaceAbsent(u, DoubleToken(k), v);
  }

  lemma SubstStepToken(a: string, k: string, b: string, k': string, v: string)
    requires '{' !in a && NoBraces(k) && '{' !in b && NoBraces(k')
    ensures SubstStep(a + DoubleToken(k) + b, k', v)
      == if k' == k then a + v + b else a + DoubleToken(k) + b
  {
    var t := a + DoubleToken(k) + b;
    NoTripleToken(a, k, b, k');
    ReplaceAbsent(t, TripleToken(k'), v);
    if k' == k {
      ReplaceToken(a, k, b, v);
    } else {
      NoOtherToken(a, k, b, k');
      ReplaceAbsent(t, DoubleToken(k'), v);
    }
  }

  /** Substitution over keys ks turns a + "{{k}}" + b into a + v + b when
      k is among them, and leaves it alone otherwise. */
  lemma {:induction false} SubstitutedToken(m: Entries<string>, a: string, k: string, b: string, ks: seq<string>)
    requires forall k' :: k' in ks ==> k' in m.vals && NoBraces(k')
    requires k in m.vals && '{' !in a && NoBraces(k) && '{' !in b && '{' !in m.vals[k]
    ensures Substituted(m, a + DoubleToken(k) + b, ks)
      == if k in ks then a + m.vals[k] + b else a + DoubleToken(k) + b
  {
    if ks != [] {
      var t := a + DoubleToken(k) + b;
      var n := |ks| - 1;
      var last := ks[n];
      assert ks == ks[..n] + [last];
      SubstitutedToken(m, a, k, b, ks[..n]);
      var prev := Substituted(m, t, ks[..n]);
      assert Substituted(m, t, ks) == SubstStep(prev, last, m.vals[last]);
      if k in ks[..n] {
        SubstStepPlain(prev, last, m.vals[last]);
      } else {
        SubstStepToken(a, k, b, last, m.vals[last]);
      }
    }
  }

  /** A component's value replaces its "{{k}}" token. */
  lemma RenderSubstitutes(m: Entries<string>, a: string, k: string, b: string)
    requires m.Wf() && forall k' :: k' in m.keys ==> NoBraces(k')
    requires k in m.vals && '{' !in a && '{' !in b && '{' !in m.vals[k]
    ensures Render(m, a + DoubleToken(k) + b) == Ok(a + m.vals[k] + b)
  {
    SubstitutedToken(m, a, k, b, m.keys);
    RenderedAfterSubstitution(m, a + DoubleToken(k) + b);
  }

  /** Splitting x + d + y at d, where d starts with '{', x has none and d
      does not occur in y, gives [x, y]. */
  lemma SplitOnce(x: string, d: string, y: string)
    requires |d| > 0 && d[0] == '{' && '{' !in x && !Contains(y, d)
    ensures SplitAll(x + d + y, d) == [x, y]
  {
    var s := x + d + y;
    assert s[|x|..|x| + |d|] == d;
    assert OccursAt(s, d, |x|);
    forall j | 0 <= j < |x| && j + |d| <= |s| ensures !OccursAt(s, d, j) {
      assert s[j..j + |d|][0] == x[j];
    }
    assert IndexOf(s, d) == Some(|x|);
    assert s[..|x|] == x;
    assert s[|x| + |d|..] == y;
    assert SplitAll(y, d) == [y];
  }

  /** "{{#first}}" does not occur in alts + "{{/first}}" + b when alts and
      b have no opening brace. */
  lemma NoFirstOpen(alts: string, b: string)
    requires '{' !in alts && '{' !in b
    ensures !Contains(alts + FirstClose + b, FirstOpen)
  {
    var r := alts + FirstClose + b;
    var n := |alts|;
    forall i | 0 <= i < |r| && i != n && i != n + 1 ensures r[i] != '{' {
      if i < n {
        assert r[i] == alts[i];
      } else if i >= n + 10 {
        assert r[i] == b[i - n - 10];
      } else {
        assert r[i] == FirstClose[i - n];
      }
    }
    assert r[n + 2] == '/' && r[n + 3] == 'f';
    forall j | 0 <= j && j + 10 <= |r| ensures !OccursAt(r, FirstOpen, j) {
      assert r[j..j + 10][0] == r[j] && r[j..j + 10][2] == r[j + 2];
    }
  }

  /** A block with text after its "{{/first}}" contributes its first
      non-blank alternative, trimmed, followed by that text. */
  lemma BlockPicks(alts: string, b: string)
    requires '{' !in alts && '{' !in b && b != ""
    ensures Block(alts + FirstClose + b) == Ok(FirstNonBlank(JavaSplit(alts, AltSep)).GetOr("") + b)
  {
    var rest := alts + FirstClose + b;
    BraceTargetAbsent(b, FirstClose);
    SplitOnce(alts, FirstClose, b);
    assert rest[|alts|..|alts| + 10] == FirstClose;
    assert OccursAt(rest, FirstClose, |alts|);
    assert JavaSplit(rest, FirstClose) == [alts, b];
  }

  lemma BlocksOfTwo(t: string, a: string, rest: string)
    requires JavaSplit(t, FirstOpen) == [a, rest] && Block(rest).Ok?
    ensures Blocks(t) == Ok(a + Block(rest).value)
  {
    assert [a, rest][1..] == [rest];
    assert [rest][..0] == [];
    assert Assembled(a, []) == Ok(a);
    assert Assembled(a, [rest]) == Ok(a + Block(rest).value);
  }

  lemma SplitFirstOpen(a: string, rest: string)
    requires '{' !in a && rest != "" && !Contains(rest, FirstOpen)
    ensures JavaSplit(a + FirstOpen + rest, FirstOpen) == [a, rest]
  {
    var t := a + FirstOpen + rest;
    SplitOnce(a, FirstOpen, rest);
    assert t[|a|..|a| + 10] == FirstOpen;
    assert OccursAt(t, FirstOpen, |a|);
    assert DropTrailingEmpty([a, rest]) == [a, rest];
  }

  /** Text before the first "{{#first}}" is kept, and a block contributes
      its first non-blank alternative, trimmed, followed by the text after
      "{{/first}}". */
  lemma FirstBlock(a: string, alts: string, b: string)
    requires '{' !in a && '{' !in alts && '{' !in b && b != ""
    ensures Blocks(a + FirstOpen + alts + FirstClose + b)
      == Ok(a + FirstNonBlank(JavaSplit(alts, AltSep)).GetOr("") + b)
  {
    var rest := alts + FirstClose + b;
    var t := a + FirstOpen + rest;
    var pick := FirstNonBlank(JavaSplit(alts, AltSep)).GetOr("");
    assert a + FirstOpen + alts + FirstClose + b == t;
    NoFirstOpen(alts, b);
    SplitFirstOpen(a, rest);
    BlockPicks(alts, b);
    assert Block(rest) == Ok(pick + b);
    BlocksOfTwo(t, a, rest);
    assert a + (pick + b) == a + pick + b;
  }
}
