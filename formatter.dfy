/** The public entry points of Formatter: formatAddress, guessName and
    guessTypeCandidates, and the steps they share (ensureValidMap and
    prepareRendering). Each works on a copy of the caller's map. */
module Formatter {
  import opened Wrappers
  import opened JavaString
  import opened Components
  import opened Templates
  import opened Configuration
  import opened Country
  import opened Sanitizer
  import opened Enrichment
  import opened Selector
  import opened Renderer
  import opened Cleaner

  /** ensureValidMap: a copy in which every null value becomes the text
      "null" (String.valueOf). */
  function ValidCopy(m: Entries<Option<string>>): (r: Entries<string>)
    ensures m.Wf() ==> r.Wf()
    ensures r.keys == m.keys
    ensures forall k :: k in r.vals <==> k in m.vals
    ensures forall k :: k in m.vals && m.vals[k].Some? ==> r.vals[k] == m.vals[k].value
    ensures forall k :: k in m.vals && m.vals[k].None? ==> r.vals[k] == "null"
  {
    Entries(m.keys, map k | k in m.vals :: m.vals[k].GetOr("null"))
  }

  method EnsureValidMap(input: ComponentMap<Option<string>>) returns (c: ComponentMap<string>)
    requires input.Valid()
    ensures fresh(c) && c.Valid() && c.Model() == ValidCopy(input.Model())
  {
    c := new ComponentMap();
    var ks := input.keys;
    for i := 0 to |ks|
      invariant c.Valid()
      invariant c.keys == ks[..i]
      invariant forall k :: k in c.vals ==> k in input.vals && c.vals[k] == input.vals[k].GetOr("null")
    {
      assert ks[..i + 1] == ks[..i] + [ks[i]];
      c.Put(ks[i], input.vals[ks[i]].GetOr("null"));
    }
    assert ks[..|ks|] == ks;
    assert c.vals == ValidCopy(input.Model()).vals;
  }

  /** prepareRendering up to configureAttention: sanitizeComponents, the
      country's template, applyReplacements, addStateCode and
      addCountyCode. */
  function Enriched(cfg: Config, m: Entries<string>): (r: Result<(Template, Entries<string>)>)
    requires cfg.Valid() && m.Wf()
    ensures r.Ok? ==> r.value.1.Wf()
  {
    var m1 :- Sanitized(cfg, m);
    var t := SelectTemplate(cfg, m1.Get("country_code"));
    var m2 :- Replaced(cfg.replaceAll, m1, t.replace);
    Ok((t, WithCountyCode(cfg, WithStateCode(cfg, m2))))
  }

  /** prepareRendering (lines 95-104): the rewritten map and the chosen
      template. */
  function Prepared(cfg: Config, m: Entries<string>): (r: Result<(Template, Entries<string>)>)
    requires cfg.Valid() && m.Wf()
    ensures r.Ok? ==> r.value.1.Wf()
    ensures r.Ok? <==> Enriched(cfg, m).Ok?
  {
    var p :- Enriched(cfg, m);
    Ok((p.0, WithAttention(cfg, p.1)))
  }

  method PrepareRendering(cfg: Config, c: ComponentMap<string>) returns (res: Result<Template>)
    requires cfg.Valid() && c.Valid()
    modifies c
    ensures c.Valid()
    ensures Yields(res, Prepared(cfg, old(c.Model())), c.Model())
  {
    var out := SanitizeComponents(cfg, c);
    if out.Fail? {
      return Err(out.error);
    }
    var t := SelectTemplate(cfg, if "country_code" in c.vals then Some(c.vals["country_code"]) else None);
    out := ApplyReplacements(cfg.replaceAll, c, t.replace);
    if out.Fail? {
      return Err(out.error);
    }
    AddStateCode(cfg, c);
    AddCountyCode(cfg, c);
    ConfigureAttention(cfg, c);
    return Ok(t);
  }

  /** The postformat loop of lines 88-90: each rule's pattern is replaced
      by its replacement, in list order. */
  function Postformatted(rx: RegexReplace, s: string, rules: seq<Replacement>): string {
    if rules == [] then s
    else rx(Postformatted(rx, s, rules[..|rules| - 1]), rules[|rules| - 1].from, rules[|rules| - 1].to)
  }

  /** formatAddress on a valid map: clean, then the postformat rules, then
      clean again. Iterating the rule list of a template without one is a
      NullPointerException. */
  function Formatted(cfg: Config, m: Entries<string>): (r: Result<string>)
    requires cfg.Valid() && m.Wf()
    ensures r.Ok? <==>
      (Prepared(cfg, m).Ok? &&
       var p := Prepared(cfg, m).value;
       ChosenTemplate(cfg, p.1, p.0).Ok? && Render(p.1, ChosenTemplate(cfg, p.1, p.0).value).Ok?
       && p.0.postformatReplace.Some?)
    ensures r.Ok? ==>
      var p := Prepared(cfg, m).value;
      var rendered := Render(p.1, ChosenTemplate(cfg, p.1, p.0).value).value;
      r.value == Cleaned(Postformatted(cfg.replaceAll, Cleaned(rendered), p.0.postformatReplace.value))
  {
    var p :- Prepared(cfg, m);
    var text :- ChosenTemplate(cfg, p.1, p.0);
    var rendered :- Render(p.1, text);
    match p.0.postformatReplace
    case None => Err(RuleListMissing)
    case Some(rules) => Ok(Cleaned(Postformatted(cfg.replaceAll, Cleaned(rendered), rules)))
  }

  /** The loop of lines 88-90. */
  method Postformat(rx: RegexReplace, s: string, rules: seq<Replacement>) returns (t: string)
    ensures t == Postformatted(rx, s, rules)
  {
    t := s;
    for i := 0 to |rules|
      invariant t == Postformatted(rx, s, rules[..i])
    {
      assert rules[..i + 1][..i] == rules[..i];
      t := rx(t, rules[i].from, rules[i].to);
    }
    assert rules[..|rules|] == rules;
  }

  method FormatAddress(cfg: Config, input: ComponentMap<Option<string>>) returns (r: Result<string>)
    requires cfg.Valid() && input.Valid()
    ensures r == Formatted(cfg, ValidCopy(input.Model()))
  {
    var c := EnsureValidMap(input);
    ghost var m := c.Model();
    var t := PrepareRendering(cfg, c);
    if t.Err? {
      return Err(t.error);
    }
    assert Prepared(cfg, m) == Ok((t.value, c.Model()));
    var text := ChooseAddressTemplate(cfg, c, t.value);
    if text.Err? {
      return Err(text.error);
    }
    var rendered := RenderTemplate(c, text.value);
    if rendered.Err? {
      return Err(rendered.error);
    }
    var s := Clean(rendered.value);
    if t.value.postformatReplace.None? {
      return Err(RuleListMissing);
    }
    s := Postformat(cfg.replaceAll, s, t.value.postformatReplace.value);
    s := Clean(s);
    return Ok(s);
  }

  /** guessName (lines 69-74): the attention component after
      prepareRendering. */
  function GuessedName(cfg: Config, m: Entries<string>): Result<Option<string>>
    requires cfg.Valid() && m.Wf()
  {
    var p :- Prepared(cfg, m);
    Ok(p.1.Get("attention"))
  }

  method GuessName(cfg: Config, input: ComponentMap<Option<string>>) returns (r: Result<Option<string>>)
    requires cfg.Valid() && input.Valid()
    ensures r == GuessedName(cfg, ValidCopy(input.Model()))
  {
    var c := EnsureValidMap(input);
    var t := PrepareRendering(cfg, c);
    if t.Err? {
      return Err(t.error);
    }
    return Ok(if "attention" in c.vals then Some(c.vals["attention"]) else None);
  }

  /** guessTypeCandidates (lines 76-80): the unknown components left after
      sanitizeComponents, in map order and without repeats. */
  function Candidates(cfg: Config, m: Entries<string>): (r: Result<seq<string>>)
    requires m.Wf()
    ensures r.Err? <==> Sanitized(cfg, m).Err?
    ensures r.Ok? ==> Distinct(r.value)
    ensures r.Ok? ==> forall k :: k in r.value <==> k in Sanitized(cfg, m).value.vals && cfg.IsUnknown(k)
  {
    var m1 :- Sanitized(cfg, m);
    UnknownKeysSpec(cfg, m1.keys);
    Ok(UnknownKeys(cfg, m1.keys))
  }

  method GuessTypeCandidates(cfg: Config, input: ComponentMap<Option<string>>) returns (r: Result<seq<string>>)
    requires input.Valid()
    ensures r == Candidates(cfg, ValidCopy(input.Model()))
  {
    var c := EnsureValidMap(input);
    var out := SanitizeComponents(cfg, c);
    if out.Fail? {
      return Err(out.error);
    }
    var unknown := FindUnknownComponents(cfg, c);
    return Ok(unknown);
  }

  // ---------------------------------------------------------------------
  // Properties

  /** A formatted address is trimmed and has no empty or blank line. */
  lemma FormattedShape(cfg: Config, m: Entries<string>)
    requires cfg.Valid() && m.Wf() && Formatted(cfg, m).Ok?
    ensures IsTrimmed(Formatted(cfg, m).value) && NoBlankLine(Formatted(cfg, m).value)
  {
    var p := Prepared(cfg, m).value;
    var text := ChosenTemplate(cfg, p.1, p.0).value;
    var rendered := Render(p.1, text).value;
    CleanedShape(Postformatted(cfg.replaceAll, Cleaned(rendered), p.0.postformatReplace.value));
  }

  /** A component no rule knows, that the sanitizer does not touch and that
      holds no URL is a type candidate. */
  lemma CandidateSurvives(cfg: Config, m: Entries<string>, k: string)
    requires m.Wf() && Sanitized(cfg, m).Ok?
    requires k in m.vals && !HasUrl(m.vals[k]) && cfg.IsUnknown(k)
    requires !SanitizerWrites(k) && !MayWrite(cfg, m, k)
    ensures Candidates(cfg, m).Ok? && k in Candidates(cfg, m).value
  {
    SanitizedKeeps(cfg, m, k);
  }

  /** With a single unknown component, the attention component is its
      value. */
  lemma AttentionSingleUnknown(cfg: Config, m: Entries<string>, k: string)
    requires m.Wf() && UnknownKeys(cfg, m.keys) == [k]
    ensures k in m.vals && WithAttention(cfg, m).Get("attention") == Some(m.vals[k])
  {
    UnknownKeysSpec(cfg, m.keys);
    assert k in UnknownKeys(cfg, m.keys);
    var vs := ValuesOf(m, [k]);
    assert vs == [m.vals[k]];
    assert vs[..0] == [];
    assert AttentionText(vs) == m.vals[k];
  }

  /** With a single unknown component, the guessed name is its value. */
  lemma GuessNameSingleUnknown(cfg: Config, m: Entries<string>, k: string)
    requires cfg.Valid() && m.Wf() && Enriched(cfg, m).Ok?
    requires UnknownKeys(cfg, Enriched(cfg, m).value.1.keys) == [k]
    ensures k in Enriched(cfg, m).value.1.vals
    ensures GuessedName(cfg, m) == Ok(Some(Enriched(cfg, m).value.1.vals[k]))
  {
    var p := Enriched(cfg, m).value;
    AttentionSingleUnknown(cfg, p.1, k);
    assert Prepared(cfg, m) == Ok((p.0, WithAttention(cfg, p.1)));
  }
}
