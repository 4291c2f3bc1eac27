/** Template choice: the country's template or the default one
    (selectTemplateFromCountryCode), whether the address has a road or a
    postcode (minimalComponents), and which template text to render
    (chooseAddressTemplate). */
module Selector {
  import opened Wrappers
  import opened JavaString
  import opened Components
  import opened Templates
  import opened Configuration

  /** The template of the country code, or the default template for a null
      or unknown code. */
  function SelectTemplate(cfg: Config, cc: Option<string>): (t: Template)
    requires "default" in cfg.templates
    ensures cc.Some? && cc.value in cfg.templates ==> t == cfg.templates[cc.value]
    ensures cc.None? || cc.value !in cfg.templates ==> t == cfg.templates["default"]
  {
    if cc.Some? && cc.value in cfg.templates then cfg.templates[cc.value] else cfg.templates["default"]
  }

  /** The address has a road or a postcode. */
  predicate HasMinimalComponents(m: Entries<string>) {
    "road" in m.vals || "postcode" in m.vals
  }

  /** minimalComponents: counts the missing required components and gives up
      once the threshold of two is reached. */
  method MinimalComponents(c: ComponentMap<string>) returns (minimal: bool)
    ensures minimal <==> HasMinimalComponents(c.Model())
  {
    var required := ["road", "postcode"];
    var missing := 0;
    var threshold := 2;
    var i := 0;
    while i < |required|
      invariant 0 <= i <= |required|
      invariant missing == (if i >= 1 && "road" !in c.vals then 1 else 0) + (if i >= 2 && "postcode" !in c.vals then 1 else 0)
      invariant missing < threshold
    {
      if required[i] !in c.vals {
        missing := missing + 1;
      }
      if missing == threshold {
        return false;
      }
      i := i + 1;
    }
    return true;
  }

  /** The template text chosen before line-break normalization: without a
      road and a postcode, the template's fallback, else the default
      template's fallback; otherwise (or with neither fallback) the
      address template. */
  function ChosenText(cfg: Config, m: Entries<string>, t: Template): (r: Option<string>)
    requires "default" in cfg.templates
    ensures HasMinimalComponents(m) ==> r == t.addressTemplate
    ensures !HasMinimalComponents(m) && t.fallbackTemplate.Some? ==> r == t.fallbackTemplate
    ensures !HasMinimalComponents(m) && t.fallbackTemplate.None? && cfg.templates["default"].fallbackTemplate.Some?
      ==> r == cfg.templates["default"].fallbackTemplate
    ensures r != t.addressTemplate ==> !HasMinimalComponents(m)
  {
    if !HasMinimalComponents(m) && t.fallbackTemplate.Some? then t.fallbackTemplate
    else if !HasMinimalComponents(m) && cfg.templates["default"].fallbackTemplate.Some? then cfg.templates["default"].fallbackTemplate
    else t.addressTemplate
  }

  /** chooseAddressTemplate: the chosen text with every "\r\n" replaced by
      "\n"; a null text is a NullPointerException. */
  function ChosenTemplate(cfg: Config, m: Entries<string>, t: Template): (r: Result<string>)
    requires "default" in cfg.templates
    ensures r.Err? <==> ChosenText(cfg, m, t).None?
    ensures r.Ok? ==> r.value == Join("\n", SplitAll(ChosenText(cfg, m, t).value, "\r\n"))
  {
    match ChosenText(cfg, m, t)
    case None => Err(AddressTemplateMissing)
    case Some(text) =>
      ReplaceIsSplitJoin(text, "\r\n", "\n");
      Ok(ReplaceLit(text, "\r\n", "\n"))
  }

  method ChooseAddressTemplate(cfg: Config, c: ComponentMap<string>, t: Template) returns (r: Result<string>)
    requires "default" in cfg.templates
    ensures r == ChosenTemplate(cfg, c.Model(), t)
  {
    var template := t.addressTemplate;
    var minimal := MinimalComponents(c);
    if !minimal {
      if t.fallbackTemplate.Some? {
        template := t.fallbackTemplate;
      } else if cfg.templates["default"].fallbackTemplate.Some? {
        template := cfg.templates["default"].fallbackTemplate;
      }
    }
    if template.None? {
      return Err(AddressTemplateMissing);
    }
    return Ok(ReplaceLit(template.value, "\r\n", "\n"));
  }

  /** Every carriage return of s starts a "\r\n" pair. */
  predicate CrOnlyBeforeLf(s: string) {
    forall i :: 0 <= i < |s| && s[i] == '\r' ==> i + 1 < |s| && s[i + 1] == '\n'
  }

  /** Before the first "\r\n" there is no carriage return. */
  lemma NoCrBefore(s: string, n: nat)
    requires CrOnlyBeforeLf(s) && n <= |s|
    requires forall j :: 0 <= j < n ==> !OccursAt(s, "\r\n", j)
    ensures '\r' !in s[..n]
  {
    forall j | 0 <= j < n ensures s[j] != '\r' {
      if j + 1 < |s| {
        assert !OccursAt(s, "\r\n", j);
        assert s[j..j + 2] == [s[j], s[j + 1]];
        assert [s[j], s[j + 1]] != "\r\n";
      }
    }
  }

  /** A text whose line breaks are all "\r\n" comes out with no carriage
      return at all. */
  lemma {:induction false} CrLfNormalized(s: string)
    requires CrOnlyBeforeLf(s)
    ensures '\r' !in ReplaceLit(s, "\r\n", "\n")
    decreases |s|
  {
    match IndexOf(s, "\r\n")
    case None =>
      NoCrBefore(s, |s|);
      assert s[..|s|] == s;
    case Some(i) =>
      var rest := s[i + 2..];
      forall j | 0 <= j < |rest| && rest[j] == '\r' ensures j + 1 < |rest| && rest[j + 1] == '\n' {
        assert s[i + 2 + j] == '\r';
      }
      CrLfNormalized(rest);
      NoCrBefore(s, i);
      assert ReplaceLit(s, "\r\n", "\n") == s[..i] + "\n" + ReplaceLit(rest, "\r\n", "\n");
  }
}
