/** Country-code resolution (Formatter.determineCountryCode): the stored
    code is uppercased and checked for length, "UK" is read as "GB", a
    template with use_country redirects to another country (optionally
    rewriting `country` and adding a component), and three Caribbean
    territories filed under NL get their own codes. */
module Country {
  import opened Wrappers
  import opened JavaString
  import opened Components
  import opened Templates
  import opened Configuration

  /** The last index of c in s. */
  function LastIndexOf(s: string, c: char): (r: Option<nat>)
    ensures r.Some? ==> r.value < |s| && s[r.value] == c && c !in s[r.value + 1..]
    ensures r.None? ==> c !in s
  {
    if s == [] then None
    else if s[|s| - 1] == c then Some(|s| - 1)
    else
      var r := LastIndexOf(s[..|s| - 1], c);
      assert s == s[..|s| - 1] + [s[|s| - 1]];
      if r.Some? then
        assert s[r.value + 1..] == s[..|s| - 1][r.value + 1..] + [s[|s| - 1]];
        r
      else r
  }

  /** The longest prefix of s made of \w characters. */
  function WordPrefix(s: string): (r: string)
    ensures r <= s
    ensures forall i :: 0 <= i < |r| ==> IsWordChar(r[i])
    ensures |r| == |s| || !IsWordChar(s[|r|])
  {
    if s != [] && IsWordChar(s[0]) then [s[0]] + WordPrefix(s[1..]) else []
  }

  /** Group 1 when VAR_PATTERN `.*\$(\w*).*` matches the whole string. The
      pattern matches exactly the strings with a '$' and no line terminator;
      the greedy leading `.*` makes the group the word characters after the
      last '$'. */
  function VarName(s: string): (r: Option<string>)
    ensures r.Some? <==> '$' in s && NoLineTerminator(s)
  {
    match LastIndexOf(s, '$')
    case None => None
    case Some(i) => if NoLineTerminator(s) then Some(WordPrefix(s[i + 1..])) else None
  }

  /** The new `country` a change_country value gives: a "$name" reference is
      replaced by that component's value (a NullPointerException when the
      component is absent). */
  function NewCountry(nc: string, m: Entries<string>): (r: Result<string>)
    ensures VarName(nc).None? ==> r == Ok(nc)
    ensures r.Err? <==> VarName(nc).Some? && VarName(nc).value !in m.vals
  {
    match VarName(nc)
    case None => Ok(nc)
    case Some(v) =>
      if v in m.vals then Ok(ReplaceLit(nc, "$" + v, m.vals[v])) else Err(ChangeCountryComponentMissing)
  }

  function WithChangedCountry(t: Template, m: Entries<string>): (r: Result<Entries<string>>)
    ensures m.Wf() && r.Ok? ==> r.value.Wf()
  {
    match t.changeCountry
    case None => Ok(m)
    case Some(nc) =>
      var n :- NewCountry(nc, m);
      Ok(m.Put("country", n))
  }

  /** The key add_component writes, when it has the form "key=value". */
  function AddedKey(t: Template): Option<string> {
    match t.addComponent
    case None => None
    case Some(ac) =>
      var parts := JavaSplit(ac, "=");
      if |parts| < 2 then None else Some(parts[0])
  }

  /** add_component "key=value" puts value under key; a value with fewer
      than two '='-fields is an ArrayIndexOutOfBoundsException. */
  function WithAddedComponent(t: Template, m: Entries<string>): (r: Result<Entries<string>>)
    ensures m.Wf() && r.Ok? ==> r.value.Wf()
    ensures t.addComponent.None? ==> r == Ok(m)
    ensures r.Err? <==> t.addComponent.Some? && AddedKey(t).None?
    ensures r.Ok? && AddedKey(t).Some? ==> AddedKey(t).value in r.value.vals
  {
    match t.addComponent
    case None => Ok(m)
    case Some(ac) =>
      var parts := JavaSplit(ac, "=");
      if |parts| < 2 then Err(AddComponentMalformed) else Ok(m.Put(parts[0], parts[1]))
  }

  /** The country a two-letter code redirects to through use_country. */
  predicate Redirects(cfg: Config, cc: string) {
    cc in cfg.templates && cfg.templates[cc].useCountry.Some?
  }

  /** The use_country redirect: the code to continue with and the
      components after change_country and add_component. */
  function Redirected(cfg: Config, cc: string, m: Entries<string>): (r: Result<(string, Entries<string>)>)
    ensures m.Wf() && r.Ok? ==> r.value.1.Wf()
    ensures !Redirects(cfg, cc) ==> r == Ok((cc, m))
    ensures Redirects(cfg, cc) && r.Ok? ==> r.value.0 == cfg.templates[cc].useCountry.value
  {
    if Redirects(cfg, cc) then
      var t := cfg.templates[cc];
      var m1 :- WithChangedCountry(t, m);
      var m2 :- WithAddedComponent(t, m1);
      Ok((t.useCountry.value, m2))
    else Ok((cc, m))
  }

  /** The NL overrides: state "Curaçao" (exactly), "sint maarten" or "aruba"
      (ignoring case) give CW, SX or AW and that territory's name as
      `country`. The three tests run one after the other, but at most one
      of them can hold. */
  function CaribbeanOverride(cc: string, m: Entries<string>): (r: (string, Entries<string>))
    ensures m.Wf() ==> r.1.Wf()
    ensures cc != "NL" || "state" !in m.vals ==> r == (cc, m)
    ensures cc == "NL" && m.Get("state") == Some("Curaçao") ==> r == ("CW", m.Put("country", "Curaçao"))
    ensures cc == "NL" && "state" in m.vals && EqualsIgnoreCase(m.vals["state"], "sint maarten")
      ==> r == ("SX", m.Put("country", "Sint Maarten"))
    ensures cc == "NL" && "state" in m.vals && EqualsIgnoreCase(m.vals["state"], "Aruba")
      ==> r == ("AW", m.Put("country", "Aruba"))
    ensures r.0 !in {"CW", "SX", "AW"} ==> r == (cc, m)
  {
    if cc == "NL" && "state" in m.vals then
      var st := m.vals["state"];
      var p1 := if st == "Curaçao" then ("CW", m.Put("country", "Curaçao")) else (cc, m);
      var p2 := if EqualsIgnoreCase(st, "sint maarten") then ("SX", p1.1.Put("country", "Sint Maarten")) else p1;
      if EqualsIgnoreCase(st, "Aruba") then ("AW", p2.1.Put("country", "Aruba")) else p2
    else (cc, m)
  }

  /** The stored code is present and uppercases to two characters. */
  predicate HasTwoLetterCode(m: Entries<string>) {
    "country_code" in m.vals && Utf16Length(Upper(m.vals["country_code"])) == 2
  }

  /** determineCountryCode: the code (None for null) and the components it
      leaves behind. */
  function Determined(cfg: Config, m: Entries<string>): (r: Result<(Option<string>, Entries<string>)>)
    ensures m.Wf() && r.Ok? ==> r.value.1.Wf()
    ensures r == Ok((None, m)) <==> !HasTwoLetterCode(m)
    ensures r.Ok? && r.value.0.None? ==> r.value.1 == m
    ensures HasTwoLetterCode(m) && Upper(m.vals["country_code"]) == "UK" ==> r == Ok((Some("GB"), m))
    ensures HasTwoLetterCode(m) && Upper(m.vals["country_code"]) !in {"UK", "NL"}
      && !Redirects(cfg, Upper(m.vals["country_code"]))
      ==> r == Ok((Some(Upper(m.vals["country_code"])), m))
    ensures r.Err? ==> HasTwoLetterCode(m) && Redirects(cfg, Upper(m.vals["country_code"]))
    ensures HasTwoLetterCode(m) && Upper(m.vals["country_code"]) != "UK"
      && Redirects(cfg, Upper(m.vals["country_code"])) && r.Ok?
      && cfg.templates[Upper(m.vals["country_code"])].useCountry != Some("NL")
      ==> r.value.0 == cfg.templates[Upper(m.vals["country_code"])].useCountry
  {
    if "country_code" !in m.vals then Ok((None, m))
    else
      var cc := Upper(m.vals["country_code"]);
      if Utf16Length(cc) != 2 then Ok((None, m))
      else if cc == "UK" then Ok((Some("GB"), m))
      else
        var p :- Redirected(cfg, cc, m);
        var q := CaribbeanOverride(p.0, p.1);
        Ok((Some(q.0), q.1))
  }

  /** The keys determineCountryCode may write: `country` and the key of the
      redirecting template's add_component. */
  predicate MayWrite(cfg: Config, m: Entries<string>, k: string) {
    k == "country"
    || (HasTwoLetterCode(m) && Redirects(cfg, Upper(m.vals["country_code"]))
        && AddedKey(cfg.templates[Upper(m.vals["country_code"])]) == Some(k))
  }

  /** Resolution removes nothing and writes no key but `country` and the
      add_component key. */
  lemma DeterminedFrame(cfg: Config, m: Entries<string>, k: string)
    requires Determined(cfg, m).Ok?
    ensures k in m.vals ==> k in Determined(cfg, m).value.1.vals
    ensures !MayWrite(cfg, m, k) ==> Determined(cfg, m).value.1.Get(k) == m.Get(k)
  {
    if HasTwoLetterCode(m) {
      var cc := Upper(m.vals["country_code"]);
      if cc != "UK" {
        RedirectedFrame(cfg, cc, m, k);
        var p := Redirected(cfg, cc, m).value;
        var q := CaribbeanOverride(p.0, p.1);
        assert Determined(cfg, m) == Ok((Some(q.0), q.1));
      }
    }
  }

  /** The two-letter test counts UTF-16 units: a code of one character
      outside the Basic Multilingual Plane passes it and is resolved. */
  lemma SupplementaryCodeResolved(cfg: Config, m: Entries<string>)
    requires "country_code" in m.vals && |m.vals["country_code"]| == 1
    requires IsSupplementary(m.vals["country_code"][0])
    ensures HasTwoLetterCode(m) && Determined(cfg, m) != Ok((None, m))
  {
    var s := m.vals["country_code"];
    assert Upper(s) == s;
    assert s[..0] == [];
  }

  /** The redirect removes nothing and writes no key but `country` and the
      add_component key. */
  lemma RedirectedFrame(cfg: Config, cc: string, m: Entries<string>, k: string)
    requires Redirected(cfg, cc, m).Ok?
    ensures k in m.vals ==> k in Redirected(cfg, cc, m).value.1.vals
    ensures k != "country" && !(Redirects(cfg, cc) && AddedKey(cfg.templates[cc]) == Some(k))
      ==> Redirected(cfg, cc, m).value.1.Get(k) == m.Get(k)
  {
    if Redirects(cfg, cc) {
      var t := cfg.templates[cc];
      var m1 := WithChangedCountry(t, m).value;
      if t.addComponent.Some? {
        var parts := JavaSplit(t.addComponent.value, "=");
        assert WithAddedComponent(t, m1) == Ok(m1.Put(parts[0], parts[1]));
      }
    }
  }

  /** Lines 342-358: follow use_country, applying change_country and
      add_component of the template redirected from. */
  method Redirect(cfg: Config, cc: string, c: ComponentMap<string>) returns (res: Result<string>)
    requires c.Valid()
    modifies c
    ensures c.Valid()
    ensures Yields(res, Redirected(cfg, cc, old(c.Model())), c.Model())
  {
    if cc in cfg.templates && cfg.templates[cc].useCountry.Some? {
      var t := cfg.templates[cc];
      if t.changeCountry.Some? {
        var newCountry := t.changeCountry.value;
        var v := VarName(newCountry);
        if v.Some? {
          if v.value !in c.vals {
            return Err(ChangeCountryComponentMissing);
          }
          newCountry := ReplaceLit(newCountry, "$" + v.value, c.vals[v.value]);
        }
        c.Put("country", newCountry);
      }
      assert WithChangedCountry(t, old(c.Model())) == Ok(c.Model());
      ghost var m1 := c.Model();
      if t.addComponent.Some? {
        var split := JavaSplit(t.addComponent.value, "=");
        if |split| < 2 {
          return Err(AddComponentMalformed);
        }
        c.Put(split[0], split[1]);
      }
      assert WithAddedComponent(t, m1) == Ok(c.Model());
      return Ok(t.useCountry.value);
    }
    return Ok(cc);
  }

  /** Lines 360-375. */
  method OverrideCaribbean(cc: string, c: ComponentMap<string>) returns (code: string)
    requires c.Valid()
    modifies c
    ensures c.Valid()
    ensures (code, c.Model()) == CaribbeanOverride(cc, old(c.Model()))
  {
    code := cc;
    if cc == "NL" {
      if "state" in c.vals {
        if c.vals["state"] == "Curaçao" {
          code := "CW";
          c.Put("country", "Curaçao");
        }
        if EqualsIgnoreCase(c.vals["state"], "sint maarten") {
          code := "SX";
          c.Put("country", "Sint Maarten");
        }
        if EqualsIgnoreCase(c.vals["state"], "Aruba") {
          code := "AW";
          c.Put("country", "Aruba");
        }
      }
    }
  }

  method DetermineCountryCode(cfg: Config, c: ComponentMap<string>) returns (res: Result<Option<string>>)
    requires c.Valid()
    modifies c
    ensures c.Valid()
    ensures Yields(res, Determined(cfg, old(c.Model())), c.Model())
  {
    if "country_code" !in c.vals {
      return Ok(None);
    }
    var cc := Upper(c.vals["country_code"]);
    if Utf16Length(cc) != 2 {
      return Ok(None);
    }
    if cc == "UK" {
      return Ok(Some("GB"));
    }
    var r := Redirect(cfg, cc, c);
    if r.Err? {
      return Err(r.error);
    }
    cc := OverrideCaribbean(r.value, c);
    return Ok(Some(cc));
  }
}
