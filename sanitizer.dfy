/** Formatter.sanitizeComponents and the two clean-ups it ends with:
    the resolved country code is stored, `district` is renamed, absent
    canonical components are filled from their aliases, sanityCleaning drops
    malformed postcodes and URL values, and fixCountry repairs a numeric
    `country` and the US state spellings. */
module Sanitizer {
  import opened Wrappers
  import opened JavaString
  import opened Components
  import opened Configuration
  import opened Country

  const SmallDistricts: seq<string> := ["BR", "CR", "ES", "NI", "PY", "RO", "TG", "TM", "XK"]

  /** SMALL_DISTRICTS.contains(cc); the list holds no null. */
  predicate IsSmallDistrict(cc: Option<string>) {
    cc.Some? && cc.value in SmallDistricts
  }

  /** Where `district` moves: `neighbourhood` for a country with small
      districts, `state_district` otherwise. */
  function DistrictTarget(cc: Option<string>): string {
    if IsSmallDistrict(cc) then "neighbourhood" else "state_district"
  }

  /** The district rename of lines 114-118. */
  function MovedDistrict(cc: Option<string>, m: Entries<string>): (r: Entries<string>)
    ensures m.Wf() ==> r.Wf()
    ensures "district" in m.vals && DistrictTarget(cc) !in m.vals
      ==> r.vals == (m.vals - {"district"})[DistrictTarget(cc) := m.vals["district"]]
    ensures !("district" in m.vals && DistrictTarget(cc) !in m.vals) ==> r == m
  {
    if IsSmallDistrict(cc) && "neighbourhood" !in m.vals && "district" in m.vals then
      m.Remove("district").Put("neighbourhood", m.vals["district"])
    else if !IsSmallDistrict(cc) && "state_district" !in m.vals && "district" in m.vals then
      m.Remove("district").Put("state_district", m.vals["district"])
    else m
  }

  /** The position, at or after from, of the first alias that is present. */
  function FirstPresentFrom(m: Entries<string>, aliases: seq<string>, from: nat): (r: Option<nat>)
    ensures r.Some? ==> from <= r.value < |aliases| && aliases[r.value] in m.vals
    ensures r.Some? ==> forall j :: from <= j < r.value ==> aliases[j] !in m.vals
    ensures r.None? ==> forall j :: from <= j < |aliases| ==> aliases[j] !in m.vals
    decreases |aliases| - from
  {
    if from >= |aliases| then None
    else if aliases[from] in m.vals then Some(from)
    else FirstPresentFrom(m, aliases, from + 1)
  }

  /** The value of the first alias, in declared order, that is present. */
  function AliasValue(m: Entries<string>, aliases: seq<string>): Option<string> {
    match FirstPresentFrom(m, aliases, 0)
    case None => None
    case Some(i) => Some(m.vals[aliases[i]])
  }

  /** An absent canonical name takes its first present alias's value. */
  function FillStep(m: Entries<string>, d: ComponentDef): (r: Entries<string>)
    ensures m.Wf() ==> r.Wf()
  {
    if d.name in m.vals then m
    else match AliasValue(m, d.aliases)
      case None => m
      case Some(v) => m.Put(d.name, v)
  }

  /** The alias fill-in loop of lines 119-128 over the definitions in order. */
  function Filled(m: Entries<string>, defs: seq<ComponentDef>): (r: Entries<string>)
    ensures m.Wf() ==> r.Wf()
  {
    if defs == [] then m else FillStep(Filled(m, defs[..|defs| - 1]), defs[|defs| - 1])
  }

  /** Filling never overwrites or removes a present key, and every key it
      adds is a canonical name. */
  lemma {:induction false} FilledKeeps(m: Entries<string>, defs: seq<ComponentDef>)
    ensures forall k :: k in m.vals ==> k in Filled(m, defs).vals && Filled(m, defs).vals[k] == m.vals[k]
    ensures forall k :: k in Filled(m, defs).vals && k !in m.vals ==> (exists i :: 0 <= i < |defs| && defs[i].name == k)
  {
    if defs != [] {
      var pre := defs[..|defs| - 1];
      FilledKeeps(m, pre);
      forall k | k in Filled(m, defs).vals && k !in m.vals
        ensures exists i :: 0 <= i < |defs| && defs[i].name == k
      {
        if k in Filled(m, pre).vals {
          var i :| 0 <= i < |pre| && pre[i].name == k;
          assert defs[i].name == k;
        } else {
          assert defs[|defs| - 1].name == k;
        }
      }
    }
  }

  /** A key that is no canonical name keeps its value (or absence). */
  lemma {:induction false} FilledOther(m: Entries<string>, defs: seq<ComponentDef>, k: string)
    requires forall i :: 0 <= i < |defs| ==> defs[i].name != k
    ensures Filled(m, defs).Get(k) == m.Get(k)
  {
    if defs != [] {
      FilledOther(m, defs[..|defs| - 1], k);
    }
  }

  lemma {:induction false} FilledAppend(m: Entries<string>, a: seq<ComponentDef>, b: seq<ComponentDef>)
    ensures Filled(m, a + b) == Filled(Filled(m, a), b)
    decreases |b|
  {
    if b == [] {
      assert a + b == a;
    } else {
      assert (a + b)[..|a + b| - 1] == a + b[..|b| - 1];
      FilledAppend(m, a, b[..|b| - 1]);
    }
  }

  /** The alias search only looks at the aliases. */
  lemma {:induction false} FirstPresentStable(m: Entries<string>, m': Entries<string>, aliases: seq<string>, from: nat)
    requires forall a :: a in aliases ==> m'.Get(a) == m.Get(a)
    ensures FirstPresentFrom(m', aliases, from) == FirstPresentFrom(m, aliases, from)
    decreases |aliases| - from
  {
    if from < |aliases| {
      assert m'.Get(aliases[from]) == m.Get(aliases[from]);
      FirstPresentStable(m, m', aliases, from + 1);
    }
  }

  lemma AliasValueStable(m: Entries<string>, m': Entries<string>, aliases: seq<string>)
    requires forall a :: a in aliases ==> m'.Get(a) == m.Get(a)
    ensures AliasValue(m', aliases) == AliasValue(m, aliases)
  {
    FirstPresentStable(m, m', aliases, 0);
    var r := FirstPresentFrom(m, aliases, 0);
    if r.Some? {
      assert m'.Get(aliases[r.value]) == m.Get(aliases[r.value]);
    }
  }

  /** With distinct canonical names none of which is an alias, every absent
      canonical name ends up with the value of its first present alias in
      the input, in declared alias order (or stays absent). */
  lemma FilledFirstAlias(m: Entries<string>, defs: seq<ComponentDef>, i: nat)
    requires i < |defs|
    requires forall p, q :: 0 <= p < q < |defs| ==> defs[p].name != defs[q].name
    requires forall p, q :: 0 <= p < |defs| && 0 <= q < |defs| ==> defs[q].name !in defs[p].aliases
    requires defs[i].name !in m.vals
    ensures Filled(m, defs).Get(defs[i].name) == AliasValue(m, defs[i].aliases)
  {
    var mi := Filled(m, defs[..i]);
    FilledSplit(m, defs, i);
    PrefixKeepsAliases(m, defs, i);
    PrefixKeepsName(m, defs, i);
    FillStepAbsent(mi, defs[i]);
    SuffixKeepsName(FillStep(mi, defs[i]), defs, i);
  }

  /** Filling runs the definitions before the i-th, the i-th, then the rest. */
  lemma FilledSplit(m: Entries<string>, defs: seq<ComponentDef>, i: nat)
    requires i < |defs|
    ensures Filled(m, defs) == Filled(FillStep(Filled(m, defs[..i]), defs[i]), defs[i + 1..])
  {
    var pre := defs[..i];
    var post := defs[i + 1..];
    assert defs == pre + [defs[i]] + post;
    FilledAppend(m, pre + [defs[i]], post);
    assert (pre + [defs[i]])[..|pre + [defs[i]]| - 1] == pre;
  }

  /** An absent canonical name takes its first present alias's value. */
  lemma FillStepAbsent(m: Entries<string>, d: ComponentDef)
    requires m.Get(d.name) == None
    ensures FillStep(m, d).Get(d.name) == AliasValue(m, d.aliases)
  {
  }

  /** The definitions before the i-th leave its aliases alone. */
  lemma PrefixKeepsAliases(m: Entries<string>, defs: seq<ComponentDef>, i: nat)
    requires i < |defs|
    requires forall p, q :: 0 <= p < |defs| && 0 <= q < |defs| ==> defs[q].name !in defs[p].aliases
    ensures AliasValue(Filled(m, defs[..i]), defs[i].aliases) == AliasValue(m, defs[i].aliases)
  {
    var pre := defs[..i];
    var mi := Filled(m, pre);
    forall a | a in defs[i].aliases ensures mi.Get(a) == m.Get(a) {
      forall p | 0 <= p < |pre| ensures pre[p].name != a {
        assert defs[p].name !in defs[i].aliases;
      }
      FilledOther(m, pre, a);
    }
    AliasValueStable(m, mi, defs[i].aliases);
  }

  /** The definitions before the i-th leave its name alone. */
  lemma PrefixKeepsName(m: Entries<string>, defs: seq<ComponentDef>, i: nat)
    requires i < |defs|
    requires forall p, q :: 0 <= p < q < |defs| ==> defs[p].name != defs[q].name
    ensures Filled(m, defs[..i]).Get(defs[i].name) == m.Get(defs[i].name)
  {
    var pre := defs[..i];
    forall p | 0 <= p < |pre| ensures pre[p].name != defs[i].name {
      assert defs[p].name != defs[i].name;
    }
    FilledOther(m, pre, defs[i].name);
  }

  /** The definitions after the i-th leave its name alone. */
  lemma SuffixKeepsName(m: Entries<string>, defs: seq<ComponentDef>, i: nat)
    requires i < |defs|
    requires forall p, q :: 0 <= p < q < |defs| ==> defs[p].name != defs[q].name
    ensures Filled(m, defs[i + 1..]).Get(defs[i].name) == m.Get(defs[i].name)
  {
    var post := defs[i + 1..];
    forall p | 0 <= p < |post| ensures post[p].name != defs[i].name {
      assert post[p] == defs[i + 1 + p];
    }
    FilledOther(m, post, defs[i].name);
  }

  /** The inner alias loop of lines 121-126: the first present alias's
      value. */
  method FindAlias(c: ComponentMap<string>, aliases: seq<string>) returns (v: Option<string>)
    ensures v == AliasValue(c.Model(), aliases)
  {
    var j := 0;
    while j < |aliases|
      invariant 0 <= j <= |aliases|
      invariant FirstPresentFrom(c.Model(), aliases, 0) == FirstPresentFrom(c.Model(), aliases, j)
    {
      if aliases[j] in c.vals {
        return Some(c.vals[aliases[j]]);
      }
      j := j + 1;
    }
    return None;
  }

  /** \d+;\d+ matches the whole value. The first ';' is the separator, as
      digits contain none. */
  predicate IsDigitPair(p: string) {
    match IndexOf(p, ";")
    case None => false
    case Some(i) => AllDigits(p[..i]) && AllDigits(p[i + 1..])
  }

  lemma DigitPairShape(p: string)
    ensures IsDigitPair(p) <==> exists i :: 0 < i < |p| && p[i] == ';' && AllDigits(p[..i]) && AllDigits(p[i + 1..])
  {
    if i :| 0 < i < |p| && p[i] == ';' && AllDigits(p[..i]) && AllDigits(p[i + 1..]) {
      assert p[i..i + 1] == ";";
      assert OccursAt(p, ";", i);
      var j := IndexOf(p, ";").value;
      assert p[j..j + 1] == ";";
    }
    if IsDigitPair(p) {
      var i := IndexOf(p, ";").value;
      assert p[i..i + 1] == ";";
      assert p[i] == ';';
    }
  }

  /** The value matches ^(\d{5}),\d{5}.* as a whole. */
  predicate IsZipPair(p: string) {
    |p| >= 11 && AllDigits(p[..5]) && p[5] == ',' && AllDigits(p[6..11]) && NoLineTerminator(p[11..])
  }

  /** split(",", 2)[0]: the text before the first comma. */
  function BeforeFirstComma(p: string): string {
    match IndexOf(p, ",")
    case None => p
    case Some(i) => p[..i]
  }

  /** A ZIP pair is cut to its first five digits. */
  lemma ZipPairCut(p: string)
    requires IsZipPair(p)
    ensures BeforeFirstComma(p) == p[..5]
  {
    assert p[5..6] == [p[5]];
    forall j | 0 <= j < 5 ensures !OccursAt(p, ",", j) {
      assert p[j..j + 1] == [p[j]];
      assert IsDigit(p[..5][j]);
    }
    IndexOfIs(p, ",", 5);
  }

  function PostcodeCleaned(m: Entries<string>): (r: Entries<string>)
    ensures m.Wf() ==> r.Wf()
  {
    if "postcode" in m.vals then
      var p := m.vals["postcode"];
      if Utf16Length(p) > 20 || IsDigitPair(p) then m.Remove("postcode")
      else if IsZipPair(p) then m.Put("postcode", BeforeFirstComma(p))
      else m
    else m
  }

  predicate HasUrl(v: string) {
    Contains(v, "http://") || Contains(v, "https://")
  }

  /** The URL filter of lines 239-242 over a snapshot of the keys. */
  function DroppedUrls(m: Entries<string>, ks: seq<string>): (r: Entries<string>)
    ensures m.Wf() ==> r.Wf()
  {
    if ks == [] then m
    else
      var r := DroppedUrls(m, ks[..|ks| - 1]);
      var k := ks[|ks| - 1];
      if k in r.vals && HasUrl(r.vals[k]) then r.Remove(k) else r
  }

  lemma {:induction false} DroppedUrlsSpec(m: Entries<string>, ks: seq<string>)
    ensures forall k :: k in DroppedUrls(m, ks).vals <==> k in m.vals && !(k in ks && HasUrl(m.vals[k]))
    ensures forall k :: k in DroppedUrls(m, ks).vals ==> DroppedUrls(m, ks).vals[k] == m.vals[k]
  {
    if ks != [] {
      DroppedUrlsSpec(m, ks[..|ks| - 1]);
      assert forall k :: k in ks <==> k in ks[..|ks| - 1] || k == ks[|ks| - 1];
    }
  }

  function SanityCleaned(m: Entries<string>): (r: Entries<string>)
    ensures m.Wf() ==> r.Wf()
  {
    var p := PostcodeCleaned(m);
    DroppedUrls(p, p.keys)
  }

  /** sanityCleaning keeps exactly the entries without a URL, with the
      postcode removed when longer than 20 characters or a digit pair and
      cut to five digits when a ZIP pair; every other value is unchanged. */
  lemma SanityCleanedSpec(m: Entries<string>)
    requires m.Wf()
    ensures forall k :: k in SanityCleaned(m).vals ==> !HasUrl(SanityCleaned(m).vals[k])
    ensures forall k :: k != "postcode" ==>
      (k in SanityCleaned(m).vals <==> k in m.vals && !HasUrl(m.vals[k]))
    ensures forall k :: k != "postcode" && k in SanityCleaned(m).vals ==> SanityCleaned(m).vals[k] == m.vals[k]
    ensures "postcode" in m.vals && (Utf16Length(m.vals["postcode"]) > 20 || IsDigitPair(m.vals["postcode"]))
      ==> "postcode" !in SanityCleaned(m).vals
    ensures "postcode" in SanityCleaned(m).vals ==> "postcode" in m.vals
    ensures "postcode" in SanityCleaned(m).vals ==>
      (var p := m.vals["postcode"];
       Utf16Length(p) <= 20 && !IsDigitPair(p) && SanityCleaned(m).vals["postcode"] == (if IsZipPair(p) then p[..5] else p))
  {
    var p := PostcodeCleaned(m);
    DroppedUrlsSpec(p, p.keys);
    if "postcode" in m.vals && IsZipPair(m.vals["postcode"]) {
      ZipPairCut(m.vals["postcode"]);
    }
  }

  /** The length limit counts UTF-16 units: a postcode of more than ten
      characters outside the Basic Multilingual Plane is removed. */
  lemma SupplementaryPostcodeDropped(m: Entries<string>)
    requires m.Wf() && "postcode" in m.vals && |m.vals["postcode"]| > 10
    requires forall i :: 0 <= i < |m.vals["postcode"]| ==> IsSupplementary(m.vals["postcode"][i])
    ensures "postcode" !in SanityCleaned(m).vals
  {
    Utf16LengthSupplementary(m.vals["postcode"]);
    SanityCleanedSpec(m);
  }

  /** The postcode test of lines 232-237. */
  method CleanPostcode(c: ComponentMap<string>)
    requires c.Valid()
    modifies c
    ensures c.Valid() && c.Model() == PostcodeCleaned(old(c.Model()))
  {
    if "postcode" in c.vals {
      var p := c.vals["postcode"];
      if Utf16Length(p) > 20 || IsDigitPair(p) {
        var _ := c.Remove("postcode");
      } else if IsZipPair(p) {
        c.Put("postcode", BeforeFirstComma(p));
      }
    }
  }

  /** A key of the snapshot is still present when the filter reaches it. */
  lemma NotYetDropped(m: Entries<string>, i: nat)
    requires m.Wf() && i < |m.keys|
    ensures m.keys[i] in DroppedUrls(m, m.keys[..i]).vals
  {
    DroppedUrlsSpec(m, m.keys[..i]);
    assert m.keys[i] !in m.keys[..i];
  }

  /** One more snapshot key: the filter tests it against the current map. */
  lemma DroppedUrlsNext(m: Entries<string>, ks: seq<string>, i: nat)
    requires i < |ks|
    ensures var r := DroppedUrls(m, ks[..i]);
            DroppedUrls(m, ks[..i + 1]) == if ks[i] in r.vals && HasUrl(r.vals[ks[i]]) then r.Remove(ks[i]) else r
  {
    assert ks[..i + 1][..i] == ks[..i];
  }

  /** The loop of lines 239-242. */
  method DropUrls(c: ComponentMap<string>)
    requires c.Valid()
    modifies c
    ensures c.Valid() && c.Model() == DroppedUrls(old(c.Model()), old(c.keys))
  {
    ghost var m0 := c.Model();
    var ks := c.keys;
    for i := 0 to |ks|
      invariant c.Valid()
      invariant c.Model() == DroppedUrls(m0, ks[..i])
    {
      var k := ks[i];
      DroppedUrlsNext(m0, ks, i);
      NotYetDropped(m0, i);
      if HasUrl(c.vals[k]) {
        var _ := c.Remove(k);
      }
    }
    assert ks[..|ks|] == ks;
  }

  /** The method of lines 231-243. */
  method SanityCleaning(c: ComponentMap<string>)
    requires c.Valid()
    modifies c
    ensures c.Valid() && c.Model() == SanityCleaned(old(c.Model()))
  {
    CleanPostcode(c);
    DropUrls(c);
  }

  /** The value of a non-empty string of ASCII digits. */
  function DigitsValue(s: string): nat
    requires forall i :: 0 <= i < |s| ==> IsDigit(s[i])
  {
    if s == [] then 0
    else
      assert IsDigit(s[|s| - 1]);
      DigitsValue(s[..|s| - 1]) * 10 + (s[|s| - 1] as int - '0' as int)
  }

  const IntMin := -0x8000_0000
  const IntMax := 0x7FFF_FFFF

  /** Integer.parseInt: an optional sign, at least one digit, and a value
      that fits in 32 bits (ASCII digits only). */
  function ParseInt(s: string): (r: Option<int>)
    ensures r.Some? ==> IntMin <= r.value <= IntMax
    ensures r.Some? ==> |s| > 0
  {
    if |s| == 0 then None
    else
      var digits := if s[0] == '-' || s[0] == '+' then s[1..] else s;
      if !AllDigits(digits) then None
      else
        var v: int := if s[0] == '-' then -(DigitsValue(digits) as int) else DigitsValue(digits);
        if IntMin <= v <= IntMax then Some(v) else None
  }

  /** The whole value matches "^united states", ignoring case. */
  predicate IsUnitedStates(s: string) {
    Lower(s) == "united states"
  }

  /** The whole value matches "^washington,? d\.?c\.?", ignoring case. */
  predicate IsWashingtonDC(s: string) {
    Lower(s) in {"washington dc", "washington dc.", "washington d.c", "washington d.c.",
                 "washington, dc", "washington, dc.", "washington, d.c", "washington, d.c."}
  }

  /** The keys fixCountry may write. */
  predicate FixCountryWrites(k: string) {
    k in {"country", "state", "state_code", "city"}
  }

  /** Both `country` and `state` are present: the condition of fixCountry. */
  predicate BothPresent(m: Entries<string>) {
    "country" in m.vals && "state" in m.vals
  }

  predicate IsUS(m: Entries<string>) {
    m.Get("country_code") == Some("US")
  }

  /** The swap of lines 316-321: a country that parses as an integer is
      replaced by the state, which is removed. */
  function Swapped(m: Entries<string>): (r: Entries<string>)
    requires BothPresent(m)
    ensures m.Wf() ==> r.Wf()
    ensures ParseInt(m.vals["country"]).Some? ==> r.Get("country") == Some(m.vals["state"]) && "state" !in r.vals
    ensures ParseInt(m.vals["country"]).None? ==> r == m
    ensures forall k :: k != "country" && k != "state" ==> r.Get(k) == m.Get(k)
  {
    if ParseInt(m.vals["country"]).Some? then m.Put("country", m.vals["state"]).Remove("state") else m
  }

  /** The US fix-ups of lines 323-332 on a present state. */
  function USFixed(m: Entries<string>): (r: Entries<string>)
    requires "state" in m.vals
    ensures m.Wf() ==> r.Wf()
    ensures IsUnitedStates(m.vals["state"]) ==> r == m.Put("state", "US")
    ensures IsWashingtonDC(m.vals["state"]) ==>
      r.Get("state_code") == Some("DC") && r.Get("state") == Some("District of Columbia") && r.Get("city") == Some("Washington")
    ensures !IsUnitedStates(m.vals["state"]) && !IsWashingtonDC(m.vals["state"]) ==> r == m
    ensures forall k :: !FixCountryWrites(k) ==> r.Get(k) == m.Get(k)
  {
    var m1 := if IsUnitedStates(m.vals["state"]) then m.Put("state", "US") else m;
    if IsWashingtonDC(m1.vals["state"]) then
      m1.Put("state_code", "DC").Put("state", "District of Columbia").Put("city", "Washington")
    else m1
  }

  /** fixCountry (lines 314-335). */
  function FixedCountry(m: Entries<string>): (r: Result<Entries<string>>)
    ensures m.Wf() && r.Ok? ==> r.value.Wf()
    ensures !BothPresent(m) ==> r == Ok(m)
    // the two NullPointerExceptions
    ensures r == Err(CountryCodeMissing) <==> BothPresent(m) && "country_code" !in m.vals
    ensures r == Err(StateMissingAfterSwap) <==> BothPresent(m) && IsUS(m) && ParseInt(m.vals["country"]).Some?
    // a numeric country is replaced by the state
    ensures r.Ok? && BothPresent(m) && ParseInt(m.vals["country"]).Some? ==> r == Ok(Swapped(m))
    // US spellings, when no swap happened
    ensures r.Ok? && BothPresent(m) && IsUS(m) ==> r == Ok(USFixed(m))
    // other countries are left alone
    ensures BothPresent(m) && "country_code" in m.vals && !IsUS(m) ==> r == Ok(Swapped(m))
    // nothing else changes
    ensures r.Ok? ==> forall k :: !FixCountryWrites(k) ==> r.value.Get(k) == m.Get(k)
  {
    if BothPresent(m) then
      var m1 := Swapped(m);
      if "country_code" !in m1.vals then Err(CountryCodeMissing)
      else if m1.vals["country_code"] != "US" then Ok(m1)
      else if "state" !in m1.vals then Err(StateMissingAfterSwap)
      else Ok(USFixed(m1))
    else Ok(m)
  }

  method FixCountry(c: ComponentMap<string>) returns (out: Outcome)
    requires c.Valid()
    modifies c
    ensures c.Valid()
    ensures Reaches(out, FixedCountry(old(c.Model())), c.Model())
  {
    if "country" in c.vals && "state" in c.vals {
      if ParseInt(c.vals["country"]).Some? {
        c.Put("country", c.vals["state"]);
        var _ := c.Remove("state");
      }
      if "country_code" !in c.vals {
        return Fail(CountryCodeMissing);
      }
      if c.vals["country_code"] == "US" {
        if "state" !in c.vals {
          return Fail(StateMissingAfterSwap);
        }
        if IsUnitedStates(c.vals["state"]) {
          c.Put("state", "US");
        }
        if IsWashingtonDC(c.vals["state"]) {
          c.Put("state_code", "DC");
          c.Put("state", "District of Columbia");
          c.Put("city", "Washington");
        }
      }
    }
    return Pass;
  }

  /** sanitizeComponents (lines 110-132). */
  function Sanitized(cfg: Config, m: Entries<string>): (r: Result<Entries<string>>)
    ensures m.Wf() && r.Ok? ==> r.value.Wf()
  {
    var p :- Determined(cfg, m);
    FixedCountry(SanityCleaned(Filled(Relabelled(p.0, p.1), cfg.components)))
  }

  /** Lines 112-118: the resolved code is stored and `district` renamed. */
  function Relabelled(cc: Option<string>, m: Entries<string>): (r: Entries<string>)
    ensures m.Wf() ==> r.Wf()
    ensures forall k :: k !in {"country_code", "district", "neighbourhood", "state_district"} ==> r.Get(k) == m.Get(k)
  {
    MovedDistrict(cc, if cc.Some? then m.Put("country_code", cc.value) else m)
  }

  /** Keys the sanitizer writes whatever the configuration. */
  predicate SanitizerWrites(k: string) {
    k in {"country", "country_code", "district", "neighbourhood", "state_district",
          "postcode", "state", "state_code", "city"}
  }

  /** A key that is no canonical name, is none of the keys the sanitizer
      writes, is not the redirect's add_component key and holds no URL
      passes through sanitizeComponents unchanged. */
  lemma SanitizedKeeps(cfg: Config, m: Entries<string>, k: string)
    requires m.Wf() && Sanitized(cfg, m).Ok?
    requires k in m.vals && !HasUrl(m.vals[k])
    requires !SanitizerWrites(k) && !MayWrite(cfg, m, k) && !cfg.IsCanonical(k)
    ensures Sanitized(cfg, m).value.Get(k) == Some(m.vals[k])
  {
    DeterminedFrame(cfg, m, k);
    var p := Determined(cfg, m).value;
    var m2 := Relabelled(p.0, p.1);
    forall i | 0 <= i < |cfg.components| ensures cfg.components[i].name != k {
    }
    FilledOther(m2, cfg.components, k);
    var m3 := Filled(m2, cfg.components);
    assert m3.Get(k) == Some(m.vals[k]);
    CleanedFixedKeeps(m3, k);
  }

  /** The URL filter and fixCountry keep a URL-free key they do not write. */
  lemma CleanedFixedKeeps(m: Entries<string>, k: string)
    requires m.Wf() && FixedCountry(SanityCleaned(m)).Ok?
    requires k in m.vals && !HasUrl(m.vals[k]) && !SanitizerWrites(k)
    ensures FixedCountry(SanityCleaned(m)).value.Get(k) == Some(m.vals[k])
  {
    SanityCleanedSpec(m);
    assert SanityCleaned(m).Get(k) == Some(m.vals[k]);
  }

  /** Lines 114-118. */
  method MoveDistrict(cc: Option<string>, c: ComponentMap<string>)
    requires c.Valid()
    modifies c
    ensures c.Valid() && c.Model() == MovedDistrict(cc, old(c.Model()))
  {
    var small := IsSmallDistrict(cc);
    if small && "neighbourhood" !in c.vals && "district" in c.vals {
      var d := c.Remove("district");
      c.Put("neighbourhood", d.value);
    } else if !small && "state_district" !in c.vals && "district" in c.vals {
      var d := c.Remove("district");
      c.Put("state_district", d.value);
    }
  }

  /** Lines 119-128. */
  method FillFromAliases(cfg: Config, c: ComponentMap<string>)
    requires c.Valid()
    modifies c
    ensures c.Valid() && c.Model() == Filled(old(c.Model()), cfg.components)
  {
    ghost var m0 := c.Model();
    var i := 0;
    while i < |cfg.components|
      invariant 0 <= i <= |cfg.components|
      invariant c.Valid()
      invariant c.Model() == Filled(m0, cfg.components[..i])
    {
      var d := cfg.components[i];
      if d.name !in c.vals {
        var v := FindAlias(c, d.aliases);
        if v.Some? {
          c.Put(d.name, v.value);
        }
      }
      assert cfg.components[..i + 1][..i] == cfg.components[..i];
      i := i + 1;
    }
    assert cfg.components[..|cfg.components|] == cfg.components;
  }

  method SanitizeComponents(cfg: Config, c: ComponentMap<string>) returns (out: Outcome)
    requires c.Valid()
    modifies c
    ensures c.Valid()
    ensures Reaches(out, Sanitized(cfg, old(c.Model())), c.Model())
  {
    var r := DetermineCountryCode(cfg, c);
    if r.Err? {
      return Fail(r.error);
    }
    var cc := r.value;
    if cc.Some? {
      c.Put("country_code", cc.value);
    }
    MoveDistrict(cc, c);
    FillFromAliases(cfg, c);
    SanityCleaning(c);
    out := FixCountry(c);
  }
}
