/** The steps prepareRendering runs after sanitizing: the template's
    replace rules (applyReplacements), the state and county code lookups
    (addStateCode, addCountyCode), and the `attention` line built from the
    components the table does not know (findUnknownComponents,
    configureAttention). */
module Enrichment {
  import opened Wrappers
  import opened JavaString
  import opened Components
  import opened Templates
  import opened Configuration

  // ---------------------------------------------------------------------
  // applyReplacements (Formatter.java:300-312)

  /** The test `from.matches("^" + component + "=.*")`, with the component
      name read literally: from is "<component>=" followed by text without
      a line terminator. */
  predicate IsLiteralRule(comp: string, from: string) {
    |from| > |comp| && from[..|comp| + 1] == comp + "=" && NoLineTerminator(from[|comp| + 1..])
  }

  /** One rule applied to one component's value. */
  function RuleApplied(rx: RegexReplace, comp: string, v: string, rule: Replacement): string {
    if IsLiteralRule(comp, rule.from) then
      (if rule.from[|comp| + 1..] == v then rule.to else v)
    else rx(v, rule.from, rule.to)
  }

  /** The rules applied to one component's value, in list order. */
  function Rewritten(rx: RegexReplace, comp: string, v: string, rules: seq<Replacement>): string {
    if rules == [] then v
    else RuleApplied(rx, comp, Rewritten(rx, comp, v, rules[..|rules| - 1]), rules[|rules| - 1])
  }

  /** applyReplacements: every value rewritten by the rules; a null list
      fails as soon as there is a component to rewrite. */
  function Replaced(rx: RegexReplace, m: Entries<string>, rules: Option<seq<Replacement>>): (r: Result<Entries<string>>)
    ensures r.Err? <==> m.keys != [] && rules.None?
    ensures r.Ok? ==> r.value.keys == m.keys && r.value.vals.Keys == m.vals.Keys
    ensures m.Wf() && r.Ok? ==> r.value.Wf()
    ensures m.Wf() && rules.Some? ==>
      r.Ok? && forall k :: k in m.vals ==> r.value.vals[k] == Rewritten(rx, k, m.vals[k], rules.value)
  {
    if m.keys == [] then Ok(m)
    else if rules.None? then Err(RuleListMissing)
    else Ok(Entries(m.keys, map k | k in m.vals :: Rewritten(rx, k, m.vals[k], rules.value)))
  }

  /** Rules run in list order: a list split in two runs as its first part
      followed by its second. */
  lemma {:induction false} RewrittenAppend(rx: RegexReplace, comp: string, v: string, a: seq<Replacement>, b: seq<Replacement>)
    ensures Rewritten(rx, comp, v, a + b) == Rewritten(rx, comp, Rewritten(rx, comp, v, a), b)
    decreases |b|
  {
    if b == [] {
      assert a + b == a;
    } else {
      assert (a + b)[..|a + b| - 1] == a + b[..|b| - 1];
      RewrittenAppend(rx, comp, v, a, b[..|b| - 1]);
    }
  }

  /** A rule "<component>=<literal>" sets the value to `to` exactly when the
      value equals the literal, and otherwise leaves it alone. */
  lemma LiteralRule(rx: RegexReplace, comp: string, lit: string, to: string, v: string)
    requires NoLineTerminator(lit)
    ensures RuleApplied(rx, comp, v, Replacement(comp + "=" + lit, to)) == (if lit == v then to else v)
  {
    var from := comp + "=" + lit;
    assert from[..|comp| + 1] == comp + "=";
    assert from[|comp| + 1..] == lit;
  }

  /** A rule "<other>=<literal>" for another component name is applied to
      this component as a regular-expression substitution (names without
      '='). */
  lemma OtherComponentRule(rx: RegexReplace, comp: string, other: string, lit: string, to: string, v: string)
    requires comp != other && '=' !in comp && '=' !in other
    ensures RuleApplied(rx, comp, v, Replacement(other + "=" + lit, to)) == rx(v, other + "=" + lit, to)
  {
    var from := other + "=" + lit;
    var n := |comp|;
    if |from| > n {
      var head := from[..n + 1];
      assert (comp + "=")[n] == '=';
      if n < |other| {
        assert head[n] == other[n];
        assert other[n] in other;
      } else if n > |other| {
        assert head[|other|] == '=';
        assert (comp + "=")[|other|] == comp[|other|];
        assert comp[|other|] in comp;
      } else {
        assert head[..n] == other;
        assert (comp + "=")[..n] == comp;
      }
      assert head != comp + "=";
    }
  }

  /** The inner loop of lines 302-310: the rules, in order, on one
      component. */
  method RewriteComponent(rx: RegexReplace, c: ComponentMap<string>, k: string, rs: seq<Replacement>)
    requires c.Valid() && k in c.vals
    modifies c
    ensures c.Valid() && c.keys == old(c.keys)
    ensures c.vals == old(c.vals)[k := Rewritten(rx, k, old(c.vals)[k], rs)]
  {
    ghost var before := c.vals;
    var j := 0;
    while j < |rs|
      invariant 0 <= j <= |rs|
      invariant c.Valid() && c.keys == old(c.keys)
      invariant c.vals == before[k := Rewritten(rx, k, before[k], rs[..j])]
    {
      var rule := rs[j];
      var v := c.vals[k];
      assert rs[..j + 1][..j] == rs[..j];
      if IsLiteralRule(k, rule.from) {
        if rule.from[|k| + 1..] == v {
          v := rule.to;
        }
      } else {
        v := rx(v, rule.from, rule.to);
      }
      c.Put(k, v);
      j := j + 1;
    }
    assert rs[..|rs|] == rs;
  }

  method ApplyReplacements(rx: RegexReplace, c: ComponentMap<string>, rules: Option<seq<Replacement>>) returns (out: Outcome)
    requires c.Valid()
    modifies c
    ensures c.Valid()
    ensures Reaches(out, Replaced(rx, old(c.Model()), rules), c.Model())
  {
    ghost var m0 := c.Model();
    var ks := c.keys;
    var i := 0;
    while i < |ks|
      invariant 0 <= i <= |ks|
      invariant c.Valid() && c.keys == ks && c.vals.Keys == m0.vals.Keys
      invariant i > 0 ==> rules.Some?
      invariant forall j :: 0 <= j < i ==> c.vals[ks[j]] == Rewritten(rx, ks[j], m0.vals[ks[j]], rules.value)
      invariant forall j :: i <= j < |ks| ==> c.vals[ks[j]] == m0.vals[ks[j]]
    {
      if rules.None? {
        return Fail(RuleListMissing);
      }
      var k := ks[i];
      RewriteComponent(rx, c, k, rules.value);
      forall j' | 0 <= j' < |ks| && j' != i ensures ks[j'] != k {
      }
      i := i + 1;
    }
    if ks != [] {
      assert c.vals == map k | k in m0.vals :: Rewritten(rx, k, m0.vals[k], rules.value);
    }
    return Pass;
  }

  // ---------------------------------------------------------------------
  // addStateCode / addCountyCode (Formatter.java:266-298)

  /** The scan over a country's rows: every row whose names contain the
      name sets the code, so the last such row wins. */
  function CodeScan(m: Entries<string>, codeKey: string, name: string, rows: seq<CodeEntry>): (r: Entries<string>)
    ensures m.Wf() ==> r.Wf()
  {
    if rows == [] then m
    else
      var r := CodeScan(m, codeKey, name, rows[..|rows| - 1]);
      var row := rows[|rows| - 1];
      if name in row.names then r.Put(codeKey, row.code) else r
  }

  /** The scan writes only the code, and writes it exactly when some row
      lists the name; whatever it writes is the code of such a row. */
  lemma {:induction false} CodeScanSpec(m: Entries<string>, codeKey: string, name: string, rows: seq<CodeEntry>)
    requires codeKey !in m.vals
    ensures forall k :: k != codeKey ==> CodeScan(m, codeKey, name, rows).Get(k) == m.Get(k)
    ensures codeKey in CodeScan(m, codeKey, name, rows).vals <==> exists i :: 0 <= i < |rows| && name in rows[i].names
    ensures codeKey in CodeScan(m, codeKey, name, rows).vals ==>
      exists i :: 0 <= i < |rows| && name in rows[i].names && rows[i].code == CodeScan(m, codeKey, name, rows).vals[codeKey]
  {
    if rows != [] {
      var pre := rows[..|rows| - 1];
      CodeScanSpec(m, codeKey, name, pre);
      var r := CodeScan(m, codeKey, name, rows);
      if codeKey in r.vals {
        if name in rows[|rows| - 1].names {
          assert rows[|rows| - 1].code == r.vals[codeKey];
        } else {
          var i :| 0 <= i < |pre| && name in pre[i].names && pre[i].code == r.vals[codeKey];
          assert rows[i] == pre[i];
        }
      }
      if exists i :: 0 <= i < |rows| && name in rows[i].names {
        var i :| 0 <= i < |rows| && name in rows[i].names;
        if i < |pre| {
          assert pre[i] == rows[i];
        }
      } else {
        assert forall i :: 0 <= i < |pre| ==> pre[i] == rows[i];
      }
    }
  }

  /** A code lookup: when the code is absent and both the name and
      country_code are present, country_code is uppercased and the rows of
      that country are scanned for the uppercased name. */
  function WithCode(m: Entries<string>, codeKey: string, nameKey: string, table: CodeTable): (r: Entries<string>)
    ensures m.Wf() ==> r.Wf()
  {
    if codeKey in m.vals || nameKey !in m.vals || "country_code" !in m.vals then m
    else
      var cc := Upper(m.vals["country_code"]);
      var m1 := m.Put("country_code", cc);
      if cc in table then CodeScan(m1, codeKey, Upper(m1.vals[nameKey]), table[cc]) else m1
  }

  /** The lookup acts only when the code is absent and the name and
      country_code are present; it then uppercases country_code, sets the
      code exactly when a row of that country lists the uppercased name
      (to the code of such a row), and changes nothing else. */
  lemma WithCodeSpec(m: Entries<string>, codeKey: string, nameKey: string, table: CodeTable)
    requires codeKey != nameKey && codeKey != "country_code" && nameKey != "country_code"
    ensures codeKey in m.vals || nameKey !in m.vals || "country_code" !in m.vals ==> WithCode(m, codeKey, nameKey, table) == m
    ensures codeKey !in m.vals && nameKey in m.vals && "country_code" in m.vals ==>
      var r := WithCode(m, codeKey, nameKey, table);
      var cc := Upper(m.vals["country_code"]);
      var name := Upper(m.vals[nameKey]);
      && r.Get("country_code") == Some(cc)
      && (forall k :: k != codeKey && k != "country_code" ==> r.Get(k) == m.Get(k))
      && (codeKey in r.vals <==> cc in table && exists i :: 0 <= i < |table[cc]| && name in table[cc][i].names)
      && (codeKey in r.vals ==> exists i :: 0 <= i < |table[cc]| && name in table[cc][i].names && table[cc][i].code == r.vals[codeKey])
  {
    if codeKey !in m.vals && nameKey in m.vals && "country_code" in m.vals {
      var cc := Upper(m.vals["country_code"]);
      var m1 := m.Put("country_code", cc);
      if cc in table {
        CodeScanSpec(m1, codeKey, Upper(m1.vals[nameKey]), table[cc]);
      }
    }
  }

  /** The shared body of addStateCode and addCountyCode. */
  method AddCode(c: ComponentMap<string>, codeKey: string, nameKey: string, table: CodeTable)
    requires c.Valid() && codeKey != nameKey
    modifies c
    ensures c.Valid() && c.Model() == WithCode(old(c.Model()), codeKey, nameKey, table)
  {
    if codeKey in c.vals {
      return;
    }
    if nameKey !in c.vals {
      return;
    }
    if "country_code" !in c.vals {
      return;
    }
    c.Put("country_code", Upper(c.vals["country_code"]));
    var cc := c.vals["country_code"];
    if cc in table {
      var rows := table[cc];
      ghost var m1 := c.Model();
      var i := 0;
      while i < |rows|
        invariant 0 <= i <= |rows|
        invariant c.Valid()
        invariant c.Model() == CodeScan(m1, codeKey, Upper(m1.vals[nameKey]), rows[..i])
        invariant nameKey in c.vals && c.vals[nameKey] == m1.vals[nameKey]
      {
        if Upper(c.vals[nameKey]) in rows[i].names {
          c.Put(codeKey, rows[i].code);
        }
        assert rows[..i + 1][..i] == rows[..i];
        i := i + 1;
      }
      assert rows[..|rows|] == rows;
    }
  }

  function WithStateCode(cfg: Config, m: Entries<string>): (r: Entries<string>)
    ensures m.Wf() ==> r.Wf()
  {
    WithCode(m, "state_code", "state", cfg.stateCodes)
  }

  function WithCountyCode(cfg: Config, m: Entries<string>): (r: Entries<string>)
    ensures m.Wf() ==> r.Wf()
  {
    WithCode(m, "county_code", "county", cfg.countyCodes)
  }

  method AddStateCode(cfg: Config, c: ComponentMap<string>)
    requires c.Valid()
    modifies c
    ensures c.Valid() && c.Model() == WithStateCode(cfg, old(c.Model()))
  {
    AddCode(c, "state_code", "state", cfg.stateCodes);
  }

  method AddCountyCode(cfg: Config, c: ComponentMap<string>)
    requires c.Valid()
    modifies c
    ensures c.Valid() && c.Model() == WithCountyCode(cfg, old(c.Model()))
  {
    AddCode(c, "county_code", "county", cfg.countyCodes);
  }

  // ---------------------------------------------------------------------
  // findUnknownComponents and configureAttention (Formatter.java:134-144, 245-252)

  /** The keys, in order, that the component table does not know. */
  function UnknownKeys(cfg: Config, ks: seq<string>): (r: seq<string>)
    ensures |r| <= |ks|
    ensures forall k :: k in r ==> k in ks
  {
    if ks == [] then []
    else
      var r := UnknownKeys(cfg, ks[..|ks| - 1]);
      if cfg.IsUnknown(ks[|ks| - 1]) then r + [ks[|ks| - 1]] else r
  }

  /** Exactly the unknown keys are listed, each once when the keys are
      distinct. */
  lemma {:induction false} UnknownKeysSpec(cfg: Config, ks: seq<string>)
    ensures forall k :: k in UnknownKeys(cfg, ks) <==> k in ks && cfg.IsUnknown(k)
    ensures Distinct(ks) ==> Distinct(UnknownKeys(cfg, ks))
  {
    if ks != [] {
      var pre := ks[..|ks| - 1];
      UnknownKeysSpec(cfg, pre);
      assert forall k :: k in ks <==> k in pre || k == ks[|ks| - 1];
      if Distinct(ks) {
        assert Distinct(pre);
        assert ks[|ks| - 1] !in pre;
      }
    }
  }

  method FindUnknownComponents(cfg: Config, c: ComponentMap<string>) returns (unknown: seq<string>)
    ensures unknown == UnknownKeys(cfg, c.keys)
  {
    unknown := [];
    var ks := c.keys;
    var i := 0;
    while i < |ks|
      invariant 0 <= i <= |ks|
      invariant unknown == UnknownKeys(cfg, ks[..i])
    {
      if !cfg.IsCanonical(ks[i]) && !cfg.IsAlias(ks[i]) {
        unknown := unknown + [ks[i]];
      }
      assert ks[..i + 1][..i] == ks[..i];
      i := i + 1;
    }
    assert ks[..|ks|] == ks;
  }

  /** The values of the keys, in order. */
  function ValuesOf(m: Entries<string>, u: seq<string>): (r: seq<string>)
    requires forall k :: k in u ==> k in m.vals
    ensures |r| == |u| && forall i :: 0 <= i < |u| ==> r[i] == m.vals[u[i]]
  {
    seq(|u|, i requires 0 <= i < |u| => m.vals[u[i]])
  }

  /** The StringBuilder loop of lines 137-141: ", " goes before a value
      whenever something has been written already. */
  function AttentionText(vs: seq<string>): string {
    if vs == [] then ""
    else
      var acc := AttentionText(vs[..|vs| - 1]);
      (if acc == "" then acc else acc + ", ") + vs[|vs| - 1]
  }

  lemma {:induction false} AttentionNonEmpty(vs: seq<string>)
    requires vs != [] && vs[0] != ""
    ensures AttentionText(vs) != ""
    decreases |vs|
  {
    if |vs| > 1 {
      AttentionNonEmpty(vs[..|vs| - 1]);
    }
  }

  /** When every value is non-empty the text is the values joined with ", ".
      (An empty first value is written without the separator after it.) */
  lemma {:induction false} AttentionIsJoin(vs: seq<string>)
    requires forall i :: 0 <= i < |vs| ==> vs[i] != ""
    ensures AttentionText(vs) == Join(", ", vs)
    decreases |vs|
  {
    if |vs| > 1 {
      var pre := vs[..|vs| - 1];
      AttentionIsJoin(pre);
      AttentionNonEmpty(pre);
      JoinSnoc(", ", pre, vs[|vs| - 1]);
      assert pre + [vs[|vs| - 1]] == vs;
    }
  }

  /** configureAttention. */
  function WithAttention(cfg: Config, m: Entries<string>): (r: Entries<string>)
    requires m.Wf()
    ensures r.Wf()
    ensures UnknownKeys(cfg, m.keys) == [] ==> r == m
    ensures UnknownKeys(cfg, m.keys) != [] ==> r == m.Put("attention", AttentionText(ValuesOf(m, UnknownKeys(cfg, m.keys))))
  {
    UnknownKeysSpec(cfg, m.keys);
    var u := UnknownKeys(cfg, m.keys);
    if u == [] then m else m.Put("attention", AttentionText(ValuesOf(m, u)))
  }

  /** The StringBuilder loop of lines 137-141. */
  method BuildAttention(c: ComponentMap<string>, unknown: seq<string>) returns (sb: string)
    requires forall k :: k in unknown ==> k in c.vals
    ensures sb == AttentionText(ValuesOf(c.Model(), unknown))
  {
    ghost var vs := ValuesOf(c.Model(), unknown);
    sb := "";
    var i := 0;
    while i < |unknown|
      invariant 0 <= i <= |unknown|
      invariant sb == AttentionText(vs[..i])
    {
      assert vs[..i + 1][..i] == vs[..i];
      if |sb| != 0 {
        sb := sb + ", ";
      }
      sb := sb + c.vals[unknown[i]];
      i := i + 1;
    }
    assert vs[..|unknown|] == vs;
  }

  method ConfigureAttention(cfg: Config, c: ComponentMap<string>)
    requires c.Valid()
    modifies c
    ensures c.Valid() && c.Model() == WithAttention(cfg, old(c.Model()))
  {
    var unknown := FindUnknownComponents(cfg, c);
    UnknownKeysSpec(cfg, c.keys);
    if unknown != [] {
      var sb := BuildAttention(c, unknown);
      c.Put("attention", sb);
    }
  }
}
