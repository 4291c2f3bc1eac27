/** The per-country template record and its construction from the values
    the YAML loader produces (Template.java). A Template is a datatype: its
    fields are fixed once Parse returns, as the Java class with private
    constructor and getters only guarantees. */
module Templates {
  import opened Wrappers
  import opened JavaString

  /** A value produced by the YAML loader. The loader constructs booleans
      as strings, and its catch-all string resolver comes after the
      integer, floating-point and null resolvers, so a scalar is a string,
      a number (kept as the text of its Java toString) or null. */
  datatype Yaml =
    | YStr(str: string)
    | YNumber(text: string)
    | YNull
    | YList(items: seq<Yaml>)
    | YMap(entries: seq<YEntry>)

  datatype YEntry = YEntry(key: string, value: Yaml)

  /** One (from, to) rule of a `replace` or `postformat_replace` list. */
  datatype Replacement = Replacement(from: string, to: string)

  /** A country's configuration; None stands for Java's null. */
  datatype Template = Template(
    addressTemplate: Option<string>,
    useCountry: Option<string>,
    changeCountry: Option<string>,
    postformatReplace: Option<seq<Replacement>>,
    addComponent: Option<string>,
    fallbackTemplate: Option<string>,
    replace: Option<seq<Replacement>>)

  const NoFields := Template(None, None, None, None, None, None, None)

  /** String.valueOf of a loaded value: Java's toString of strings,
      numbers, null, lists ("[a, b]") and maps ("{k=v}"). */
  function ToJavaString(y: Yaml): string
    decreases y
  {
    match y
    case YStr(s) => s
    case YNumber(t) => t
    case YNull => "null"
    case YList(items) =>
      "[" + Join(", ", seq(|items|, i requires 0 <= i < |items| => ToJavaString(items[i]))) + "]"
    case YMap(es) =>
      "{" + Join(", ", seq(|es|, i requires 0 <= i < |es| => es[i].key + "=" + ToJavaString(es[i].value))) + "}"
  }

  /** Map.get on a loaded map: a later duplicate key overrides an earlier one. */
  function Lookup(es: seq<YEntry>, key: string): (r: Option<Yaml>)
    ensures r.None? <==> forall i :: 0 <= i < |es| ==> es[i].key != key
    ensures r.Some? ==> exists i :: 0 <= i < |es| && es[i].key == key && es[i].value == r.value
  {
    if es == [] then None
    else if es[|es| - 1].key == key then Some(es[|es| - 1].value)
    else Lookup(es[..|es| - 1], key)
  }

  /** Formatter.getString: null for an absent key, otherwise String.valueOf. */
  function GetString(es: seq<YEntry>, key: string): Option<string> {
    match Lookup(es, key)
    case None => None
    case Some(v) => Some(ToJavaString(v))
  }

  /** Replacement.create((List<String>) sl): the first two elements, which
      must be strings. */
  function ParsePair(sl: Yaml): (r: Result<Replacement>)
    ensures r.Ok? <==> sl.YList? && |sl.items| >= 2 && sl.items[0].YStr? && sl.items[1].YStr?
    ensures r.Ok? ==> r.value == Replacement(sl.items[0].str, sl.items[1].str)
  {
    match sl
    case YList(e) =>
      if |e| < 2 then Err(ReplaceEntryMalformed)
      else if e[0].YNull? then Err(ReplaceEntryNull)
      else if !e[0].YStr? then Err(ReplaceEntryMalformed)
      else if e[1].YNull? then Err(ReplaceEntryNull)
      else if !e[1].YStr? then Err(ReplaceEntryMalformed)
      else Ok(Replacement(e[0].str, e[1].str))
    case _ => Err(ReplaceEntryMalformed)
  }

  /** The loop of getReplace: every element of the list becomes a rule, in
      order; the first element that is not a pair of strings fails. */
  function ParseAll(l: seq<Yaml>): (r: Result<seq<Replacement>>)
    ensures r.Ok? <==> forall i :: 0 <= i < |l| ==> ParsePair(l[i]).Ok?
    ensures r.Ok? ==> |r.value| == |l|
    ensures r.Ok? ==> forall i :: 0 <= i < |l| ==> r.value[i] == Replacement(l[i].items[0].str, l[i].items[1].str)
  {
    if l == [] then Ok([])
    else
      var head :- ParsePair(l[0]);
      var tail :- ParseAll(l[1..]);
      Ok([head] + tail)
  }

  /** A number where a rule expects a string is a ClassCastException, as
      for any other value that is not a string. */
  lemma NumberInRuleFails(e: seq<Yaml>, t: string)
    requires |e| >= 2 && (e[0] == YNumber(t) || e[1] == YNumber(t))
    ensures ParsePair(YList(e)).Err?
  {
  }

  /** The list shape getReplace turns into one rule per element: a list
      whose first element is a two-element list with a string head. */
  predicate IsPairList(v: Yaml) {
    v.YList? && |v.items| > 0 && v.items[0].YList? && |v.items[0].items| == 2 && v.items[0].items[0].YStr?
  }

  /** The shape getReplace turns into a single rule: a list of two elements
      whose first element is a string. */
  predicate IsFlatPair(v: Yaml) {
    v.YList? && |v.items| == 2 && v.items[0].YStr?
  }

  /** Template.getReplace. */
  function GetReplace(es: seq<YEntry>, key: string): (r: Result<seq<Replacement>>)
    ensures Lookup(es, key).None? ==> r == Ok([])
    ensures Lookup(es, key).Some? && IsPairList(Lookup(es, key).value) ==>
      r == ParseAll(Lookup(es, key).value.items)
    ensures Lookup(es, key).Some? && IsFlatPair(Lookup(es, key).value) && Lookup(es, key).value.items[1].YStr? ==>
      r == Ok([Replacement(Lookup(es, key).value.items[0].str, Lookup(es, key).value.items[1].str)])
    ensures r.Err? || r.value != [] ==>
      Lookup(es, key).Some? && (IsPairList(Lookup(es, key).value) || IsFlatPair(Lookup(es, key).value))
  {
    match Lookup(es, key)
    case Some(YList(l1)) =>
      if |l1| == 0 then Ok([])
      else if l1[0].YList? then
        if |l1[0].items| == 2 && l1[0].items[0].YStr? then ParseAll(l1) else Ok([])
      else if l1[0].YStr? && |l1| == 2 then
        var rule :- ParsePair(YList(l1));
        Ok([rule])
      else Ok([])
    case _ => Ok([])
  }

  /** Template.parse: a string is the address template alone; a map fills
      every field, absent string fields staying null and the rule lists
      never null; any other value leaves every field null. */
  function Parse(y: Yaml): (r: Result<Template>)
    ensures y.YStr? ==> r == Ok(NoFields.(addressTemplate := Some(y.str)))
    ensures !y.YStr? && !y.YMap? ==> r == Ok(NoFields)
    ensures y.YMap? && r.Ok? ==> r.value.replace.Some? && r.value.postformatReplace.Some?
    ensures y.YMap? && r.Ok? ==>
      (r.value.addressTemplate.None? <==> forall i :: 0 <= i < |y.entries| ==> y.entries[i].key != "address_template")
  {
    match y
    case YStr(s) => Ok(NoFields.(addressTemplate := Some(s)))
    case YMap(es) =>
      var postformat :- GetReplace(es, "postformat_replace");
      var replace :- GetReplace(es, "replace");
      Ok(Template(
        GetString(es, "address_template"),
        GetString(es, "use_country"),
        GetString(es, "change_country"),
        Some(postformat),
        GetString(es, "add_component"),
        GetString(es, "fallback_template"),
        Some(replace)))
    case _ => Ok(NoFields)
  }

  /** A template of the map form written back as the loader would deliver it:
      one entry per non-null field, each rule list as a list of pairs. */
  function ToYaml(t: Template): Yaml {
    YMap(Concat(FieldEntries(t)))
  }

  function FieldEntries(t: Template): seq<seq<YEntry>> {
    [ StringEntry(FieldKeys[0], t.addressTemplate),
      StringEntry(FieldKeys[1], t.useCountry),
      StringEntry(FieldKeys[2], t.changeCountry),
      RulesEntry(FieldKeys[3], t.postformatReplace),
      StringEntry(FieldKeys[4], t.addComponent),
      StringEntry(FieldKeys[5], t.fallbackTemplate),
      RulesEntry(FieldKeys[6], t.replace) ]
  }

  function StringEntry(key: string, v: Option<string>): (r: seq<YEntry>)
    ensures |r| <= 1 && (|r| == 1 ==> r[0].key == key)
  {
    if v.Some? then [YEntry(key, YStr(v.value))] else []
  }

  function RulesEntry(key: string, v: Option<seq<Replacement>>): (r: seq<YEntry>)
    ensures |r| <= 1 && (|r| == 1 ==> r[0].key == key)
  {
    if v.Some? then [YEntry(key, RulesValue(v.value))] else []
  }

  /** A rule list as a list of [from, to] pairs. */
  function RulesValue(rules: seq<Replacement>): Yaml {
    YList(seq(|rules|, i requires 0 <= i < |rules| => YList([YStr(rules[i].from), YStr(rules[i].to)])))
  }

  lemma {:induction false} LookupAppend(a: seq<YEntry>, b: seq<YEntry>, key: string)
    ensures Lookup(a + b, key) == if Lookup(b, key).Some? then Lookup(b, key) else Lookup(a, key)
    decreases |b|
  {
    if b == [] {
      assert a + b == a;
    } else {
      assert (a + b)[..|a + b| - 1] == a + b[..|b| - 1];
      LookupAppend(a, b[..|b| - 1], key);
    }
  }

  ghost predicate KeyAbsent(es: seq<YEntry>, key: string) {
    forall i :: 0 <= i < |es| ==> es[i].key != key
  }

  /** The entry for key, when written once between entries for other keys,
      is what Lookup finds. */
  lemma LookupBetween(p: seq<YEntry>, e: seq<YEntry>, q: seq<YEntry>, key: string)
    requires KeyAbsent(p, key) && KeyAbsent(q, key)
    requires |e| <= 1 && (|e| == 1 ==> e[0].key == key)
    ensures Lookup(p + e + q, key) == if |e| == 1 then Some(e[0].value) else None
  {
    LookupAppend(p + e, q, key);
    LookupAppend(p, e, key);
  }

  /** Written-out rules parse back to the same rules. */
  lemma RulesRoundTrip(es: seq<YEntry>, key: string, rules: seq<Replacement>)
    requires Lookup(es, key) == Some(RulesValue(rules))
    ensures GetReplace(es, key) == Ok(rules)
  {
    var l := RulesValue(rules).items;
    if rules != [] {
      assert IsPairList(RulesValue(rules));
      var r := ParseAll(l);
      forall i | 0 <= i < |l| ensures ParsePair(l[i]).Ok? {
        assert l[i] == YList([YStr(rules[i].from), YStr(rules[i].to)]);
      }
      assert r.Ok?;
      assert r.value == rules;
    }
  }

  function Concat(segs: seq<seq<YEntry>>): (r: seq<YEntry>)
    ensures forall e :: e in r ==> exists j :: 0 <= j < |segs| && e in segs[j]
  {
    if segs == [] then [] else Concat(segs[..|segs| - 1]) + segs[|segs| - 1]
  }

  /** segs[j] holds at most one entry, and only for keys[j]; keys are distinct. */
  ghost predicate Segmented(segs: seq<seq<YEntry>>, keys: seq<string>) {
    && |segs| == |keys|
    && (forall a, b :: 0 <= a < b < |keys| ==> keys[a] != keys[b])
    && (forall j :: 0 <= j < |segs| ==> |segs[j]| <= 1)
    && (forall j :: 0 <= j < |segs| && |segs[j]| == 1 ==> segs[j][0].key == keys[j])
  }

  lemma SegmentedPrefix(segs: seq<seq<YEntry>>, keys: seq<string>, n: nat)
    requires Segmented(segs, keys) && n <= |segs|
    ensures Segmented(segs[..n], keys[..n])
  {
  }

  lemma LookupMissing(es: seq<YEntry>, key: string)
    requires forall e :: e in es ==> e.key != key
    ensures Lookup(es, key) == None
  {
    forall i | 0 <= i < |es| ensures es[i].key != key {
      assert es[i] in es;
    }
  }

  /** No entry of the last segment carries an earlier key. */
  lemma LastSegmentMisses(segs: seq<seq<YEntry>>, keys: seq<string>, i: nat)
    requires Segmented(segs, keys) && i < |segs| - 1
    ensures forall e :: e in segs[|segs| - 1] ==> e.key != keys[i]
  {
    var n := |segs| - 1;
    assert keys[i] != keys[n];
  }

  /** No entry of the segments before the last carries the last key. */
  lemma EarlierSegmentsMiss(segs: seq<seq<YEntry>>, keys: seq<string>)
    requires Segmented(segs, keys) && |segs| > 0
    ensures forall e :: e in Concat(segs[..|segs| - 1]) ==> e.key != keys[|segs| - 1]
  {
    var n := |segs| - 1;
    forall e | e in Concat(segs[..n]) ensures e.key != keys[n] {
      var j :| 0 <= j < n && e in segs[..n][j];
      assert keys[j] != keys[n];
    }
  }

  lemma {:induction false} LookupSegment(segs: seq<seq<YEntry>>, keys: seq<string>, i: nat)
    requires Segmented(segs, keys) && i < |segs|
    ensures Lookup(Concat(segs), keys[i]) == if |segs[i]| == 1 then Some(segs[i][0].value) else None
    decreases |segs|
  {
    var n := |segs| - 1;
    var init, last := Concat(segs[..n]), segs[n];
    assert Concat(segs) == init + last;
    LookupAppend(init, last, keys[i]);
    if i < n {
      SegmentedPrefix(segs, keys, n);
      LookupSegment(segs[..n], keys[..n], i);
      LastSegmentMisses(segs, keys, i);
      LookupMissing(last, keys[i]);
    } else if |last| == 1 {
      assert last == [last[0]];
    } else {
      LookupMissing(last, keys[i]);
      EarlierSegmentsMiss(segs, keys);
      LookupMissing(init, keys[i]);
    }
  }

  /** The keys of the seven fields, in the order ToYaml writes them. */
  const FieldKeys: seq<string> := ["address_template", "use_country", "change_country", "postformat_replace",
                                   "add_component", "fallback_template", "replace"]

  /** The field keys differ, already in length. */
  lemma FieldKeysDistinct()
    ensures forall a, b :: 0 <= a < b < |FieldKeys| ==> FieldKeys[a] != FieldKeys[b]
  {
    var lengths: seq<int> := [16, 11, 14, 18, 13, 17, 7];
    assert forall a :: 0 <= a < |FieldKeys| ==> |FieldKeys[a]| == lengths[a];
  }

  lemma FieldsSegmented(t: Template)
    ensures Segmented(FieldEntries(t), FieldKeys)
  {
    FieldKeysDistinct();
    var segs: seq<seq<YEntry>> := FieldEntries(t);
    assert forall j :: 0 <= j < |segs| ==> |segs[j]| <= 1;
    assert forall j :: 0 <= j < |segs| && |segs[j]| == 1 ==> segs[j][0].key == FieldKeys[j];
  }

  /** A string field written by ToYaml is read back by getString. */
  lemma StringFieldRead(t: Template, i: nat, v: Option<string>)
    requires i < |FieldKeys| && FieldEntries(t)[i] == StringEntry(FieldKeys[i], v)
    ensures GetString(Concat(FieldEntries(t)), FieldKeys[i]) == v
  {
    FieldsSegmented(t);
    LookupSegment(FieldEntries(t), FieldKeys, i);
  }

  /** A rule list written by ToYaml is read back by getReplace. */
  lemma RulesFieldRead(t: Template, i: nat, rules: seq<Replacement>)
    requires i < |FieldKeys| && FieldEntries(t)[i] == RulesEntry(FieldKeys[i], Some(rules))
    ensures GetReplace(Concat(FieldEntries(t)), FieldKeys[i]) == Ok(rules)
  {
    FieldsSegmented(t);
    LookupSegment(FieldEntries(t), FieldKeys, i);
    RulesRoundTrip(Concat(FieldEntries(t)), FieldKeys[i], rules);
  }

  /** Parse reads back every field of a map-form template. */
  lemma ParseToYaml(t: Template)
    requires t.replace.Some? && t.postformatReplace.Some?
    ensures Parse(ToYaml(t)) == Ok(t)
  {
    var es := Concat(FieldEntries(t));
    StringFieldRead(t, 0, t.addressTemplate);
    StringFieldRead(t, 1, t.useCountry);
    StringFieldRead(t, 2, t.changeCountry);
    RulesFieldRead(t, 3, t.postformatReplace.value);
    StringFieldRead(t, 4, t.addComponent);
    StringFieldRead(t, 5, t.fallbackTemplate);
    RulesFieldRead(t, 6, t.replace.value);
    assert ToYaml(t) == YMap(es);
  }
}
