/** Formatter.clean: whitespace collapsing, separator stripping, dropping of
    repeated lines and of repeated comma segments within a line. */
module Cleaner {
  import opened Wrappers
  import opened JavaString

  // ---------------------------------------------------------------------
  // The three fixed regular-expression rewrites of line 169

  /** The end of the run of \s characters starting at index i. */
  function WhiteRun(s: string, i: nat): (r: nat)
    requires i <= |s|
    ensures i <= r <= |s|
    ensures forall j :: i <= j < r ==> IsSpace(s[j])
    ensures r < |s| ==> !IsSpace(s[r])
    decreases |s| - i
  {
    if i < |s| && IsSpace(s[i]) then WhiteRun(s, i + 1) else i
  }

  /** The end of the run of spaces starting at index i. */
  function BlankRun(s: string, i: nat): (r: nat)
    requires i <= |s|
    ensures i <= r <= |s|
    ensures forall j :: i <= j < r ==> s[j] == ' '
    ensures r < |s| ==> s[r] != ' '
    decreases |s| - i
  {
    if i < |s| && s[i] == ' ' then BlankRun(s, i + 1) else i
  }

  /** One past the last line feed before index r. */
  function AfterLastNewline(s: string, r: nat): (e: Option<nat>)
    requires r <= |s|
    ensures e.Some? ==> 0 < e.value <= r && s[e.value - 1] == '\n'
    ensures e.Some? ==> forall j :: e.value <= j < r ==> s[j] != '\n'
    ensures e.None? ==> forall j :: 0 <= j < r ==> s[j] != '\n'
  {
    if r == 0 then None else if s[r - 1] == '\n' then Some(r) else AfterLastNewline(s, r - 1)
  }

  /** The end of the match of \s*\n at the start of s: the greedy \s* backs
      off to the last line feed of the leading run of white space. */
  function NewlineMatch(s: string): (e: Option<nat>)
    ensures e.Some? ==> 0 < e.value <= |s| && s[e.value - 1] == '\n'
    ensures e.Some? ==> forall j :: 0 <= j < e.value ==> IsSpace(s[j])
  {
    AfterLastNewline(s, WhiteRun(s, 0))
  }

  /** replaceAll("\\s*\\n", "\n"). */
  function CollapseNewlines(s: string): string
    decreases |s|
  {
    if s == [] then []
    else match NewlineMatch(s)
      case Some(e) => "\n" + CollapseNewlines(s[e..])
      case None => [s[0]] + CollapseNewlines(s[1..])
  }

  /** The end of the match of "  +" at the start of s. */
  function SpacesMatch(s: string): (e: Option<nat>)
    ensures e.Some? ==> 2 <= e.value <= |s| && forall j :: 0 <= j < e.value ==> s[j] == ' '
  {
    if |s| >= 2 && s[0] == ' ' && s[1] == ' ' then Some(BlankRun(s, 0)) else None
  }

  /** replaceAll("  +", " "). */
  function CollapseSpaces(s: string): string
    decreases |s|
  {
    if s == [] then []
    else match SpacesMatch(s)
      case Some(e) => " " + CollapseSpaces(s[e..])
      case None => [s[0]] + CollapseSpaces(s[1..])
  }

  /** The end of the match of ",\s*," at the start of s. */
  function CommasMatch(s: string): (e: Option<nat>)
    ensures e.Some? ==> 2 <= e.value <= |s| && s[0] == ',' && s[e.value - 1] == ','
    ensures e.Some? ==> forall j :: 0 < j < e.value - 1 ==> IsSpace(s[j])
  {
    if |s| >= 1 && s[0] == ',' then
      var r := WhiteRun(s, 1);
      if r < |s| && s[r] == ',' then Some(r + 1) else None
    else None
  }

  /** replaceAll(",\\s*,", ","): one left-to-right pass, so ",,," becomes
      ",,". */
  function CollapseCommas(s: string): string
    decreases |s|
  {
    if s == [] then []
    else match CommasMatch(s)
      case Some(e) => "," + CollapseCommas(s[e..])
      case None => [s[0]] + CollapseCommas(s[1..])
  }

  function Collapsed(s: string): string {
    CollapseCommas(CollapseSpaces(CollapseNewlines(s)))
  }

  lemma CountHead(s: string, c: char)
    requires s != []
    ensures Count(s, c) == Count([s[0]], c) + Count(s[1..], c)
  {
    CountSplitAt(s, 1, c);
    assert s[..1] == [s[0]];
  }

  /** Each match of \s*\n contains a line feed and is replaced by one. */
  lemma {:induction false} CollapseNewlinesCount(s: string)
    ensures Count(CollapseNewlines(s), '\n') <= Count(s, '\n')
    decreases |s|
  {
    if s != [] {
      match NewlineMatch(s)
      case Some(e) =>
        CollapseNewlinesCount(s[e..]);
        CountAppend("\n", CollapseNewlines(s[e..]), '\n');
        CountSplitAt(s, e, '\n');
        CountSplitAt(s[..e], e - 1, '\n');
        assert s[..e][e - 1..] == "\n";
      case None =>
        CollapseNewlinesCount(s[1..]);
        CountAppend([s[0]], CollapseNewlines(s[1..]), '\n');
        CountHead(s, '\n');
    }
  }

  lemma {:induction false} CollapseSpacesCount(s: string)
    ensures Count(CollapseSpaces(s), '\n') <= Count(s, '\n')
    decreases |s|
  {
    if s != [] {
      match SpacesMatch(s)
      case Some(e) =>
        CollapseSpacesCount(s[e..]);
        CountAppend(" ", CollapseSpaces(s[e..]), '\n');
        CountSplitAt(s, e, '\n');
      case None =>
        CollapseSpacesCount(s[1..]);
        CountAppend([s[0]], CollapseSpaces(s[1..]), '\n');
        CountHead(s, '\n');
    }
  }

  lemma {:induction false} CollapseCommasCount(s: string)
    ensures Count(CollapseCommas(s), '\n') <= Count(s, '\n')
    decreases |s|
  {
    if s != [] {
      match CommasMatch(s)
      case Some(e) =>
        CollapseCommasCount(s[e..]);
        CountAppend(",", CollapseCommas(s[e..]), '\n');
        CountSplitAt(s, e, '\n');
      case None =>
        CollapseCommasCount(s[1..]);
        CountAppend([s[0]], CollapseCommas(s[1..]), '\n');
        CountHead(s, '\n');
    }
  }

  /** Collapsing never adds a line break. */
  lemma CollapsedCount(s: string)
    ensures Count(Collapsed(s), '\n') <= Count(s, '\n')
  {
    CollapseNewlinesCount(s);
    CollapseSpacesCount(CollapseNewlines(s));
    CollapseCommasCount(CollapseSpaces(CollapseNewlines(s)));
  }

  // ---------------------------------------------------------------------
  // Lines 175-178: trimming and stripping separators

  predicate IsSeparator(c: char) {
    c == ',' || c == '-'
  }

  /** The loop of line 176. */
  function StripLeading(line: string): string
    decreases |line|
  {
    if line != [] && IsSeparator(line[0]) then
      TrimIsTrimmed(line[1..]);
      StripLeading(Trim(line[1..]))
    else line
  }

  /** The loop of lines 177-178. */
  function StripTrailing(line: string): string
    decreases |line|
  {
    if line != [] && IsSeparator(line[|line| - 1]) then
      TrimIsTrimmed(line[..|line| - 1]);
      StripTrailing(Trim(line[..|line| - 1]))
    else line
  }

  function Stripped(raw: string): string {
    StripTrailing(StripLeading(Trim(raw)))
  }

  method StripLine(raw: string) returns (line: string)
    ensures line == Stripped(raw)
  {
    line := Trim(raw);
    while line != [] && IsSeparator(line[0])
      invariant StripLeading(line) == StripLeading(Trim(raw))
      decreases |line|
    {
      TrimIsTrimmed(line[1..]);
      line := Trim(line[1..]);
    }
    ghost var leading := line;
    while line != [] && IsSeparator(line[|line| - 1])
      invariant StripTrailing(line) == StripTrailing(leading)
      decreases |line|
    {
      TrimIsTrimmed(line[..|line| - 1]);
      line := Trim(line[..|line| - 1]);
    }
  }

  lemma {:induction false} StripLeadingShape(x: string)
    requires IsTrimmed(x)
    ensures IsTrimmed(StripLeading(x))
    ensures StripLeading(x) == [] || !IsSeparator(StripLeading(x)[0])
    ensures forall c :: c in StripLeading(x) ==> c in x
    decreases |x|
  {
    if x != [] && IsSeparator(x[0]) {
      TrimIsTrimmed(x[1..]);
      TrimChars(x[1..]);
      assert forall c :: c in x[1..] ==> c in x;
      StripLeadingShape(Trim(x[1..]));
    }
  }

  lemma {:induction false} StripTrailingShape(x: string)
    requires IsTrimmed(x) && (x == [] || !IsSeparator(x[0]))
    ensures IsTrimmed(StripTrailing(x))
    ensures x != [] ==> StripTrailing(x) != [] && StripTrailing(x)[0] == x[0]
    ensures StripTrailing(x) != [] ==> !IsSeparator(StripTrailing(x)[|StripTrailing(x)| - 1])
    ensures forall c :: c in StripTrailing(x) ==> c in x
    decreases |x|
  {
    if x != [] && IsSeparator(x[|x| - 1]) {
      var p := x[..|x| - 1];
      assert |x| >= 2 && p[0] == x[0];
      assert TrimLeft(p) == p;
      TrimRightKeepsHead(p);
      TrimIsTrimmed(p);
      TrimChars(p);
      assert forall c :: c in p ==> c in x;
      StripTrailingShape(Trim(p));
    }
  }

  /** A stripped line is trimmed and neither starts nor ends with ',' or
      '-', and it is made of characters of the raw line. */
  lemma StrippedShape(raw: string)
    ensures IsTrimmed(Stripped(raw))
    ensures Stripped(raw) != [] ==> !IsSeparator(Stripped(raw)[0])
    ensures Stripped(raw) != [] ==> !IsSeparator(Stripped(raw)[|Stripped(raw)| - 1])
    ensures forall c :: c in Stripped(raw) ==> c in raw
  {
    TrimIsTrimmed(raw);
    TrimChars(raw);
    StripLeadingShape(Trim(raw));
    StripTrailingShape(StripLeading(Trim(raw)));
  }

  // ---------------------------------------------------------------------
  // Lines 180-191: repeated comma segments

  /** The text a segment is compared by: trimmed and lower-cased. */
  function Key(s: string): string {
    Lower(Trim(s))
  }

  predicate IsNewYork(s: string) {
    EqualsIgnoreCase(Trim(s), "new york")
  }

  lemma NewYorkKey(s: string)
    ensures IsNewYork(s) <==> Key(s) == "new york"
  {
    assert Lower("new york") == "new york";
  }

  /** The segment loop: the text built so far and the keys seen. */
  function DedupFold(segs: seq<string>): (string, set<string>)
  {
    if segs == [] then ("", {})
    else
      var acc := DedupFold(segs[..|segs| - 1]);
      var s := segs[|segs| - 1];
      if Key(s) in acc.1 then acc
      else ((if |acc.0| > 0 then acc.0 + "," else acc.0) + s,
            if IsNewYork(s) then acc.1 else acc.1 + {Key(s)})
  }

  function Dedup(segs: seq<string>): string {
    DedupFold(segs).0
  }

  method DedupSegments(segs: seq<string>) returns (text: string)
    ensures text == Dedup(segs)
  {
    text := "";
    var seenWords: set<string> := {};
    for i := 0 to |segs|
      invariant (text, seenWords) == DedupFold(segs[..i])
    {
      var s := segs[i];
      assert segs[..i + 1][..i] == segs[..i];
      if Key(s) !in seenWords {
        if |text| > 0 {
          text := text + ",";
        }
        if !IsNewYork(s) {
          seenWords := seenWords + {Key(s)};
        }
        text := text + s;
      }
    }
    assert segs[..|segs|] == segs;
  }

  /** Segment i survives: it is "new york", or no earlier segment has its
      key. */
  predicate Kept(segs: seq<string>, i: nat)
    requires i < |segs|
  {
    IsNewYork(segs[i]) || forall j :: 0 <= j < i ==> Key(segs[j]) != Key(segs[i])
  }

  /** The surviving segments, in their order and spelling. */
  function KeptSegments(segs: seq<string>): (r: seq<string>)
    ensures forall x :: x in r ==> x in segs
    ensures |r| <= |segs|
  {
    if segs == [] then []
    else
      var p := KeptSegments(segs[..|segs| - 1]);
      if Kept(segs, |segs| - 1) then p + [segs[|segs| - 1]] else p
  }

  /** The keys seen are those of the segments before, "new york" aside. */
  lemma {:induction false} DedupSeen(segs: seq<string>)
    ensures forall k :: k in DedupFold(segs).1 <==>
      exists j :: 0 <= j < |segs| && !IsNewYork(segs[j]) && Key(segs[j]) == k
  {
    if segs != [] {
      var n := |segs| - 1;
      var p := segs[..n];
      DedupSeen(p);
      assert forall j :: 0 <= j < n ==> p[j] == segs[j];
    }
  }

  /** The loop skips exactly the segments that do not survive. */
  lemma SkipIffNotKept(segs: seq<string>)
    requires segs != []
    ensures Key(segs[|segs| - 1]) in DedupFold(segs[..|segs| - 1]).1 <==> !Kept(segs, |segs| - 1)
  {
    var n := |segs| - 1;
    var p := segs[..n];
    DedupSeen(p);
    NewYorkKey(segs[n]);
    forall j | 0 <= j < n ensures (IsNewYork(segs[j]) <==> IsNewYork(segs[n])) || Key(segs[j]) != Key(segs[n]) {
      NewYorkKey(segs[j]);
    }
    assert forall j :: 0 <= j < n ==> p[j] == segs[j];
  }

  /** The text starts with the first segment. */
  lemma {:induction false} DedupStartsWith(segs: seq<string>)
    requires segs != []
    ensures |Dedup(segs)| >= |segs[0]| && Dedup(segs)[..|segs[0]|] == segs[0]
  {
    var n := |segs| - 1;
    if n == 0 {
      assert segs[..0] == [];
      assert Key(segs[0]) !in DedupFold(segs[..0]).1;
    } else {
      DedupStartsWith(segs[..n]);
      var t := Dedup(segs[..n]);
      var u := Dedup(segs);
      assert segs[..n][0] == segs[0];
      assert |u| >= |t| && u[..|t|] == t;
      assert u[..|segs[0]|] == t[..|segs[0]|];
    }
  }

  lemma {:induction false} DedupAvoids(segs: seq<string>, c: char)
    requires c != ',' && forall k :: 0 <= k < |segs| ==> c !in segs[k]
    ensures c !in Dedup(segs)
  {
    if segs != [] {
      var n := |segs| - 1;
      DedupAvoids(segs[..n], c);
    }
  }

  /** With a non-empty first segment, the loop's text is the surviving
      segments joined by ",". */
  lemma {:induction false} DedupIsJoin(segs: seq<string>)
    requires segs != [] && segs[0] != ""
    ensures Dedup(segs) == Join(",", KeptSegments(segs))
  {
    var n := |segs| - 1;
    SkipIffNotKept(segs);
    if n == 0 {
      assert Kept(segs, 0);
    } else {
      var p := segs[..n];
      DedupIsJoin(p);
      DedupStartsWith(p);
      KeptFirst(p);
      if Kept(segs, n) {
        JoinSnoc(",", KeptSegments(p), segs[n]);
      }
    }
  }

  /** The first segment always survives. */
  lemma {:induction false} KeptFirst(segs: seq<string>)
    requires segs != []
    ensures KeptSegments(segs) != [] && KeptSegments(segs)[0] == segs[0]
  {
    var n := |segs| - 1;
    if n == 0 {
      assert Kept(segs, 0);
    } else {
      KeptFirst(segs[..n]);
    }
  }

  /** No two surviving segments share a key, unless it is "new york". */
  lemma {:induction false} KeptDistinct(segs: seq<string>)
    ensures forall i, j :: (0 <= i < j < |KeptSegments(segs)| && Key(KeptSegments(segs)[i]) == Key(KeptSegments(segs)[j])
      ==> IsNewYork(KeptSegments(segs)[i]))
  {
    if segs != [] {
      var n := |segs| - 1;
      var p := segs[..n];
      var kp := KeptSegments(p);
      KeptDistinct(p);
      if Kept(segs, n) {
        var k := KeptSegments(segs);
        assert k == kp + [segs[n]];
        NewYorkKey(segs[n]);
        forall i | 0 <= i < |kp| && Key(kp[i]) == Key(segs[n]) ensures IsNewYork(kp[i]) {
          assert kp[i] in p;
          var m :| 0 <= m < n && p[m] == kp[i];
          assert segs[m] == kp[i];
          NewYorkKey(kp[i]);
        }
      }
    }
  }

  /** The keys of some segments. */
  function KeysOf(xs: seq<string>): set<string> {
    if xs == [] then {} else KeysOf(xs[..|xs| - 1]) + {Key(xs[|xs| - 1])}
  }

  lemma {:induction false} KeysOfHas(xs: seq<string>, j: nat)
    requires j < |xs|
    ensures Key(xs[j]) in KeysOf(xs)
    decreases |xs|
  {
    var n := |xs| - 1;
    if j < n {
      KeysOfHas(xs[..n], j);
      assert xs[..n][j] == xs[j];
    }
  }

  /** No key is lost: the surviving segments have the keys of all
      segments. */
  lemma {:induction false} KeptComplete(segs: seq<string>)
    ensures KeysOf(KeptSegments(segs)) == KeysOf(segs)
  {
    if segs != [] {
      var n := |segs| - 1;
      var p := segs[..n];
      KeptComplete(p);
      var kp := KeptSegments(p);
      if Kept(segs, n) {
        assert (kp + [segs[n]])[..|kp|] == kp;
      } else {
        var j :| 0 <= j < n && Key(segs[j]) == Key(segs[n]);
        KeysOfHas(p, j);
        assert p[j] == segs[j];
      }
    }
  }

  // ---------------------------------------------------------------------
  // Lines 171-197: the line loop

  /** The text a stripped line contributes. */
  function DedupLine(line: string): string {
    Dedup(JavaSplit(line, ","))
  }

  lemma DedupLineIsJoin(line: string)
    requires line != [] && line[0] != ','
    ensures DedupLine(line) == Join(",", KeptSegments(JavaSplit(line, ",")))
  {
    JavaSplitHead(line, ',');
    DedupIsJoin(JavaSplit(line, ","));
  }

  /** The StringBuilder and seenLines of the loop. */
  datatype Cleaning = Cleaning(text: string, seenLines: seq<string>)

  function CleanFold(ls: seq<string>): Cleaning {
    if ls == [] then Cleaning("", [])
    else
      var st := CleanFold(ls[..|ls| - 1]);
      var line := Stripped(ls[|ls| - 1]);
      if line in st.seenLines || line == "" then st
      else
        var d := DedupLine(line);
        Cleaning(st.text + d + "\n", st.seenLines + [d])
  }

  /** clean. */
  function Cleaned(s: string): string {
    Trim(CleanFold(JavaSplit(Collapsed(s), "\n")).text)
  }

  method Clean(s: string) returns (r: string)
    ensures r == Cleaned(s)
  {
    var input := CollapseCommas(CollapseSpaces(CollapseNewlines(s)));
    var lines := JavaSplit(input, "\n");
    var seenLines: seq<string> := [];
    var sb := "";
    for i := 0 to |lines|
      invariant CleanFold(lines[..i]) == Cleaning(sb, seenLines)
    {
      var line := StripLine(lines[i]);
      assert lines[..i + 1][..i] == lines[..i];
      if line !in seenLines && line != "" {
        var sb2 := DedupSegments(JavaSplit(line, ","));
        seenLines := seenLines + [sb2];
        sb := sb + sb2 + "\n";
      }
    }
    assert lines[..|lines|] == lines;
    r := Trim(sb);
  }

  // ---------------------------------------------------------------------
  // Properties

  /** Every line break is followed by a character trim keeps: no line of
      the text is empty or blank. */
  predicate NoBlankLine(r: string) {
    forall i :: 0 <= i < |r| && r[i] == '\n' ==> i + 1 < |r| && !IsTrimmable(r[i + 1])
  }

  /** The StringBuilder: lines that each start with a kept character, each
      followed by a line break. */
  predicate LinesShape(t: string) {
    t == [] || (!IsTrimmable(t[0]) && t[|t| - 1] == '\n'
      && forall i :: 0 <= i < |t| - 1 && t[i] == '\n' ==> !IsTrimmable(t[i + 1]))
  }

  /** What a non-blank stripped line contributes is non-empty, starts with
      a character trim keeps and holds no line break. */
  lemma DedupLineShape(raw: string)
    requires '\n' !in raw && Stripped(raw) != ""
    ensures DedupLine(Stripped(raw)) != [] && !IsTrimmable(DedupLine(Stripped(raw))[0])
    ensures '\n' !in DedupLine(Stripped(raw))
  {
    var line := Stripped(raw);
    StrippedShape(raw);
    JavaSplitHead(line, ',');
    var segs := JavaSplit(line, ",");
    DedupStartsWith(segs);
    assert Dedup(segs)[0] == Dedup(segs)[..|segs[0]|][0];
    JavaSplitFieldsAvoid(line, ",", '\n');
    DedupAvoids(segs, '\n');
  }

  lemma {:induction false} CleanFoldShape(ls: seq<string>)
    requires forall i :: 0 <= i < |ls| ==> '\n' !in ls[i]
    ensures LinesShape(CleanFold(ls).text)
    ensures Count(CleanFold(ls).text, '\n') == |CleanFold(ls).seenLines| <= |ls|
  {
    if ls != [] {
      var n := |ls| - 1;
      CleanFoldShape(ls[..n]);
      var st := CleanFold(ls[..n]);
      var line := Stripped(ls[n]);
      if !(line in st.seenLines || line == "") {
        DedupLineShape(ls[n]);
        AppendLineShape(st.text, DedupLine(line));
      }
    }
  }

  /** Appending a non-empty line that trim would not touch at its start,
      and its line break, keeps the shape and adds one line break. */
  lemma AppendLineShape(t: string, d: string)
    requires LinesShape(t) && d != [] && !IsTrimmable(d[0]) && '\n' !in d
    ensures LinesShape(t + d + "\n") && Count(t + d + "\n", '\n') == Count(t, '\n') + 1
  {
    var t' := t + d + "\n";
    forall i | |t| <= i < |t| + |d| ensures t'[i] != '\n' {
      assert t'[i] == d[i - |t|];
    }
    assert t'[|t|] == d[0];
    CountAppend(t + d, "\n", '\n');
    CountAppend(t, d, '\n');
    CountAbsent(d, '\n');
  }

  /** Trimming the StringBuilder leaves a text without blank lines and drops
      its last line break. */
  lemma TrimLines(t: string)
    requires LinesShape(t)
    ensures IsTrimmed(Trim(t)) && NoBlankLine(Trim(t))
    ensures t != [] ==> Count(Trim(t), '\n') < Count(t, '\n')
  {
    TrimIsTrimmed(t);
    if t != [] {
      assert TrimLeft(t) == t;
      var p := t[..|t| - 1];
      assert TrimRight(t) == TrimRight(p);
      TrimRightShape(p);
      TrimRightKeepsHead(p);
      var k := |TrimRight(p)|;
      assert Trim(t) == t[..k];
      assert t[k - 1] != '\n';
      CountSplitAt(t, |t| - 1, '\n');
      CountSplitAt(p, k, '\n');
      assert p[..k] == t[..k];
      assert t[|t| - 1..] == "\n";
    }
  }

  /** The result is trimmed and has no empty or blank line. */
  lemma CleanedShape(s: string)
    ensures IsTrimmed(Cleaned(s)) && NoBlankLine(Cleaned(s))
  {
    var ls := JavaSplit(Collapsed(s), "\n");
    JavaSplitFieldsFree(Collapsed(s), '\n');
    CleanFoldShape(ls);
    TrimLines(CleanFold(ls).text);
  }

  /** The result never has more line breaks than the input. */
  lemma CleanedLineCount(s: string)
    ensures Count(Cleaned(s), '\n') <= Count(s, '\n')
  {
    var ls := JavaSplit(Collapsed(s), "\n");
    JavaSplitFieldsFree(Collapsed(s), '\n');
    JavaSplitLength(Collapsed(s), '\n');
    CollapsedCount(s);
    CleanFoldShape(ls);
    TrimLines(CleanFold(ls).text);
  }

  /** A line that strips to an already emitted line is dropped. */
  lemma CleanSkipsSeenLine(ls: seq<string>, x: string)
    requires Stripped(x) in CleanFold(ls).seenLines
    ensures CleanFold(ls + [x]) == CleanFold(ls)
  {
    assert (ls + [x])[..|ls|] == ls;
  }

  /** Emitted lines only grow. */
  lemma {:induction false} SeenGrows(ls: seq<string>, i: nat)
    requires i <= |ls|
    ensures forall x :: x in CleanFold(ls[..i]).seenLines ==> x in CleanFold(ls).seenLines
    decreases |ls| - i
  {
    if i < |ls| {
      var n := |ls| - 1;
      assert ls[..n][..i] == ls[..i];
      SeenGrows(ls[..n], i);
    } else {
      assert ls[..i] == ls;
    }
  }

  /** Every non-blank input line is emitted, in its de-duplicated form, or
      equals a line emitted before it. */
  lemma {:induction false} CleanKeepsLines(ls: seq<string>)
    ensures forall i :: 0 <= i < |ls| && Stripped(ls[i]) != "" ==>
      Stripped(ls[i]) in CleanFold(ls).seenLines || DedupLine(Stripped(ls[i])) in CleanFold(ls).seenLines
  {
    if ls != [] {
      var n := |ls| - 1;
      var p := ls[..n];
      CleanKeepsLines(p);
      SeenGrows(ls, n);
      forall i | 0 <= i < n ensures ls[i] == p[i] { }
    }
  }

  /** Every emitted line is the de-duplicated form of a non-blank input
      line. */
  lemma {:induction false} EmittedFromLines(ls: seq<string>)
    ensures forall j :: 0 <= j < |CleanFold(ls).seenLines| ==>
      exists i :: 0 <= i < |ls| && Stripped(ls[i]) != "" && CleanFold(ls).seenLines[j] == DedupLine(Stripped(ls[i]))
  {
    if ls != [] {
      var n := |ls| - 1;
      var p := ls[..n];
      EmittedFromLines(p);
      var e := CleanFold(ls).seenLines;
      var ep := CleanFold(p).seenLines;
      var line := Stripped(ls[n]);
      var added := !(line in ep || line == "");
      assert added ==> e == ep + [DedupLine(line)];
      assert !added ==> e == ep;
      forall j | 0 <= j < |e|
        ensures exists i :: 0 <= i < |ls| && Stripped(ls[i]) != "" && e[j] == DedupLine(Stripped(ls[i]))
      {
        if j < |ep| {
          assert e[j] == ep[j];
          var i :| 0 <= i < n && Stripped(p[i]) != "" && ep[j] == DedupLine(Stripped(p[i]));
          assert p[i] == ls[i];
        } else {
          assert 0 <= n < |ls| && Stripped(ls[n]) != "" && e[j] == DedupLine(Stripped(ls[n]));
        }
      }
      assert e == CleanFold(ls).seenLines;
    } else {
      assert CleanFold(ls).seenLines == [];
    }
  }
}
