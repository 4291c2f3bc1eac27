/** The java.lang.String operations the formatter relies on, restricted to
    what the formatter uses: String.length in UTF-16 code units, ASCII case
    mapping, String.trim, literal search, String.replace with a literal
    target, String.split with a literal delimiter, and String.join-style
    concatenation. */
module JavaString {
  import opened Wrappers

  /** Character.toUpperCase restricted to ASCII letters. */
  function UpperChar(c: char): char {
    if 'a' <= c <= 'z' then (c as int - 32) as char else c
  }

  /** Character.toLowerCase restricted to ASCII letters. */
  function LowerChar(c: char): char {
    if 'A' <= c <= 'Z' then (c as int + 32) as char else c
  }

  function Upper(s: string): string {
    seq(|s|, i requires 0 <= i < |s| => UpperChar(s[i]))
  }

  function Lower(s: string): string {
    seq(|s|, i requires 0 <= i < |s| => LowerChar(s[i]))
  }

  /** A character outside the Basic Multilingual Plane, which UTF-16 stores
      as a surrogate pair. */
  predicate IsSupplementary(c: char) {
    c as int > 0xFFFF
  }

  /** String.length(): the number of UTF-16 code units, two for each
      supplementary character and one for every other. */
  function Utf16Length(s: string): (n: nat)
    ensures |s| <= n <= 2 * |s|
    ensures n == |s| <==> forall i :: 0 <= i < |s| ==> !IsSupplementary(s[i])
  {
    if s == [] then 0
    else
      var init := s[..|s| - 1];
      var n := Utf16Length(init) + (if IsSupplementary(s[|s| - 1]) then 2 else 1);
      assert forall i :: 0 <= i < |init| ==> init[i] == s[i];
      n
  }

  /** A text of supplementary characters only takes two units per character. */
  lemma {:induction false} Utf16LengthSupplementary(s: string)
    requires forall i :: 0 <= i < |s| ==> IsSupplementary(s[i])
    ensures Utf16Length(s) == 2 * |s|
  {
    if s != [] {
      var init := s[..|s| - 1];
      assert forall i :: 0 <= i < |init| ==> init[i] == s[i];
      Utf16LengthSupplementary(init);
    }
  }

  /** String.equalsIgnoreCase on ASCII text. */
  predicate EqualsIgnoreCase(a: string, b: string) {
    Lower(a) == Lower(b)
  }

  /** The characters String.trim removes: every code point up to U+0020. */
  predicate IsTrimmable(c: char) {
    c <= ' '
  }

  function TrimLeft(s: string): string {
    if |s| > 0 && IsTrimmable(s[0]) then TrimLeft(s[1..]) else s
  }

  function TrimRight(s: string): string {
    if |s| > 0 && IsTrimmable(s[|s| - 1]) then TrimRight(s[..|s| - 1]) else s
  }

  /** String.trim. */
  function Trim(s: string): string {
    TrimRight(TrimLeft(s))
  }

  /** A trimmed string is empty or starts and ends with a character trim keeps. */
  predicate IsTrimmed(s: string) {
    s == [] || (!IsTrimmable(s[0]) && !IsTrimmable(s[|s| - 1]))
  }

  lemma {:induction false} TrimLeftShape(s: string)
    ensures |TrimLeft(s)| <= |s| && TrimLeft(s) == s[|s| - |TrimLeft(s)|..]
    ensures TrimLeft(s) == [] || !IsTrimmable(TrimLeft(s)[0])
    decreases |s|
  {
    if |s| > 0 && IsTrimmable(s[0]) {
      TrimLeftShape(s[1..]);
    }
  }

  lemma {:induction false} TrimRightShape(s: string)
    ensures |TrimRight(s)| <= |s| && TrimRight(s) == s[..|TrimRight(s)|]
    ensures TrimRight(s) == [] || !IsTrimmable(TrimRight(s)[|TrimRight(s)| - 1])
    decreases |s|
  {
    if |s| > 0 && IsTrimmable(s[|s| - 1]) {
      TrimRightShape(s[..|s| - 1]);
    }
  }

  /** TrimRight keeps a leading character that trim keeps. */
  lemma {:induction false} TrimRightKeepsHead(s: string)
    requires |s| > 0 && !IsTrimmable(s[0])
    ensures |TrimRight(s)| > 0 && TrimRight(s)[0] == s[0]
    decreases |s|
  {
    if IsTrimmable(s[|s| - 1]) {
      TrimRightKeepsHead(s[..|s| - 1]);
    }
  }

  /** String.trim returns a trimmed substring of its argument. */
  lemma TrimIsTrimmed(s: string)
    ensures IsTrimmed(Trim(s))
    ensures |Trim(s)| <= |s|
  {
    TrimLeftShape(s);
    var l := TrimLeft(s);
    TrimRightShape(l);
    if |l| > 0 {
      TrimRightKeepsHead(l);
    } else {
      assert TrimRight(l) == [];
    }
  }

  /** A string whose two ends trim keeps is its own trim. */
  lemma TrimOfTrimmed(s: string)
    requires IsTrimmed(s)
    ensures Trim(s) == s
  {
  }

  /** t occurs in s starting at index j. */
  predicate OccursAt(s: string, t: string, j: int) {
    0 <= j && j + |t| <= |s| && s[j..j + |t|] == t
  }

  /** The first index at or after from at which t occurs in s. */
  function IndexFrom(s: string, t: string, from: nat): (r: Option<nat>)
    ensures r.Some? ==> from <= r.value && OccursAt(s, t, r.value)
    ensures r.Some? ==> forall j :: from <= j < r.value ==> !OccursAt(s, t, j)
    ensures r.None? ==> forall j :: from <= j ==> !OccursAt(s, t, j)
    decreases |s| - from
  {
    if from + |t| > |s| then None
    else if OccursAt(s, t, from) then Some(from)
    else IndexFrom(s, t, from + 1)
  }

  /** The first index at which t occurs in s (String.indexOf). */
  function IndexOf(s: string, t: string): (r: Option<nat>)
    ensures r.Some? ==> OccursAt(s, t, r.value)
    ensures r.Some? ==> forall j :: 0 <= j < r.value ==> !OccursAt(s, t, j)
    ensures r.None? ==> forall j :: !OccursAt(s, t, j)
  {
    IndexFrom(s, t, 0)
  }

  /** The first occurrence is the one with none before it. */
  lemma IndexOfIs(s: string, t: string, i: nat)
    requires OccursAt(s, t, i) && forall j :: 0 <= j < i ==> !OccursAt(s, t, j)
    ensures IndexOf(s, t) == Some(i)
  {
    var r := IndexOf(s, t);
    assert r.Some?;
    assert !(r.value < i);
    assert !(i < r.value);
  }

  /** The first occurrence at or after from is the one with none before it
      from there. */
  lemma IndexFromIs(s: string, t: string, from: nat, i: nat)
    requires from <= i && OccursAt(s, t, i) && forall j :: from <= j < i ==> !OccursAt(s, t, j)
    ensures IndexFrom(s, t, from) == Some(i)
  {
    var r := IndexFrom(s, t, from);
    assert r.Some?;
    assert !(r.value < i);
    assert !(i < r.value);
  }

  /** String.contains. */
  predicate Contains(s: string, t: string) {
    IndexOf(s, t).Some?
  }

  /** Concatenation of the parts with sep between neighbours (String.join). */
  function Join(sep: string, parts: seq<string>): string
    decreases |parts|
  {
    if |parts| == 0 then ""
    else if |parts| == 1 then parts[0]
    else parts[0] + sep + Join(sep, parts[1..])
  }

  lemma JoinCons(sep: string, a: string, tail: seq<string>)
    requires |tail| >= 1
    ensures Join(sep, [a] + tail) == a + sep + Join(sep, tail)
  {
    assert ([a] + tail)[1..] == tail;
  }

  lemma {:induction false} JoinSnoc(sep: string, parts: seq<string>, x: string)
    requires |parts| >= 1
    ensures Join(sep, parts + [x]) == Join(sep, parts) + sep + x
    decreases |parts|
  {
    if |parts| == 1 {
      assert parts + [x] == [parts[0]] + [x];
      JoinCons(sep, parts[0], [x]);
    } else {
      assert (parts + [x])[1..] == parts[1..] + [x];
      JoinSnoc(sep, parts[1..], x);
      JoinCons(sep, parts[0], parts[1..] + [x]);
    }
  }

  /** s cut at every non-overlapping occurrence of d, scanning left to right;
      every field is kept, empty ones included. */
  function SplitAll(s: string, d: string): (r: seq<string>)
    requires |d| > 0
    ensures |r| >= 1
    decreases |s|
  {
    match IndexOf(s, d)
    case None => [s]
    case Some(i) => [s[..i]] + SplitAll(s[i + |d|..], d)
  }

  function DropTrailingEmpty(parts: seq<string>): (r: seq<string>)
    ensures |r| <= |parts| && r == parts[..|r|]
    ensures r == [] || r[|r| - 1] != ""
    ensures forall k :: |r| <= k < |parts| ==> parts[k] == ""
  {
    if |parts| > 0 && parts[|parts| - 1] == "" then DropTrailingEmpty(parts[..|parts| - 1]) else parts
  }

  /** String.split with a regular expression that matches the literal d:
      the whole string when d does not occur, otherwise every field with the
      trailing empty ones removed. */
  function JavaSplit(s: string, d: string): (r: seq<string>)
    requires |d| > 0
  {
    if !Contains(s, d) then [s] else DropTrailingEmpty(SplitAll(s, d))
  }

  /** String.replace with a literal, non-empty target: every non-overlapping
      occurrence, scanning left to right, is replaced. */
  function ReplaceLit(s: string, t: string, r: string): string
    requires |t| > 0
    decreases |s|
  {
    match IndexOf(s, t)
    case None => s
    case Some(i) => s[..i] + r + ReplaceLit(s[i + |t|..], t, r)
  }

  /** Splitting at d and joining with d gives back the string. */
  lemma {:induction false} JoinSplit(s: string, d: string)
    requires |d| > 0
    ensures Join(d, SplitAll(s, d)) == s
    decreases |s|
  {
    var k := IndexOf(s, d);
    if k.Some? {
      var i := k.value;
      var rest := s[i + |d|..];
      JoinSplit(rest, d);
      SplitStep(s, d, i);
      JoinCons(d, s[..i], SplitAll(rest, d));
      Decompose(s, d, i);
    }
  }

  lemma SplitStep(s: string, d: string, i: nat)
    requires |d| > 0 && IndexOf(s, d) == Some(i)
    ensures i + |d| <= |s|
    ensures SplitAll(s, d) == [s[..i]] + SplitAll(s[i + |d|..], d)
  {
  }

  lemma Decompose(s: string, d: string, i: nat)
    requires OccursAt(s, d, i)
    ensures s == s[..i] + d + s[i + |d|..]
  {
    assert s == s[..i] + s[i..i + |d|] + s[i + |d|..];
  }

  /** Literal replacement is splitting at the target and joining with the
      replacement. */
  lemma {:induction false} ReplaceIsSplitJoin(s: string, t: string, r: string)
    requires |t| > 0
    ensures ReplaceLit(s, t, r) == Join(r, SplitAll(s, t))
    decreases |s|
  {
    match IndexOf(s, t)
    case None =>
    case Some(i) =>
      var rest := s[i + |t|..];
      ReplaceIsSplitJoin(rest, t, r);
      SplitStep(s, t, i);
      JoinCons(r, s[..i], SplitAll(rest, t));
  }

  /** A string in which the target does not occur is left as it is. */
  lemma ReplaceAbsent(s: string, t: string, r: string)
    requires |t| > 0 && !Contains(s, t)
    ensures ReplaceLit(s, t, r) == s
  {
  }

  /** Fields of a split at a one-character delimiter never contain it. */
  lemma {:induction false} SplitFieldsFree(s: string, c: char)
    ensures forall k :: 0 <= k < |SplitAll(s, [c])| ==> c !in SplitAll(s, [c])[k]
    decreases |s|
  {
    match IndexOf(s, [c])
    case None =>
      forall j | 0 <= j < |s| ensures s[j] != c {
        assert s[j..j + 1] == [s[j]] && !OccursAt(s, [c], j);
      }
    case Some(i) =>
      SplitFieldsFree(s[i + 1..], c);
      forall j | 0 <= j < i ensures s[j] != c {
        assert s[j..j + 1] == [s[j]] && !OccursAt(s, [c], j);
      }
  }

  /** Number of occurrences of c in s. */
  function Count(s: string, c: char): nat {
    if s == [] then 0 else (if s[0] == c then 1 else 0) + Count(s[1..], c)
  }

  lemma {:induction false} CountAppend(a: string, b: string, c: char)
    ensures Count(a + b, c) == Count(a, c) + Count(b, c)
    decreases |a|
  {
    if a == [] {
      assert a + b == b;
    } else {
      assert (a + b)[1..] == a[1..] + b;
      CountAppend(a[1..], b, c);
    }
  }

  /** A one-character split has one field more than the delimiter has
      occurrences. */
  lemma {:induction false} SplitAllLength(s: string, c: char)
    ensures |SplitAll(s, [c])| == Count(s, c) + 1
    decreases |s|
  {
    match IndexOf(s, [c])
    case None =>
      forall j | 0 <= j < |s| ensures s[j] != c {
        assert s[j..j + 1] == [s[j]] && !OccursAt(s, [c], j);
      }
      CountAbsent(s, c);
    case Some(i) =>
      SplitAllLength(s[i + 1..], c);
      assert s == s[..i] + [c] + s[i + 1..];
      CountAppend(s[..i] + [c], s[i + 1..], c);
      CountAppend(s[..i], [c], c);
      forall j | 0 <= j < i ensures s[j] != c {
        assert s[j..j + 1] == [s[j]] && !OccursAt(s, [c], j);
      }
      CountAbsent(s[..i], c);
  }

  lemma {:induction false} CountAbsent(s: string, c: char)
    requires c !in s
    ensures Count(s, c) == 0
    decreases |s|
  {
    if s != [] {
      CountAbsent(s[1..], c);
    }
  }

  /** The characters java.util.regex's '.' does not match (line terminators). */
  predicate IsLineTerminator(c: char) {
    c == '\n' || c == '\r' || c == '\U{85}' || c == '\U{2028}' || c == '\U{2029}'
  }

  /** s is matched by the regular expression ".*". */
  predicate NoLineTerminator(s: string) {
    forall i :: 0 <= i < |s| ==> !IsLineTerminator(s[i])
  }

  /** The class \w. */
  predicate IsWordChar(c: char) {
    'a' <= c <= 'z' || 'A' <= c <= 'Z' || '0' <= c <= '9' || c == '_'
  }

  /** The class \d. */
  predicate IsDigit(c: char) {
    '0' <= c <= '9'
  }

  /** The class \s. */
  predicate IsSpace(c: char) {
    c == ' ' || c == '\t' || c == '\n' || c == '\U{0B}' || c == '\U{0C}' || c == '\r'
  }

  /** s is matched by \d+. */
  predicate AllDigits(s: string) {
    |s| > 0 && forall i :: 0 <= i < |s| ==> IsDigit(s[i])
  }

  /** Fields of a split never contain a character the string lacks. */
  lemma {:induction false} SplitFieldsAvoid(s: string, d: string, c: char)
    requires |d| > 0 && c !in s
    ensures forall k :: 0 <= k < |SplitAll(s, d)| ==> c !in SplitAll(s, d)[k]
    decreases |s|
  {
    match IndexOf(s, d)
    case None =>
    case Some(i) =>
      assert forall x :: x in s[i + |d|..] ==> x in s;
      assert forall x :: x in s[..i] ==> x in s;
      SplitFieldsAvoid(s[i + |d|..], d, c);
  }

  /** The same for String.split. */
  lemma JavaSplitFieldsAvoid(s: string, d: string, c: char)
    requires |d| > 0 && c !in s
    ensures forall k :: 0 <= k < |JavaSplit(s, d)| ==> c !in JavaSplit(s, d)[k]
  {
    SplitFieldsAvoid(s, d, c);
  }

  /** Fields of String.split at a one-character delimiter never contain it. */
  lemma JavaSplitFieldsFree(s: string, c: char)
    ensures forall k :: 0 <= k < |JavaSplit(s, [c])| ==> c !in JavaSplit(s, [c])[k]
  {
    SplitFieldsFree(s, c);
    if !Contains(s, [c]) {
      forall j | 0 <= j < |s| ensures s[j] != c {
        assert s[j..j + 1] == [s[j]] && !OccursAt(s, [c], j);
      }
    }
  }

  /** String.split at a one-character delimiter gives at most one field more
      than the delimiter has occurrences. */
  lemma JavaSplitLength(s: string, c: char)
    ensures |JavaSplit(s, [c])| <= Count(s, c) + 1
  {
    SplitAllLength(s, c);
  }

  /** A string that does not start with the one-character delimiter splits
      into a non-empty first field with the same first character. */
  lemma JavaSplitHead(s: string, c: char)
    requires s != [] && s[0] != c
    ensures |JavaSplit(s, [c])| >= 1 && JavaSplit(s, [c])[0] != [] && JavaSplit(s, [c])[0][0] == s[0]
  {
    if Contains(s, [c]) {
      var i := IndexOf(s, [c]).value;
      assert s[i..i + 1][0] == s[i];
      assert i > 0;
      assert SplitAll(s, [c])[0] == s[..i];
    }
  }

  lemma CountSplitAt(s: string, e: nat, c: char)
    requires e <= |s|
    ensures Count(s, c) == Count(s[..e], c) + Count(s[e..], c)
  {
    assert s == s[..e] + s[e..];
    CountAppend(s[..e], s[e..], c);
  }

  /** Trimming only removes characters. */
  lemma TrimChars(s: string)
    ensures forall x :: x in Trim(s) ==> x in s
  {
    TrimLeftShape(s);
    TrimRightShape(TrimLeft(s));
    var l := TrimLeft(s);
    assert forall x :: x in l ==> x in s;
    assert forall x :: x in TrimRight(l) ==> x in l;
  }
}
