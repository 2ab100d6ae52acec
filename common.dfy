/** Small shared vocabulary: an optional value, Python's `s[:n]` slice, and the
    three standard article approaches that several services agree on. */
module Common {

  datatype Option<T> = None | Some(value: T) {
    /** Python's `x or default` for an optional value. */
    function GetOr(default: T): T {
      if Some? then value else default
    }
  }

  function Min(a: int, b: int): int { if a <= b then a else b }
  function Max(a: int, b: int): int { if a >= b then a else b }

  /** Python's `s[:n]`: a non-negative `n` keeps at most `n` leading elements,
      a negative `n` drops `-n` elements from the end. */
  function SliceTo<T>(s: seq<T>, n: int): (r: seq<T>)
    ensures |r| == if n >= 0 then Min(n, |s|) else Max(0, |s| + n)
    ensures r == s[..|r|]
  {
    if n >= 0 then (if n <= |s| then s[..n] else s)
    else if |s| + n >= 0 then s[..|s| + n] else []
  }

  const Practical: string := "practical"
  const Theoretical: string := "theoretical"
  const Motivational: string := "motivational"

  /** The approaches of the three-article set, in the order the services use. */
  const StandardApproaches: seq<string> := [Practical, Theoretical, Motivational]

  lemma StandardApproachesDistinct()
    ensures Practical != Theoretical && Practical != Motivational && Theoretical != Motivational
  {
    assert Practical[0] != Theoretical[0];
    assert Practical[0] != Motivational[0];
    assert Theoretical[0] != Motivational[0];
  }
}

/** The Python string operations the services rely on, stated over `seq<char>`. */
module Strings {
  import opened Common

  /** Python's `str.isspace()` for one character. */
  predicate IsSpace(c: char) {
    c == ' ' || ('\t' <= c <= '\r') || ('\U{1C}' <= c <= '\U{1F}')
    || c == '\U{85}' || c == '\U{A0}' || c == '\U{1680}'
    || ('\U{2000}' <= c <= '\U{200A}')
    || c == '\U{2028}' || c == '\U{2029}' || c == '\U{202F}' || c == '\U{205F}' || c == '\U{3000}'
  }

  /** A character of the Cyrillic block, U+0400 to U+04FF. */
  predicate IsCyrillic(c: char) { '\U{400}' <= c <= '\U{4FF}' }

  /** Lower-casing of one character, for ASCII and the basic Cyrillic capitals. */
  function LowerChar(c: char): (r: char)
    ensures 'A' <= c <= 'Z' ==> 'a' <= r <= 'z'
    ensures !('A' <= c <= 'Z') && !('\U{400}' <= c <= '\U{42F}') ==> r == c
  {
    if 'A' <= c <= 'Z' then (c as int + 32) as char
    else if '\U{410}' <= c <= '\U{42F}' then (c as int + 32) as char
    else if '\U{400}' <= c <= '\U{40F}' then (c as int + 80) as char
    else c
  }

  /** Python's `s.lower()`. */
  function Lower(s: string): (r: string)
    ensures |r| == |s|
    ensures forall i :: 0 <= i < |s| ==> r[i] == LowerChar(s[i])
  {
    seq(|s|, i requires 0 <= i < |s| => LowerChar(s[i]))
  }

  lemma LowerIdempotent(s: string)
    ensures Lower(Lower(s)) == Lower(s)
  {
    forall i | 0 <= i < |s| ensures LowerChar(LowerChar(s[i])) == LowerChar(s[i]) {
      var c := s[i];
      if '\U{410}' <= c <= '\U{42F}' {
        assert '\U{430}' <= LowerChar(c) <= '\U{44F}';
      } else if '\U{400}' <= c <= '\U{40F}' {
        assert '\U{450}' <= LowerChar(c) <= '\U{45F}';
      }
    }
  }

  /** A text of lower-case Latin and Cyrillic letters. */
  predicate LowerLetters(s: string) {
    forall k :: 0 <= k < |s| ==> 'a' <= s[k] <= 'z' || '\U{430}' <= s[k] <= '\U{44F}'
  }

  /** Such a text has no whitespace and is its own lower case. */
  lemma LowerLettersUnchanged(s: string)
    requires LowerLetters(s)
    ensures Lower(s) == s
    ensures forall k :: 0 <= k < |s| ==> !IsSpace(s[k]) && !('A' <= s[k] <= 'Z') && !('\U{400}' <= s[k] <= '\U{42F}')
  {
  }

  /** `x` occurs in `s` starting at index `i`. */
  predicate OccursAt(s: string, x: string, i: int) {
    0 <= i && i + |x| <= |s| && s[i..i + |x|] == x
  }

  /** Python's `s.startswith(x)`. */
  predicate StartsWith(s: string, x: string) {
    OccursAt(s, x, 0)
  }

  /** Python's `x in s` for strings. */
  predicate Contains(s: string, x: string) {
    exists i :: 0 <= i <= |s| && OccursAt(s, x, i)
  }

  /** The first index at or after `from` where `x` occurs in `s`. */
  function FindFrom(s: string, x: string, from: nat): (r: Option<nat>)
    decreases |s| - from
    ensures r.Some? ==> from <= r.value && OccursAt(s, x, r.value)
    ensures r.Some? ==> forall j :: from <= j < r.value ==> !OccursAt(s, x, j)
    ensures r.None? ==> forall j :: from <= j ==> !OccursAt(s, x, j)
  {
    if from + |x| > |s| then None
    else if s[from..from + |x|] == x then Some(from)
    else FindFrom(s, x, from + 1)
  }

  /** Python's `s.find(x)`, with `None` for -1. */
  function Find(s: string, x: string): (r: Option<nat>)
    ensures r.Some? <==> Contains(s, x)
    ensures r.Some? ==> OccursAt(s, x, r.value) && forall j :: 0 <= j < r.value ==> !OccursAt(s, x, j)
  {
    FindFrom(s, x, 0)
  }

  /** Python's `s.split(sep)` for a non-empty separator. */
  function Split(s: string, sep: string): (r: seq<string>)
    requires |sep| > 0
    decreases |s|
    ensures |r| >= 1
  {
    match Find(s, sep)
    case None => [s]
    case Some(i) => [s[..i]] + Split(s[i + |sep|..], sep)
  }

  /** Python's `sep.join(parts)`. */
  function Join(parts: seq<string>, sep: string): string
  {
    if |parts| == 0 then ""
    else if |parts| == 1 then parts[0]
    else parts[0] + sep + Join(parts[1..], sep)
  }

  lemma {:induction false} JoinSplit(s: string, sep: string)
    requires |sep| > 0
    decreases |s|
    ensures Join(Split(s, sep), sep) == s
  {
    match Find(s, sep)
    case None =>
    case Some(i) =>
      var rest := s[i + |sep|..];
      var parts := Split(rest, sep);
      JoinSplit(rest, sep);
      assert Split(s, sep) == [s[..i]] + parts;
      assert ([s[..i]] + parts)[1..] == parts;
      assert Join([s[..i]] + parts, sep) == s[..i] + sep + Join(parts, sep);
      assert s == s[..i] + sep + rest by {
        assert s[i..i + |sep|] == sep;
        assert s == s[..i] + s[i..i + |sep|] + s[i + |sep|..];
      }
  }

  /** Splitting on a separator that occurs yields at least two fields, the first
      of which is the text before the first occurrence. */
  lemma SplitFields(s: string, sep: string)
    requires |sep| > 0
    ensures Contains(s, sep) <==> |Split(s, sep)| >= 2
    ensures !Contains(s, sep) ==> Split(s, sep) == [s]
    ensures Contains(s, sep) ==>
              (Split(s, sep)[0] == s[..Find(s, sep).value]
               && Split(s, sep)[1] == Split(s[Find(s, sep).value + |sep|..], sep)[0])
  {
  }

  /** A text in which the first character of `x` never appears does not contain `x`. */
  lemma NotContainsWithoutChar(s: string, x: string)
    requires |x| > 0 && forall k :: 0 <= k < |s| ==> s[k] != x[0]
    ensures !Contains(s, x)
  {
    forall i | 0 <= i <= |s| ensures !OccursAt(s, x, i) {
      if i + |x| <= |s| {
        assert s[i..i + |x|][0] == s[i];
      }
    }
  }

  /** The first occurrence of a one-character separator is its first position. */
  lemma FindFirstChar(a: string, c: char, b: string)
    requires forall k :: 0 <= k < |a| ==> a[k] != c
    ensures Find(a + [c] + b, [c]) == Some(|a|)
  {
    var s := a + [c] + b;
    assert OccursAt(s, [c], |a|) by {
      assert s[|a|..|a| + 1] == [c];
    }
    forall j | 0 <= j < |a| ensures !OccursAt(s, [c], j) {
      assert s[j..j + 1][0] == s[j] == a[j];
    }
  }

  /** Splitting at a one-character separator peels off the text before it. */
  lemma SplitAtChar(a: string, c: char, b: string)
    requires forall k :: 0 <= k < |a| ==> a[k] != c
    ensures Split(a + [c] + b, [c]) == [a] + Split(b, [c])
    ensures Contains(a + [c] + b, [c])
  {
    var s := a + [c] + b;
    FindFirstChar(a, c, b);
    assert s[..|a|] == a;
    assert s[|a| + 1..] == b;
  }

  /** Python's `s.replace(x, "")`. */
  function RemoveAll(s: string, x: string): (r: string)
    requires |x| > 0
    decreases |s|
    ensures |r| <= |s|
    ensures !Contains(s, x) ==> r == s
  {
    match Find(s, x)
    case None => s
    case Some(i) => s[..i] + RemoveAll(s[i + |x|..], x)
  }

  /** Removing a text that leads `x + y` and whose first character `y` lacks leaves `y`. */
  lemma RemoveLeading(x: string, y: string)
    requires |x| > 0 && forall k :: 0 <= k < |y| ==> y[k] != x[0]
    ensures RemoveAll(x + y, x) == y
  {
    assert OccursAt(x + y, x, 0) by {
      assert (x + y)[0..|x|] == x;
    }
    assert (x + y)[|x|..] == y;
    NotContainsWithoutChar(y, x);
  }

  /** Removing a trailing one-character text that occurs nowhere else. */
  lemma RemoveTrailingChar(a: string, c: char)
    requires forall k :: 0 <= k < |a| ==> a[k] != c
    ensures RemoveAll(a + [c], [c]) == a
    ensures Contains(a + [c], [c])
  {
    FindFirstChar(a, c, []);
    assert a + [c] + [] == a + [c];
    assert (a + [c])[..|a|] == a;
    assert (a + [c])[|a| + 1..] == [];
  }

  /** The characters a strip removes: whitespace, or one given character. */
  datatype Trim = Space | Char(c: char) {
    predicate Drops(d: char) {
      if Space? then IsSpace(d) else d == c
    }
  }

  function LStrip(s: string, t: Trim): (r: string)
    ensures |r| <= |s|
  {
    if |s| > 0 && t.Drops(s[0]) then LStrip(s[1..], t) else s
  }

  function RStrip(s: string, t: Trim): (r: string)
    ensures |r| <= |s|
  {
    if |s| > 0 && t.Drops(s[|s| - 1]) then RStrip(s[..|s| - 1], t) else s
  }

  /** Python's `s.strip()` (for `Space`) and `s.strip(c)` (for `Char(c)`). */
  function StripWith(s: string, t: Trim): (r: string)
    ensures |r| <= |s|
  {
    RStrip(LStrip(s, t), t)
  }

  /** Python's `s.strip()`. */
  function Strip(s: string): string
  {
    StripWith(s, Space)
  }

  /** Python's `s.strip(c)` for a one-character argument. */
  function StripChar(s: string, c: char): string
  {
    StripWith(s, Char(c))
  }

  lemma {:induction false} LStripProperties(s: string, t: Trim)
    decreases |s|
    ensures var r := LStrip(s, t);
      r == s[|s| - |r|..] &&
      (forall k :: 0 <= k < |s| - |r| ==> t.Drops(s[k])) && (r == [] || !t.Drops(r[0]))
  {
    if |s| > 0 && t.Drops(s[0]) {
      LStripProperties(s[1..], t);
    }
  }

  lemma {:induction false} RStripProperties(s: string, t: Trim)
    decreases |s|
    ensures var r := RStrip(s, t);
      r == s[..|r|] &&
      (forall k :: |r| <= k < |s| ==> t.Drops(s[k])) && (r == [] || !t.Drops(r[|r| - 1]))
  {
    if |s| > 0 && t.Drops(s[|s| - 1]) {
      RStripProperties(s[..|s| - 1], t);
    }
  }

  /** A stripped text neither starts nor ends with a stripped character, and
      what was cut off from either end consisted of such characters only. */
  lemma StripEnds(s: string, t: Trim)
    ensures var r := StripWith(s, t);
      r == [] || (!t.Drops(r[0]) && !t.Drops(r[|r| - 1]))
  {
    var l := LStrip(s, t);
    LStripProperties(s, t);
    RStripProperties(l, t);
    var r := RStrip(l, t);
    if r != [] {
      assert r[0] == l[0];
    }
  }

  /** Nothing to strip leaves the text unchanged. */
  lemma StripNothing(s: string, t: Trim)
    requires forall k :: 0 <= k < |s| ==> !t.Drops(s[k])
    ensures StripWith(s, t) == s
  {
  }

  lemma StripNoSpace(s: string)
    requires forall k :: 0 <= k < |s| ==> !IsSpace(s[k])
    ensures Strip(s) == s
  {
    StripNothing(s, Space);
  }

  lemma StripIdempotent(s: string, t: Trim)
    ensures StripWith(StripWith(s, t), t) == StripWith(s, t)
  {
    var r := StripWith(s, t);
    StripEnds(s, t);
    assert LStrip(r, t) == r;
    assert RStrip(r, t) == r;
  }

  predicate IsDigit(c: char) { '0' <= c <= '9' }

  function DigitChar(d: nat): char
    requires d < 10
  {
    ('0' as int + d) as char
  }

  /** Python's `str(n)` for a natural number. */
  function NatToString(n: nat): (r: string)
    ensures |r| >= 1
    ensures forall k :: 0 <= k < |r| ==> IsDigit(r[k])
  {
    if n < 10 then [DigitChar(n)] else NatToString(n / 10) + [DigitChar(n % 10)]
  }

  /** Python's `str(i)`. */
  function IntToString(i: int): string
  {
    if i < 0 then "-" + NatToString(-i) else NatToString(i)
  }

  /** Python's `f"{i:02d}"`. */
  function Pad2(i: int): (r: string)
    ensures |r| >= 2
  {
    if 0 <= i <= 9 then "0" + IntToString(i) else if i < 0 then IntToString(i) else NatToString(i)
  }

  /** The value of a run of digits and single underscores. */
  function DigitsValue(s: string): nat
  {
    if s == [] then 0
    else if IsDigit(s[|s| - 1]) then DigitsValue(s[..|s| - 1]) * 10 + (s[|s| - 1] as int - '0' as int)
    else DigitsValue(s[..|s| - 1])
  }

  /** Python accepts digits with single underscores between them. */
  predicate WellFormedDigits(s: string) {
    |s| > 0 && IsDigit(s[0]) && IsDigit(s[|s| - 1])
    && (forall k :: 0 <= k < |s| ==> IsDigit(s[k]) || s[k] == '_')
    && (forall k :: 0 <= k < |s| - 1 ==> IsDigit(s[k]) || IsDigit(s[k + 1]))
  }

  /** Python's `int(s)` in base 10; `None` stands for the `ValueError` it raises. */
  function ParseInt(s: string): (r: Option<int>)
  {
    ParseStripped(Strip(s))
  }

  /** `int()` after the surrounding white space is stripped: an optional sign
      and then digits. */
  function ParseStripped(t: string): Option<int>
  {
    if |t| > 0 && (t[0] == '-' || t[0] == '+') then
      if WellFormedDigits(t[1..]) then
        var v: int := if t[0] == '-' then 0 - DigitsValue(t[1..]) else DigitsValue(t[1..]);
        Some(v)
      else None
    else if WellFormedDigits(t) then Some(DigitsValue(t))
    else None
  }

  lemma {:induction false} DigitsValueOfNat(n: nat)
    ensures DigitsValue(NatToString(n)) == n
  {
    if n >= 10 {
      DigitsValueOfNat(n / 10);
      var s := NatToString(n);
      assert s[..|s| - 1] == NatToString(n / 10);
    }
  }

  /** `int(str(n)) == n`. */
  lemma ParseNatToString(n: nat)
    ensures ParseInt(NatToString(n)) == Some(n)
  {
    ParseDigits(NatToString(n));
    DigitsValueOfNat(n);
  }

  /** A non-empty run of digits parses as its value. */
  lemma ParseDigits(s: string)
    requires |s| > 0 && forall k :: 0 <= k < |s| ==> IsDigit(s[k])
    ensures ParseInt(s) == Some(DigitsValue(s))
  {
    StripNoSpace(s);
    ParseUnsigned(s);
  }

  lemma ParseUnsigned(t: string)
    requires |t| > 0 && forall k :: 0 <= k < |t| ==> IsDigit(t[k])
    ensures ParseStripped(t) == Some(DigitsValue(t))
  {
    assert WellFormedDigits(t);
  }
}
