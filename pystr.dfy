/**
 * The Python `str` operations the steering engine relies on, over `seq<char>`:
 * `isspace`/`strip`, `lower`, `in` (substring), `find`, `split(sep)`,
 * `sep.join`, `replace`, `startswith`, `int()` and `str()` of an integer.
 */
module PyStr {
  import opened Wrappers

  // ---------------------------------------------------------------------------
  // Whitespace and strip()

  /** `c.isspace()`: the characters `str.strip()` removes. */
  predicate IsSpace(c: char) {
    c == ' ' || ('\t' <= c <= '\r') || ('\U{1c}' <= c <= '\U{1f}')
    || c == '\U{85}' || c == '\U{a0}' || c == '\U{1680}'
    || ('\U{2000}' <= c <= '\U{200a}') || c == '\U{2028}' || c == '\U{2029}'
    || c == '\U{202f}' || c == '\U{205f}' || c == '\U{3000}'
  }

  /** Every character is whitespace (`not s.strip()`). */
  predicate Blank(s: string) {
    forall i :: 0 <= i < |s| ==> IsSpace(s[i])
  }

  function TrimLeft(s: string): string
    decreases |s|
  {
    if s != [] && IsSpace(s[0]) then TrimLeft(s[1..]) else s
  }

  function TrimRight(s: string): string
    decreases |s|
  {
    if s != [] && IsSpace(s[|s| - 1]) then TrimRight(s[..|s| - 1]) else s
  }

  /** `s.strip()` */
  function Strip(s: string): string {
    TrimRight(TrimLeft(s))
  }

  lemma {:induction false} TrimLeftEmptyIffBlank(s: string)
    ensures TrimLeft(s) == [] <==> Blank(s)
    decreases |s|
  {
    if s != [] && IsSpace(s[0]) {
      TrimLeftEmptyIffBlank(s[1..]);
      assert Blank(s) <==> Blank(s[1..]) by {
        if Blank(s[1..]) {
          forall i | 0 <= i < |s| ensures IsSpace(s[i]) {
            if i > 0 { assert s[i] == s[1..][i - 1]; }
          }
        }
      }
    }
  }

  lemma {:induction false} TrimRightKeepsFirst(s: string)
    requires s != [] && !IsSpace(s[0])
    ensures TrimRight(s) != []
    decreases |s|
  {
    if IsSpace(s[|s| - 1]) {
      assert |s| > 1;
      TrimRightKeepsFirst(s[..|s| - 1]);
    }
  }

  /** `not s.strip()` holds exactly for all-whitespace strings. */
  lemma StripEmptyIffBlank(s: string)
    ensures Strip(s) == [] <==> Blank(s)
  {
    TrimLeftEmptyIffBlank(s);
    var t := TrimLeft(s);
    if t != [] {
      TrimLeftFirst(s);
      TrimRightKeepsFirst(t);
    }
  }

  lemma {:induction false} TrimLeftFirst(s: string)
    requires TrimLeft(s) != []
    ensures !IsSpace(TrimLeft(s)[0])
    decreases |s|
  {
    if s != [] && IsSpace(s[0]) { TrimLeftFirst(s[1..]); }
  }

  /** A string that neither starts nor ends with whitespace is its own strip. */
  lemma StripUnpadded(s: string)
    requires s != [] && !IsSpace(s[0]) && !IsSpace(s[|s| - 1])
    ensures Strip(s) == s
  {
  }

  // ---------------------------------------------------------------------------
  // lower()

  /** `c.lower()` for ASCII letters; other characters are left as they are. */
  function LowerChar(c: char): char {
    if 'A' <= c <= 'Z' then (c as int + 32) as char else c
  }

  /** `s.lower()` */
  function Lower(s: string): string {
    seq(|s|, i requires 0 <= i < |s| => LowerChar(s[i]))
  }

  // ---------------------------------------------------------------------------
  // Substrings: `w in s`, `s.find(w)`, `s.startswith(w)`

  /** `w in s` */
  predicate Contains(s: string, w: string)
    decreases |s|
  {
    w <= s || (s != [] && Contains(s[1..], w))
  }

  /** What occurs in a prefix of `s` occurs in `s`. */
  lemma {:induction false} ContainsInPrefix(t: string, s: string, w: string)
    requires t <= s && Contains(t, w)
    ensures Contains(s, w)
    decreases |t|
  {
    if !(w <= t) {
      assert t[1..] <= s[1..];
      ContainsInPrefix(t[1..], s[1..], w);
    }
  }

  lemma {:induction false} ContainsInTrimLeft(s: string, w: string)
    requires Contains(TrimLeft(s), w)
    ensures Contains(s, w)
    decreases |s|
  {
    if s != [] && IsSpace(s[0]) {
      ContainsInTrimLeft(s[1..], w);
    }
  }

  lemma {:induction false} ContainsInTrimRight(s: string, w: string)
    requires Contains(TrimRight(s), w)
    ensures Contains(s, w)
    decreases |s|
  {
    if s != [] && IsSpace(s[|s| - 1]) {
      ContainsInTrimRight(s[..|s| - 1], w);
      ContainsInPrefix(s[..|s| - 1], s, w);
    }
  }

  /** What occurs in `s.strip()` occurs in `s`. */
  lemma ContainsInStrip(s: string, w: string)
    requires Contains(Strip(s), w)
    ensures Contains(s, w)
  {
    ContainsInTrimRight(TrimLeft(s), w);
    ContainsInTrimLeft(s, w);
  }

  /** `s.find(w)`, with `None` for -1: the first position where `w` occurs. */
  function IndexOf(s: string, w: string): (r: Option<nat>)
    ensures r.None? <==> !Contains(s, w)
    ensures r.Some? ==> r.value + |w| <= |s| && s[r.value..r.value + |w|] == w
    ensures r.Some? ==> forall j :: 0 <= j < r.value ==> !(w <= s[j..])
    decreases |s|
  {
    if w <= s then Some(0)
    else if s == [] then None
    else
      match IndexOf(s[1..], w)
      case None => None
      case Some(i) =>
        FirstOccurrenceShift(s, w, i);
        Some(i + 1)
  }

  /** A first occurrence at `i` in `s[1..]` is one at `i + 1` in `s` when `w` is not a prefix of `s`. */
  lemma FirstOccurrenceShift(s: string, w: string, i: nat)
    requires s != [] && !(w <= s)
    requires i + |w| <= |s[1..]| && s[1..][i..i + |w|] == w
    requires forall j :: 0 <= j < i ==> !(w <= s[1..][j..])
    ensures i + 1 + |w| <= |s| && s[i + 1..i + 1 + |w|] == w
    ensures forall j :: 0 <= j < i + 1 ==> !(w <= s[j..])
  {
    assert s[i + 1..i + 1 + |w|] == s[1..][i..i + |w|];
    forall j | 1 <= j < i + 1 ensures !(w <= s[j..]) {
      assert s[j..] == s[1..][j - 1..];
    }
  }

  // ---------------------------------------------------------------------------
  // split(sep) and sep.join(parts)

  /** `s.split(sep)` for a one-character separator: never empty, pieces free of `sep`. */
  function Split(s: string, sep: char): (r: seq<string>)
    ensures |r| >= 1
    ensures forall i :: 0 <= i < |r| ==> sep !in r[i]
    decreases |s|
  {
    if s == [] then [[]]
    else
      var rest := Split(s[1..], sep);
      if s[0] == sep then [[]] + rest else [[s[0]] + rest[0]] + rest[1..]
  }

  /** `sep.join(parts)` */
  function Join(parts: seq<string>, sep: string): string
    decreases |parts|
  {
    if parts == [] then []
    else if |parts| == 1 then parts[0]
    else parts[0] + sep + Join(parts[1..], sep)
  }

  /** Joining the pieces of a split with the same separator gives the input back. */
  lemma {:induction false} JoinSplit(s: string, sep: char)
    ensures Join(Split(s, sep), [sep]) == s
    decreases |s|
  {
    if s != [] {
      var rest := Split(s[1..], sep);
      JoinSplit(s[1..], sep);
      if s[0] != sep && |rest| > 1 {
        assert Join(rest, [sep]) == rest[0] + [sep] + Join(rest[1..], [sep]);
      }
    }
  }

  lemma {:induction false} SplitNoSep(s: string, sep: char)
    requires sep !in s
    ensures Split(s, sep) == [s]
    decreases |s|
  {
    if s != [] {
      assert s[0] != sep && sep !in s[1..];
      SplitNoSep(s[1..], sep);
      assert [s[0]] + s[1..] == s;
    }
  }

  /** Splitting distributes over a separator placed between two strings. */
  lemma {:induction false} SplitAppend(a: string, b: string, sep: char)
    ensures Split(a + [sep] + b, sep) == Split(a, sep) + Split(b, sep)
    decreases |a|
  {
    if a == [] {
      assert [sep] + b == a + [sep] + b;
      assert ([sep] + b)[1..] == b;
    } else {
      assert (a + [sep] + b)[1..] == a[1..] + [sep] + b;
      SplitAppend(a[1..], b, sep);
    }
  }

  /** Splitting a join of separator-free pieces gives the pieces back. */
  lemma {:induction false} SplitJoin(parts: seq<string>, sep: char)
    requires |parts| >= 1
    requires forall i :: 0 <= i < |parts| ==> sep !in parts[i]
    ensures Split(Join(parts, [sep]), sep) == parts
    decreases |parts|
  {
    if |parts| == 1 {
      SplitNoSep(parts[0], sep);
    } else {
      SplitJoin(parts[1..], sep);
      SplitAppend(parts[0], Join(parts[1..], [sep]), sep);
      SplitNoSep(parts[0], sep);
      assert parts == [parts[0]] + parts[1..];
    }
  }

  // ---------------------------------------------------------------------------
  // replace(old, new)

  /** `s.replace('', n)`: `n` before every character and at the end. */
  function Interleave(s: string, n: string): string
    decreases |s|
  {
    if s == [] then n else n + [s[0]] + Interleave(s[1..], n)
  }

  /** `s.replace(p, n)`: every non-overlapping occurrence of `p`, scanning left to right. */
  function ReplaceAll(s: string, p: string, n: string): string
    decreases |s|
  {
    if p == [] then Interleave(s, n)
    else if p <= s then n + ReplaceAll(s[|p|..], p, n)
    else if s == [] then []
    else [s[0]] + ReplaceAll(s[1..], p, n)
  }

  /** Replacing a string by itself changes nothing. */
  lemma {:induction false} ReplaceBySelf(s: string, p: string)
    ensures ReplaceAll(s, p, p) == s
    decreases |s|
  {
    if p == [] {
      InterleaveEmpty(s);
    } else if p <= s {
      ReplaceBySelf(s[|p|..], p);
      assert s == p + s[|p|..];
    } else if s != [] {
      ReplaceBySelf(s[1..], p);
    }
  }

  lemma {:induction false} InterleaveEmpty(s: string)
    ensures Interleave(s, []) == s
    decreases |s|
  {
    if s != [] { InterleaveEmpty(s[1..]); }
  }

  /** A pattern that does not occur leaves the string unchanged. */
  lemma {:induction false} ReplaceAbsent(s: string, p: string, n: string)
    requires p != [] && !Contains(s, p)
    ensures ReplaceAll(s, p, n) == s
    decreases |s|
  {
    if s != [] { ReplaceAbsent(s[1..], p, n); }
  }

  /** Deleting a non-empty pattern never makes the string longer. */
  lemma {:induction false} ReplaceDeleteShrinks(s: string, p: string)
    requires p != []
    ensures |ReplaceAll(s, p, [])| <= |s|
    decreases |s|
  {
    if p <= s {
      ReplaceDeleteShrinks(s[|p|..], p);
    } else if s != [] {
      ReplaceDeleteShrinks(s[1..], p);
    }
  }

  // ---------------------------------------------------------------------------
  // int(s) and str(n)

  predicate IsDigit(c: char) {
    '0' <= c <= '9'
  }

  /**
   * The digit part `int()` accepts: ASCII digits, with single underscores
   * allowed between two digits.
   */
  predicate WellFormedDigits(d: string) {
    && |d| > 0
    && IsDigit(d[0])
    && IsDigit(d[|d| - 1])
    && (forall i :: 0 <= i < |d| ==> IsDigit(d[i]) || d[i] == '_')
    && (forall i :: 0 <= i < |d| - 1 ==> d[i] == '_' ==> d[i + 1] != '_')
  }

  /** The value of a digit string, underscores ignored. */
  function DigitsValue(d: string): nat
    decreases |d|
  {
    if d == [] then 0
    else if IsDigit(d[|d| - 1]) then DigitsValue(d[..|d| - 1]) * 10 + (d[|d| - 1] as int - '0' as int)
    else DigitsValue(d[..|d| - 1])
  }

  /** `int(s)`: `None` where Python raises `ValueError`. */
  function ParseInt(s: string): Option<int> {
    var t := Strip(s);
    if t != [] && (t[0] == '-' || t[0] == '+') then
      if WellFormedDigits(t[1..]) then
        var v: int := DigitsValue(t[1..]);
        Some(if t[0] == '-' then -v else v)
      else None
    else if WellFormedDigits(t) then Some(DigitsValue(t))
    else None
  }

  function DigitChar(n: nat): char
    requires n < 10
  {
    ('0' as int + n) as char
  }

  /** `str(n)` for a natural number. */
  function NatToStr(n: nat): (r: string)
    ensures r != [] && forall i :: 0 <= i < |r| ==> IsDigit(r[i])
    decreases n
  {
    if n < 10 then [DigitChar(n)] else NatToStr(n / 10) + [DigitChar(n % 10)]
  }

  /** `str(n)` */
  function IntToStr(n: int): string {
    if n < 0 then "-" + NatToStr(-n) else NatToStr(n)
  }

  lemma {:induction false} DigitsOfNat(n: nat)
    ensures DigitsValue(NatToStr(n)) == n
    decreases n
  {
    if n >= 10 {
      DigitsOfNat(n / 10);
      assert NatToStr(n)[..|NatToStr(n)| - 1] == NatToStr(n / 10);
    }
  }

  /** `int(str(n)) == n` */
  lemma ParseIntToStr(n: int)
    ensures ParseInt(IntToStr(n)) == Some(n)
  {
    var s := IntToStr(n);
    var d := NatToStr(if n < 0 then -n else n);
    DigitsOfNat(if n < 0 then -n else n);
    StripUnpadded(s);
    if n < 0 {
      assert s[1..] == d;
    }
  }

  /** `str` of an integer never contains an underscore. */
  lemma IntToStrNoUnderscore(n: int)
    ensures '_' !in IntToStr(n)
  {
    var s := IntToStr(n);
    if n < 0 {
      assert forall i :: 1 <= i < |s| ==> s[i] == NatToStr(-n)[i - 1];
    }
  }

  /** `str` is injective on integers. */
  lemma IntToStrInjective(a: int, b: int)
    requires IntToStr(a) == IntToStr(b)
    ensures a == b
  {
    ParseIntToStr(a);
    ParseIntToStr(b);
  }
}
