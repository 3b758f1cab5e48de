/** Shared building blocks: optional values, results, filtering, decimal
    rendering and the whitespace sets of the two host languages. */
module Common {

  /** A value that may be absent: `undefined`/`null` in TypeScript, `None` in Python. */
  datatype Option<+T> = None | Some(value: T) {
    function GetOr(default: T): T {
      match this
      case Some(v) => v
      case None => default
    }
  }

  /** The outcome of an operation that can fail: a value, or the error it would throw. */
  datatype Result<+T, +E> = Ok(value: T) | Err(error: E)

  /** An optional string is truthy in JavaScript (and Python) when present and non-empty. */
  predicate Truthy(s: Option<string>) {
    s.Some? && |s.value| > 0
  }

  /** The concatenation of the strings of `ws`, in order. */
  function Flatten(ws: seq<string>): string
    decreases |ws|
  {
    if |ws| == 0 then [] else ws[0] + Flatten(ws[1..])
  }

  /** The elements of `s` that satisfy `p`, in their original order. */
  function Filter<T(!new)>(s: seq<T>, p: T -> bool): (r: seq<T>)
    ensures |r| <= |s|
    ensures forall x :: x in r <==> x in s && p(x)
    decreases |s|
  {
    if |s| == 0 then []
    else if p(s[0]) then [s[0]] + Filter(s[1..], p)
    else Filter(s[1..], p)
  }

  /** Filtering keeps everything when every element passes, and nothing when none does. */
  lemma {:induction false} FilterAllOrNone<T(!new)>(s: seq<T>, p: T -> bool)
    ensures (forall x :: x in s ==> p(x)) ==> Filter(s, p) == s
    ensures (forall x :: x in s ==> !p(x)) ==> Filter(s, p) == []
    decreases |s|
  {
    if |s| > 0 {
      FilterAllOrNone(s[1..], p);
      assert forall x :: x in s[1..] ==> x in s;
    }
  }

  /** Filtering distributes over concatenation. */
  lemma {:induction false} FilterAppend<T(!new)>(a: seq<T>, b: seq<T>, p: T -> bool)
    ensures Filter(a + b, p) == Filter(a, p) + Filter(b, p)
    decreases |a|
  {
    if |a| == 0 {
      assert a + b == b;
    } else {
      assert (a + b)[1..] == a[1..] + b;
      FilterAppend(a[1..], b, p);
    }
  }

  /** The sum of `f` over `s`. */
  function SumOf<T>(s: seq<T>, f: T -> nat): nat
    decreases |s|
  {
    if |s| == 0 then 0 else f(s[0]) + SumOf(s[1..], f)
  }

  /** Summing over a concatenation sums the parts. */
  lemma {:induction false} SumOfAppend<T>(a: seq<T>, b: seq<T>, f: T -> nat)
    ensures SumOf(a + b, f) == SumOf(a, f) + SumOf(b, f)
    decreases |a|
  {
    if |a| == 0 {
      assert a + b == b;
    } else {
      assert (a + b)[1..] == a[1..] + b;
      SumOfAppend(a[1..], b, f);
    }
  }

  /** Replacing one element changes the sum by the difference of the two weights. */
  lemma {:induction false} SumOfUpdate<T>(s: seq<T>, j: nat, y: T, f: T -> nat)
    requires j < |s|
    ensures SumOf(s[j := y], f) + f(s[j]) == SumOf(s, f) + f(y)
    decreases |s|
  {
    if j == 0 {
      assert s[j := y][1..] == s[1..];
    } else {
      assert s[j := y][1..] == s[1..][j - 1 := y];
      SumOfUpdate(s[1..], j - 1, y, f);
    }
  }

  /** `parts.join(sep)`. */
  function Join(parts: seq<string>, sep: string): string
    decreases |parts|
  {
    if |parts| == 0 then ""
    else if |parts| == 1 then parts[0]
    else parts[0] + sep + Join(parts[1..], sep)
  }

  /** `s` in reverse order. */
  function Reverse<T>(s: seq<T>): (r: seq<T>)
    ensures |r| == |s|
    ensures forall i :: 0 <= i < |s| ==> r[i] == s[|s| - 1 - i]
  {
    seq(|s|, i requires 0 <= i < |s| => s[|s| - 1 - i])
  }

  /** Reversing keeps the elements. */
  lemma ReverseMembers<T>(s: seq<T>)
    ensures forall x :: x in Reverse(s) <==> x in s
  {
    forall x | x in s
      ensures x in Reverse(s)
    {
      var k :| 0 <= k < |s| && s[k] == x;
      assert Reverse(s)[|s| - 1 - k] == x;
    }
  }

  /** Concatenation groups either way. */
  lemma AppendAssociative<T>(a: seq<T>, b: seq<T>, c: seq<T>)
    ensures a + b + c == a + (b + c)
  {
  }

  /** A proper subset is smaller, and a subset is no larger. */
  lemma ProperSubsetSmaller<T>(a: set<T>, b: set<T>)
    requires a < b
    ensures |a| < |b|
  {
    var d := b - a;
    assert b == a + d;
    assert a * d == {};
    assert d != {};
  }

  lemma SubsetNoLarger<T>(a: set<T>, b: set<T>)
    requires a <= b
    ensures |a| <= |b|
  {
    var d := b - a;
    assert b == a + d;
    assert a * d == {};
  }

  /** The number of elements of `s` that satisfy `p`. */
  function Count<T(!new)>(s: seq<T>, p: T -> bool): nat {
    |Filter(s, p)|
  }

  // ---------------------------------------------------------------------------
  // Decimal rendering (`String(n)` in TypeScript, `str(n)` / f-strings in Python)
  // ---------------------------------------------------------------------------

  predicate IsDigit(c: char) {
    '0' <= c <= '9'
  }

  function DigitChar(d: nat): (c: char)
    requires d < 10
    ensures IsDigit(c)
  {
    "0123456789"[d]
  }

  function DigitValue(c: char): (d: nat)
    requires IsDigit(c)
    ensures d < 10
  {
    (c as int - '0' as int) as nat
  }

  /** The numeric value of a string of decimal digits. */
  function DigitsValue(s: string): nat
    requires forall i :: 0 <= i < |s| ==> IsDigit(s[i])
    decreases |s|
  {
    if |s| == 0 then 0
    else 10 * DigitsValue(s[..|s| - 1]) + DigitValue(s[|s| - 1])
  }

  /** Decimal rendering of a natural number, without leading zeros. */
  function NatToString(n: nat): (r: string)
    ensures |r| >= 1
    ensures forall i :: 0 <= i < |r| ==> IsDigit(r[i])
    ensures n >= 10 <==> |r| >= 2
    decreases n
  {
    if n < 10 then [DigitChar(n)] else NatToString(n / 10) + [DigitChar(n % 10)]
  }

  /** Reading the rendering back gives the number: the rendering loses nothing. */
  lemma {:induction false} NatToStringRoundTrip(n: nat)
    ensures DigitsValue(NatToString(n)) == n
    decreases n
  {
    if n >= 10 {
      NatToStringRoundTrip(n / 10);
      var s := NatToString(n);
      assert s[..|s| - 1] == NatToString(n / 10);
    }
  }

  /** Decimal rendering of an integer, with a leading '-' when negative. */
  function IntToString(i: int): (r: string)
    ensures |r| >= 1
    ensures r[0] == '-' <==> i < 0
  {
    if i < 0 then "-" + NatToString(-i) else NatToString(i)
  }

  // ---------------------------------------------------------------------------
  // Characters and strings
  // ---------------------------------------------------------------------------

  /** `s` begins with `prefix`. */
  predicate StartsWith(s: string, prefix: string) {
    |prefix| <= |s| && s[..|prefix|] == prefix
  }

  predicate IsAsciiLower(c: char) {
    'a' <= c <= 'z'
  }

  predicate IsAsciiUpper(c: char) {
    'A' <= c <= 'Z'
  }

  predicate IsAsciiLetter(c: char) {
    IsAsciiLower(c) || IsAsciiUpper(c)
  }

  function AsciiLowerChar(c: char): (r: char)
    ensures IsAsciiLetter(c) ==> IsAsciiLower(r)
    ensures !IsAsciiUpper(c) ==> r == c
  {
    if IsAsciiUpper(c) then (c as int + 32) as char else c
  }

  /** Lower-casing of the ASCII letters of a string; other characters are kept. */
  function AsciiLower(s: string): (r: string)
    ensures |r| == |s|
    ensures forall i :: 0 <= i < |s| ==> r[i] == AsciiLowerChar(s[i])
  {
    seq(|s|, i requires 0 <= i < |s| => AsciiLowerChar(s[i]))
  }

  /** The UTF-16 code units of a character: the character itself below
      U+10000, and a high and a low surrogate above it. */
  function CodeUnits(c: char): (r: seq<int>)
    ensures |r| == (if c as int < 0x1_0000 then 1 else 2)
    ensures |r| == 1 ==> r[0] == c as int
    ensures |r| == 2 ==> && 0xD800 <= r[0] < 0xDC00 && 0xDC00 <= r[1] < 0xE000
                         && 0x1_0000 + (r[0] - 0xD800) * 0x400 + (r[1] - 0xDC00) == c as int
  {
    var v := c as int;
    if v < 0x1_0000 then [v]
    else [0xD800 + (v - 0x1_0000) / 0x400, 0xDC00 + (v - 0x1_0000) % 0x400]
  }

  /** The UTF-16 code units of a string: what JavaScript's `length` counts and
      `charCodeAt` reads. */
  function Utf16(s: string): (r: seq<int>)
    ensures |s| <= |r| <= 2 * |s|
    decreases |s|
  {
    if |s| == 0 then [] else Utf16(s[..|s| - 1]) + CodeUnits(s[|s| - 1])
  }

  /** A string of characters below U+10000 is its own UTF-16 encoding, one
      unit per character. */
  lemma {:induction false} Utf16OfBasicPlane(s: string)
    requires forall i :: 0 <= i < |s| ==> s[i] as int < 0x1_0000
    ensures |Utf16(s)| == |s|
    ensures forall i :: 0 <= i < |s| ==> Utf16(s)[i] == s[i] as int
    decreases |s|
  {
    if |s| > 0 {
      Utf16OfBasicPlane(s[..|s| - 1]);
    }
  }

  /** Lexicographic order on Unicode scalar values: `a < b` on Python strings.
      JavaScript compares UTF-16 code units instead, which agrees unless one
      string holds a character from U+E000 to U+FFFF where the other holds one
      above U+FFFF. */
  predicate StrLess(a: string, b: string)
    decreases |a|
  {
    if |a| == 0 then |b| > 0
    else if |b| == 0 then false
    else if a[0] != b[0] then a[0] < b[0]
    else StrLess(a[1..], b[1..])
  }

  /** `a <= b` on strings. */
  predicate StrLessEq(a: string, b: string) {
    a == b || StrLess(a, b)
  }

  /** String order is a strict order ... */
  lemma {:induction false} StrLessIrreflexive(a: string, b: string)
    ensures StrLess(a, b) ==> a != b && !StrLess(b, a)
    decreases |a|
  {
    if |a| > 0 && |b| > 0 && a[0] == b[0] {
      StrLessIrreflexive(a[1..], b[1..]);
      if a == b {
        assert a[1..] == b[1..];
      }
    }
  }

  lemma {:induction false} StrLessTransitive(a: string, b: string, c: string)
    requires StrLess(a, b) && StrLess(b, c)
    ensures StrLess(a, c)
    decreases |a|
  {
    if |a| > 0 && a[0] == b[0] && b[0] == c[0] {
      StrLessTransitive(a[1..], b[1..], c[1..]);
    }
  }

  /** ... and a total one: two different strings are always ordered. */
  lemma {:induction false} StrLessTotal(a: string, b: string)
    ensures a == b || StrLess(a, b) || StrLess(b, a)
    decreases |a|
  {
    if |a| > 0 && |b| > 0 && a[0] == b[0] {
      StrLessTotal(a[1..], b[1..]);
      if a[1..] == b[1..] {
        assert a == [a[0]] + a[1..] && b == [b[0]] + b[1..];
      }
    }
  }

  /** `StrLessEq` is therefore a total order on strings. */
  lemma StrLessEqTotalOrder(a: string, b: string, c: string)
    ensures StrLessEq(a, b) || StrLessEq(b, a)
    ensures StrLessEq(a, b) && StrLessEq(b, a) ==> a == b
    ensures StrLessEq(a, b) && StrLessEq(b, c) ==> StrLessEq(a, c)
  {
    StrLessTotal(a, b);
    StrLessIrreflexive(a, b);
    if StrLess(a, b) && StrLess(b, c) {
      StrLessTransitive(a, b, c);
    }
  }

  /** The characters JavaScript's `\s` class and `String.prototype.trim` treat as white space. */
  predicate IsJsWhitespace(c: char) {
    c == ' ' || c == '\t' || c == '\n' || c == '\r' || c == '\U{000B}' || c == '\U{000C}'
    || c == '\U{00A0}' || c == '\U{1680}' || ('\U{2000}' <= c <= '\U{200A}')
    || c == '\U{2028}' || c == '\U{2029}' || c == '\U{202F}' || c == '\U{205F}'
    || c == '\U{3000}' || c == '\U{FEFF}'
  }

  /** The characters Python's `str.isspace` (and so `str.strip()`) treats as white space. */
  predicate IsPyWhitespace(c: char) {
    c == ' ' || ('\t' <= c <= '\r') || ('\U{001C}' <= c <= '\U{001F}')
    || c == '\U{0085}' || c == '\U{00A0}' || c == '\U{1680}' || ('\U{2000}' <= c <= '\U{200A}')
    || c == '\U{2028}' || c == '\U{2029}' || c == '\U{202F}' || c == '\U{205F}' || c == '\U{3000}'
  }

  /** Index of the first character at or after `i` that is not white space. */
  function SkipFrom(s: string, ws: char -> bool, i: nat): (k: nat)
    requires i <= |s|
    ensures i <= k <= |s|
    ensures forall j :: i <= j < k ==> ws(s[j])
    ensures k < |s| ==> !ws(s[k])
    decreases |s| - i
  {
    if i == |s| || !ws(s[i]) then i else SkipFrom(s, ws, i + 1)
  }

  /** Index just past the last character before `i` that is not white space. */
  function SkipBack(s: string, ws: char -> bool, i: nat): (k: nat)
    requires i <= |s|
    ensures k <= i
    ensures forall j :: k <= j < i ==> ws(s[j])
    ensures k > 0 ==> !ws(s[k - 1])
    decreases i
  {
    if i == 0 || !ws(s[i - 1]) then i else SkipBack(s, ws, i - 1)
  }

  /** `s` without leading and trailing white space (per `ws`). */
  function Trim(s: string, ws: char -> bool): (r: string)
    ensures |r| > 0 ==> !ws(r[0]) && !ws(r[|r| - 1])
    ensures exists a, b :: 0 <= a <= b <= |s| && r == s[a..b]
                        && (forall j :: 0 <= j < a ==> ws(s[j]))
                        && (forall j :: b <= j < |s| ==> ws(s[j]))
  {
    var a := SkipFrom(s, ws, 0);
    var b := SkipBack(s, ws, |s|);
    if a == |s| then
      assert s[a..a] == [];
      []
    else
      assert !ws(s[a]);
      s[a..b]
  }

  /** Trimming twice is trimming once. */
  lemma TrimIdempotent(s: string, ws: char -> bool)
    ensures Trim(Trim(s, ws), ws) == Trim(s, ws)
  {
    var t := Trim(s, ws);
    if |t| > 0 {
      assert SkipFrom(t, ws, 0) == 0;
      assert SkipBack(t, ws, |t|) == |t|;
      assert t[0..|t|] == t;
    }
  }

  /** Skipping forward through white space in front of `s` lands where skipping in `s` does. */
  lemma {:induction false} SkipFromShift(w: string, s: string, ws: char -> bool, i: nat)
    requires i <= |s|
    ensures SkipFrom(w + s, ws, |w| + i) == |w| + SkipFrom(s, ws, i)
    decreases |s| - i
  {
    if i < |s| && ws(s[i]) {
      assert (w + s)[|w| + i] == s[i];
      SkipFromShift(w, s, ws, i + 1);
    } else if i < |s| {
      assert (w + s)[|w| + i] == s[i];
    }
  }

  /** Skipping forward from inside leading white space reaches its end first. */
  lemma {:induction false} SkipFromPrefix(w: string, s: string, ws: char -> bool, i: nat)
    requires i <= |w| && forall j :: 0 <= j < |w| ==> ws(w[j])
    ensures SkipFrom(w + s, ws, i) == SkipFrom(w + s, ws, |w|)
    decreases |w| - i
  {
    if i < |w| {
      assert (w + s)[i] == w[i];
      SkipFromPrefix(w, s, ws, i + 1);
    }
  }

  /** Skipping back inside `s` is unaffected by text in front of it, when it stops inside `s`. */
  lemma {:induction false} SkipBackShift(w: string, s: string, ws: char -> bool, i: nat)
    requires i <= |s| && SkipBack(s, ws, i) > 0
    ensures SkipBack(w + s, ws, |w| + i) == |w| + SkipBack(s, ws, i)
    decreases i
  {
    assert (w + s)[|w| + i - 1] == s[i - 1];
    if ws(s[i - 1]) {
      SkipBackShift(w, s, ws, i - 1);
    }
  }

  /** White space in front of a text does not change its trim. */
  lemma TrimLeadingSpace(w: string, s: string, ws: char -> bool)
    requires forall j :: 0 <= j < |w| ==> ws(w[j])
    ensures Trim(w + s, ws) == Trim(s, ws)
  {
    SkipFromPrefix(w, s, ws, 0);
    SkipFromShift(w, s, ws, 0);
    if SkipFrom(s, ws, 0) < |s| {
      SkipBackShift(w, s, ws, |s|);
      TrimShifted(w, s, ws);
    }
  }

  /** The trim of a text with a non-white character runs from the first to the last one. */
  lemma TrimBounds(s: string, ws: char -> bool, a: nat, b: nat)
    requires a == SkipFrom(s, ws, 0) < |s| && b == SkipBack(s, ws, |s|)
    ensures a < b && Trim(s, ws) == s[a..b]
  {
    assert !ws(s[a]);
  }

  /** Two sequences equal to two equal sequences are equal. */
  lemma EqualThrough<T>(x: seq<T>, y: seq<T>, p: seq<T>, q: seq<T>)
    requires x == p && p == q && y == q
    ensures x == y
  {
  }

  /** A slice of `s` is the shifted slice of `w + s`. */
  lemma SliceShift<T>(w: seq<T>, s: seq<T>, a: nat, b: nat)
    requires a <= b <= |s|
    ensures (w + s)[|w| + a..|w| + b] == s[a..b]
  {
  }

  /** The trim of a text with some non-white character, behind leading white space. */
  lemma TrimShifted(w: string, s: string, ws: char -> bool)
    requires SkipFrom(s, ws, 0) < |s|
    requires SkipFrom(w + s, ws, 0) == |w| + SkipFrom(s, ws, 0)
    requires SkipBack(w + s, ws, |w + s|) == |w| + SkipBack(s, ws, |s|)
    ensures Trim(w + s, ws) == Trim(s, ws)
  {
    var a, b := SkipFrom(s, ws, 0), SkipBack(s, ws, |s|);
    var t := w + s;
    TrimBounds(s, ws, a, b);
    TrimBounds(t, ws, |w| + a, |w| + b);
    SliceShift(w, s, a, b);
    EqualThrough(Trim(t, ws), Trim(s, ws), t[|w| + a..|w| + b], s[a..b]);
  }

  /** JavaScript's `String.prototype.trim`. */
  function TrimJs(s: string): string {
    Trim(s, IsJsWhitespace)
  }

  /** Python's `str.strip()` with no argument. */
  function StripPy(s: string): string {
    Trim(s, IsPyWhitespace)
  }

  /** Python's `s[:n]`: the first `n` elements, or all but the last `-n` when
      `n` is negative. */
  function PyPrefix<T>(s: seq<T>, n: int): (r: seq<T>)
    ensures |r| <= |s| && r == s[..|r|]
    ensures 0 <= n <= |s| ==> |r| == n
    ensures n > |s| ==> r == s
    ensures n < 0 ==> |r| == if |s| + n > 0 then |s| + n else 0
  {
    if n >= 0 then s[..if n < |s| then n else |s|]
    else s[..if |s| + n > 0 then |s| + n else 0]
  }
}
