/** The string operations the system takes from Rust's standard library:
    decimal printing and `u64` parsing, `split`, `trim`, `join`,
    `trim_end_matches`, `rsplit(..).next()`, ASCII lowercasing and the
    byte-wise order of `String`. */
module Text {
  import opened Wrappers

  const U64Max: nat := 0xFFFF_FFFF_FFFF_FFFF

  predicate IsDigit(c: char) { '0' <= c <= '9' }

  function DigitValue(c: char): nat
    requires IsDigit(c)
  {
    (c as int - '0' as int) as nat
  }

  function DigitChar(d: nat): (c: char)
    requires d < 10
    ensures IsDigit(c) && DigitValue(c) == d
  {
    ('0' as int + d) as char
  }

  predicate AllDigits(s: string) {
    forall i :: 0 <= i < |s| ==> IsDigit(s[i])
  }

  /** The number a string of decimal digits denotes. */
  function DigitsValue(s: string): nat
    requires AllDigits(s)
  {
    if s == [] then 0
    else DigitsValue(s[..|s| - 1]) * 10 + DigitValue(s[|s| - 1])
  }

  /** Decimal rendering of a natural number, as `format!("{}", n)` does. */
  function NatToString(n: nat): (s: string)
    ensures |s| > 0 && AllDigits(s)
    ensures |s| > 1 ==> s[0] != '0'
  {
    if n < 10 then [DigitChar(n)]
    else NatToString(n / 10) + [DigitChar(n % 10)]
  }

  lemma {:induction false} NatToStringValue(n: nat)
    ensures DigitsValue(NatToString(n)) == n
  {
    if n >= 10 {
      var s := NatToString(n);
      assert s[..|s| - 1] == NatToString(n / 10);
      NatToStringValue(n / 10);
    }
  }

  /** `str::parse::<u64>()`: an optional leading `+`, then one or more
      decimal digits whose value fits in 64 bits. Anything else, the empty
      string and a lone `+` included, is an error. */
  function ParseU64(s: string): (r: Option<nat>)
    ensures r.Some? ==> r.value <= U64Max
    ensures r.Some? <==>
      (var d := if |s| > 0 && s[0] == '+' then s[1..] else s;
       d != [] && AllDigits(d) && DigitsValue(d) <= U64Max)
    // the value is the number the digits denote
    ensures r.Some? ==> var d := if |s| > 0 && s[0] == '+' then s[1..] else s;
      AllDigits(d) && r.value == DigitsValue(d)
  {
    var d := if |s| > 0 && s[0] == '+' then s[1..] else s;
    if d != [] && AllDigits(d) && DigitsValue(d) <= U64Max then Some(DigitsValue(d)) else None
  }

  /** Leading zeros add nothing to the value of a digit string. */
  lemma {:induction false} LeadingZeroValue(d: string)
    requires AllDigits(d)
    ensures AllDigits("0" + d) && DigitsValue("0" + d) == DigitsValue(d)
    decreases |d|
  {
    if d != [] {
      var front := d[..|d| - 1];
      assert ("0" + d)[..|d|] == "0" + front;
      LeadingZeroValue(front);
    }
  }

  /** `"0042"` parses as `"42"` does, and `"+7"` as `"7"`: a leading zero
      before a digit and one leading `+` change nothing. */
  lemma ParseLeadingZero(d: string)
    requires d != [] && AllDigits(d)
    ensures ParseU64("0" + d) == ParseU64(d)
    ensures ParseU64("+" + d) == ParseU64(d)
  {
    LeadingZeroValue(d);
    assert ("+" + d)[1..] == d;
  }

  /** Printing a 64-bit value and parsing it back gives the value back. */
  lemma ParsePrinted(n: nat)
    requires n <= U64Max
    ensures ParseU64(NatToString(n)) == Some(n)
  {
    NatToStringValue(n);
  }

  /** `s.rsplit(sep).next()`: the text after the last `sep`, or all of `s`
      when `sep` does not occur. */
  function AfterLast(s: string, sep: char): (r: string)
    ensures |r| <= |s| && r == s[|s| - |r|..]
    ensures sep !in r
    ensures |r| < |s| ==> s[|s| - |r| - 1] == sep
    ensures sep !in s ==> r == s
    ensures s != [] && s[|s| - 1] == sep ==> r == []
  {
    if s == [] then []
    else if s[|s| - 1] == sep then []
    else AfterLast(s[..|s| - 1], sep) + [s[|s| - 1]]
  }

  /** `str::split(sep)` collected into a vector: every maximal run of
      non-separator characters, empty runs included, so there is always
      at least one part. */
  function Split(s: string, sep: char): (parts: seq<string>)
    ensures |parts| >= 1
    ensures forall i :: 0 <= i < |parts| ==> sep !in parts[i]
    ensures JoinChar(parts, sep) == s
  {
    if s == [] then [[]]
    else
      var rest := Split(s[1..], sep);
      if s[0] == sep then [[]] + rest
      else [[s[0]] + rest[0]] + rest[1..]
  }

  /** The parts glued back together with `sep` between them. */
  function JoinChar(parts: seq<string>, sep: char): string {
    if parts == [] then []
    else if |parts| == 1 then parts[0]
    else parts[0] + [sep] + JoinChar(parts[1..], sep)
  }

  /** `[..].join(sep)` for a string separator. */
  function Join(parts: seq<string>, sep: string): (r: string)
    ensures |parts| == 1 ==> r == parts[0]
    ensures parts == [] ==> r == []
  {
    if parts == [] then []
    else if |parts| == 1 then parts[0]
    else parts[0] + sep + Join(parts[1..], sep)
  }

  lemma {:induction false} JoinSnoc(parts: seq<string>, x: string, sep: string)
    requires parts != []
    ensures Join(parts + [x], sep) == Join(parts, sep) + sep + x
  {
    if |parts| == 1 {
      assert parts + [x] == [parts[0], x];
    } else {
      assert (parts + [x])[1..] == parts[1..] + [x];
      JoinSnoc(parts[1..], x, sep);
    }
  }

  /** Rust's `char::is_whitespace`: the Unicode White_Space property. */
  predicate IsWhitespace(c: char) {
    var n := c as int;
    (0x09 <= n <= 0x0D) || n == 0x20 || n == 0x85 || n == 0xA0 || n == 0x1680 ||
    (0x2000 <= n <= 0x200A) || n == 0x2028 || n == 0x2029 || n == 0x202F ||
    n == 0x205F || n == 0x3000
  }

  function TrimStart(s: string): (r: string)
    ensures |r| <= |s| && r == s[|s| - |r|..]
    ensures forall i :: 0 <= i < |s| - |r| ==> IsWhitespace(s[i])
    ensures r != [] ==> !IsWhitespace(r[0])
  {
    if s != [] && IsWhitespace(s[0]) then TrimStart(s[1..]) else s
  }

  function TrimEnd(s: string): (r: string)
    ensures |r| <= |s| && r == s[..|r|]
    ensures forall i :: |r| <= i < |s| ==> IsWhitespace(s[i])
    ensures r != [] ==> !IsWhitespace(r[|r| - 1])
  {
    if s != [] && IsWhitespace(s[|s| - 1]) then TrimEnd(s[..|s| - 1]) else s
  }

  /** `r` is `s[a..]` shortened to `|r|`, with only whitespace outside it. */
  predicate CutAt(s: string, r: string, a: int)
  {
    0 <= a && a + |r| <= |s| && r == s[a..a + |r|] &&
    (forall k :: 0 <= k < a ==> IsWhitespace(s[k])) &&
    (forall k :: a + |r| <= k < |s| ==> IsWhitespace(s[k]))
  }

  /** `str::trim`: `s` without its leading and trailing whitespace. */
  function Trim(s: string): (r: string)
    ensures |r| <= |s|
    ensures r != [] ==> !IsWhitespace(r[0]) && !IsWhitespace(r[|r| - 1])
    ensures (forall i :: 0 <= i < |s| ==> !IsWhitespace(s[i])) ==> r == s
    ensures (forall i :: 0 <= i < |s| ==> IsWhitespace(s[i])) ==> r == []
  {
    TrimEnd(TrimStart(s))
  }

  /** Trimming keeps a slice of `s` and cuts only whitespace on either side of it. */
  lemma TrimCuts(s: string)
    ensures exists a :: CutAt(s, Trim(s), a)
  {
    var t := TrimStart(s);
    var r := Trim(s);
    var a := |s| - |t|;
    assert r == s[a..a + |r|];
    assert forall k :: a + |r| <= k < |s| ==> s[k] == t[k - a];
    assert CutAt(s, r, a);
  }

  /** `str::trim_end_matches(c)`: every trailing `c` removed. */
  function TrimEndMatches(s: string, c: char): (r: string)
    ensures |r| <= |s| && r == s[..|r|]
    ensures r != [] ==> r[|r| - 1] != c
    ensures forall i :: |r| <= i < |s| ==> s[i] == c
  {
    if s != [] && s[|s| - 1] == c then TrimEndMatches(s[..|s| - 1], c) else s
  }

  function LowerChar(c: char): char {
    if 'A' <= c <= 'Z' then (c as int + 32) as char else c
  }

  /** `str::to_ascii_lowercase`: `A`..`Z` become `a`..`z`, every other
      character is kept. */
  function ToAsciiLower(s: string): (r: string)
    ensures |r| == |s|
    ensures forall i :: 0 <= i < |s| ==> r[i] == LowerChar(s[i])
  {
    if s == [] then [] else [LowerChar(s[0])] + ToAsciiLower(s[1..])
  }

  /** Lowercasing leaves no ASCII capital, and doing it twice is doing it once. */
  lemma AsciiLowerIdempotent(s: string)
    ensures forall i :: 0 <= i < |s| ==> !('A' <= ToAsciiLower(s)[i] <= 'Z')
    ensures ToAsciiLower(ToAsciiLower(s)) == ToAsciiLower(s)
  {
  }

  /** The order of Rust's `String` and of SQLite's BINARY collation: code
      points compared left to right, a proper prefix first. */
  predicate StrLess(a: string, b: string) {
    if a == [] then b != []
    else if b == [] then false
    else if a[0] != b[0] then a[0] < b[0]
    else StrLess(a[1..], b[1..])
  }

  lemma {:induction false} StrLessIrreflexive(a: string)
    ensures !StrLess(a, a)
  {
    if a != [] { StrLessIrreflexive(a[1..]); }
  }

  lemma {:induction false} StrLessTransitive(a: string, b: string, c: string)
    requires StrLess(a, b) && StrLess(b, c)
    ensures StrLess(a, c)
  {
    if a != [] && b != [] && c != [] && a[0] == b[0] && b[0] == c[0] {
      StrLessTransitive(a[1..], b[1..], c[1..]);
    }
  }

  lemma {:induction false} StrLessTotal(a: string, b: string)
    ensures a == b || StrLess(a, b) || StrLess(b, a)
  {
    if a != [] && b != [] && a[0] == b[0] {
      StrLessTotal(a[1..], b[1..]);
      if a[1..] == b[1..] {
        assert a == [a[0]] + a[1..] && b == [b[0]] + b[1..];
      }
    }
  }
}
