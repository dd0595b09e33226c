/**
 * String primitives of the .NET base library that the core relies on: white-space
 * trimming, ordinal prefix tests, `int` formatting and `int.TryParse`, and the
 * textual form of a `Guid` with `Guid.TryParse`.
 */
module Text {
  import opened Wrappers

  /** `char.IsWhiteSpace`: the Unicode white-space characters. */
  predicate IsWhiteSpace(c: char) {
    ('\U{9}' <= c <= '\U{D}') || c == '\U{20}' || c == '\U{85}' || c == '\U{A0}' ||
    c == '\U{1680}' || ('\U{2000}' <= c <= '\U{200A}') || c == '\U{2028}' || c == '\U{2029}' ||
    c == '\U{202F}' || c == '\U{205F}' || c == '\U{3000}'
  }

  /** `string.TrimStart()`: drops leading white space. */
  function TrimStart(s: string): string {
    if s == [] || !IsWhiteSpace(s[0]) then s else TrimStart(s[1..])
  }

  /** What `TrimStart` keeps is a suffix that starts with a non-blank; all it drops is blank. */
  lemma {:induction false} TrimStartSpec(s: string)
    ensures var r := TrimStart(s);
      && |r| <= |s| && r == s[|s| - |r|..]
      && (r == [] || !IsWhiteSpace(r[0]))
      && forall i :: 0 <= i < |s| - |r| ==> IsWhiteSpace(s[i])
  {
    if s != [] && IsWhiteSpace(s[0]) {
      TrimStartSpec(s[1..]);
    }
  }

  /** `string.TrimEnd()`: drops trailing white space. */
  function TrimEnd(s: string): string {
    if s == [] || !IsWhiteSpace(s[|s| - 1]) then s else TrimEnd(s[..|s| - 1])
  }

  /** What `TrimEnd` keeps is a prefix that ends with a non-blank; all it drops is blank. */
  lemma {:induction false} TrimEndSpec(s: string)
    ensures var r := TrimEnd(s);
      && |r| <= |s| && r == s[..|r|]
      && (r == [] || !IsWhiteSpace(r[|r| - 1]))
      && forall i :: |r| <= i < |s| ==> IsWhiteSpace(s[i])
  {
    if s != [] && IsWhiteSpace(s[|s| - 1]) {
      TrimEndSpec(s[..|s| - 1]);
    }
  }

  /**
   * `string.Length`: the number of UTF-16 code units, two for a character outside the Basic
   * Multilingual Plane (a surrogate pair) and one for any other.
   */
  function Utf16Length(s: string): (n: nat)
    ensures |s| <= n <= 2 * |s|
  {
    if s == [] then 0 else Utf16Length(s[..|s| - 1]) + (if s[|s| - 1] as int >= 0x1_0000 then 2 else 1)
  }

  /** Text within the Basic Multilingual Plane has as many code units as characters. */
  lemma {:induction false} Utf16LengthBmp(s: string)
    requires forall i :: 0 <= i < |s| ==> s[i] as int < 0x1_0000
    ensures Utf16Length(s) == |s|
  {
    if s != [] {
      Utf16LengthBmp(s[..|s| - 1]);
    }
  }

  /** `string.Trim()`. */
  function Trim(s: string): string {
    TrimEnd(TrimStart(s))
  }

  /** A string that neither starts nor ends with white space is its own trimmed form. */
  lemma TrimKeeps(s: string)
    requires s != [] && !IsWhiteSpace(s[0]) && !IsWhiteSpace(s[|s| - 1])
    ensures Trim(s) == s
  {
  }

  /** `s.TrimEnd(c)`: drops every trailing `c`. */
  function TrimEndChar(s: string, c: char): (r: string)
    ensures r <= s && (r == [] || r[|r| - 1] != c)
    ensures forall i :: |r| <= i < |s| ==> s[i] == c
  {
    if s == [] || s[|s| - 1] != c then s else TrimEndChar(s[..|s| - 1], c)
  }

  /** `string.IsNullOrWhiteSpace`. */
  predicate IsNullOrWhiteSpace(s: Option<string>) {
    s.None? || forall i :: 0 <= i < |s.value| ==> IsWhiteSpace(s.value[i])
  }

  /** `s.StartsWith(prefix, StringComparison.Ordinal)`. */
  predicate StartsWith(s: string, prefix: string) {
    prefix <= s
  }

  /** `s.IndexOf(c)`: the first position of `c`, or `None` for -1. */
  function IndexOf(s: string, c: char): (r: Option<nat>)
    ensures r.None? <==> c !in s
    ensures r.Some? ==> r.value < |s| && s[r.value] == c && c !in s[..r.value]
  {
    if s == [] then None
    else if s[0] == c then Some(0)
    else match IndexOf(s[1..], c)
      case None => None
      case Some(i) => assert s[1..][..i] == s[1..i + 1]; Some(i + 1)
  }

  /** The pieces joined back with the separator between them. */
  function Join(parts: seq<string>, sep: char): string {
    if parts == [] then []
    else if |parts| == 1 then parts[0]
    else parts[0] + [sep] + Join(parts[1..], sep)
  }

  /** `s.Split(sep)`: the pieces between separators, empty pieces included. */
  function Split(s: string, sep: char): (r: seq<string>)
    ensures |r| >= 1
    ensures forall i :: 0 <= i < |r| ==> sep !in r[i]
    ensures Join(r, sep) == s
    decreases |s|
  {
    match IndexOf(s, sep)
    case None => [s]
    case Some(i) =>
      var rest := Split(s[i + 1..], sep);
      assert s == s[..i] + [sep] + s[i + 1..];
      [s[..i]] + rest
  }

  /** Ordinal case-insensitive comparison maps each character to upper case (ASCII letters here). */
  function FoldChar(c: char): char {
    if 'a' <= c <= 'z' then (c as int - 32) as char else c
  }

  /** The form under which `StringComparer.OrdinalIgnoreCase` compares a string. */
  function FoldCase(s: string): (r: string)
    ensures |r| == |s| && forall i :: 0 <= i < |s| ==> r[i] == FoldChar(s[i])
  {
    seq(|s|, i requires 0 <= i < |s| => FoldChar(s[i]))
  }

  // ---------------------------------------------------------------------------
  // Decimal integers: `int.ToString()` and `int.TryParse(string, out int)`.
  // ---------------------------------------------------------------------------

  const Int32Min: int := -0x8000_0000
  const Int32Max: int := 0x7FFF_FFFF

  predicate IsInt32(n: int) { Int32Min <= n <= Int32Max }

  predicate IsDigit(c: char) { '0' <= c <= '9' }

  function DigitChar(d: nat): (c: char)
    requires d < 10
    ensures IsDigit(c)
  {
    ('0' as int + d) as char
  }

  /** The value of a run of decimal digits, most significant first. */
  function DigitsValue(s: string): nat
    requires forall i :: 0 <= i < |s| ==> IsDigit(s[i])
  {
    if s == [] then 0
    else
      assert IsDigit(s[|s| - 1]);
      DigitsValue(s[..|s| - 1]) * 10 + (s[|s| - 1] as int - '0' as int)
  }

  /** The shortest decimal digits of `n`. */
  function NatToDigits(n: nat): (s: string)
    ensures s != [] && forall i :: 0 <= i < |s| ==> IsDigit(s[i])
  {
    if n < 10 then [DigitChar(n)] else NatToDigits(n / 10) + [DigitChar(n % 10)]
  }

  lemma {:induction false} DigitsRoundTrip(n: nat)
    ensures DigitsValue(NatToDigits(n)) == n
  {
    if n >= 10 {
      var s := NatToDigits(n);
      assert s[..|s| - 1] == NatToDigits(n / 10);
      DigitsRoundTrip(n / 10);
    }
  }

  /** `int.ToString()` in the invariant culture. */
  function IntToString(n: int): (s: string)
    ensures s != []
  {
    if n < 0 then "-" + NatToDigits(-n) else NatToDigits(n)
  }

  /** NumberStyles.Integer white space: U+0009 to U+000D and U+0020. */
  predicate IsNumberWhite(c: char) { '\U{9}' <= c <= '\U{D}' || c == ' ' }

  function TrimNumberWhite(s: string): (r: string)
    ensures |r| <= |s|
  {
    if s != [] && IsNumberWhite(s[0]) then TrimNumberWhite(s[1..])
    else if s != [] && IsNumberWhite(s[|s| - 1]) then TrimNumberWhite(s[..|s| - 1])
    else s
  }

  /**
   * `int.TryParse(s, out n)`: optional surrounding white space, an optional sign and at
   * least one decimal digit, with the value inside the 32-bit range.
   */
  function ParseInt32(s: string): (r: Option<int>)
    ensures r.Some? ==> IsInt32(r.value)
  {
    var t := TrimNumberWhite(s);
    var negative := t != [] && t[0] == '-';
    var body := if t != [] && (t[0] == '-' || t[0] == '+') then t[1..] else t;
    if body == [] || exists i :: 0 <= i < |body| && !IsDigit(body[i]) then None
    else
      var magnitude: int := DigitsValue(body);
      var v := if negative then -magnitude else magnitude;
      if IsInt32(v) then Some(v) else None
  }

  /** What `int.ToString()` writes, `int.TryParse` reads back. */
  lemma IntRoundTrip(n: int)
    requires IsInt32(n)
    ensures ParseInt32(IntToString(n)) == Some(n)
  {
    var s := IntToString(n);
    if n < 0 {
      DigitsRoundTrip(-n);
      assert s[1..] == NatToDigits(-n);
    } else {
      DigitsRoundTrip(n);
    }
    assert TrimNumberWhite(s) == s;
  }

  // ---------------------------------------------------------------------------
  // Guid: 32 hexadecimal digits; `ToString()` is the "D" form 8-4-4-4-12.
  // ---------------------------------------------------------------------------

  newtype Nibble = x: int | 0 <= x < 16

  type Guid = s: seq<Nibble> | |s| == 32 witness EmptyGuid()

  /** `Guid.Empty`. */
  function EmptyGuid(): (g: seq<Nibble>)
    ensures |g| == 32
  {
    seq(32, _ => 0 as Nibble)
  }

  function HexChar(n: Nibble): char {
    if n < 10 then ('0' as int + n as int) as char else ('a' as int + n as int - 10) as char
  }

  predicate IsHexChar(c: char) {
    ('0' <= c <= '9') || ('a' <= c <= 'f') || ('A' <= c <= 'F')
  }

  function HexValue(c: char): Nibble
    requires IsHexChar(c)
  {
    if c <= '9' then (c as int - '0' as int) as Nibble
    else if c <= 'F' then (c as int - 'A' as int + 10) as Nibble
    else (c as int - 'a' as int + 10) as Nibble
  }

  lemma HexRoundTrip(n: Nibble)
    ensures IsHexChar(HexChar(n)) && HexValue(HexChar(n)) == n
  {
  }

  function Hex(s: seq<Nibble>): (r: string)
    ensures |r| == |s|
  {
    seq(|s|, i requires 0 <= i < |s| => HexChar(s[i]))
  }

  predicate AllHex(s: string) {
    forall i :: 0 <= i < |s| ==> IsHexChar(s[i])
  }

  function Nibbles(s: string): (r: seq<Nibble>)
    requires AllHex(s)
    ensures |r| == |s|
  {
    seq(|s|, i requires 0 <= i < |s| => HexValue(s[i]))
  }

  lemma HexNibblesRoundTrip(s: seq<Nibble>)
    ensures AllHex(Hex(s)) && Nibbles(Hex(s)) == s
  {
    forall i | 0 <= i < |s| ensures IsHexChar(Hex(s)[i]) && HexValue(Hex(s)[i]) == s[i] {
      HexRoundTrip(s[i]);
    }
  }

  /** `Guid.ToString()`: lower-case "D" form. */
  function GuidToString(g: Guid): (r: string)
    ensures |r| == 36
  {
    Hex(g[..8]) + "-" + Hex(g[8..12]) + "-" + Hex(g[12..16]) + "-" + Hex(g[16..20]) + "-" + Hex(g[20..])
  }

  /** The "D" form: 36 characters, hyphens at 8, 13, 18 and 23, hexadecimal digits elsewhere. */
  function ParseD(t: string): Option<Guid>
  {
    if |t| == 36 && t[8] == '-' && t[13] == '-' && t[18] == '-' && t[23] == '-' then
      var digits := t[..8] + t[9..13] + t[14..18] + t[19..23] + t[24..];
      if AllHex(digits) then Some(Nibbles(digits)) else None
    else None
  }

  /**
   * `Guid.TryParse`: after trimming white space, the "D" form, the "N" form (32 digits),
   * or the "D" form inside braces ("B") or parentheses ("P"); digits in either case.
   */
  function ParseGuid(s: string): (r: Option<Guid>)
  {
    var t := Trim(s);
    if |t| == 32 then (if AllHex(t) then Some(Nibbles(t)) else None)
    else if |t| == 38 && ((t[0] == '{' && t[37] == '}') || (t[0] == '(' && t[37] == ')')) then ParseD(t[1..37])
    else ParseD(t)
  }

  /** What `Guid.ToString()` writes, `Guid.TryParse` reads back. */
  lemma GuidRoundTrip(g: Guid)
    ensures ParseGuid(GuidToString(g)) == Some(g)
  {
    var s := GuidToString(g);
    HexNibblesRoundTrip(g[..8]);
    HexNibblesRoundTrip(g[20..]);
    TrimKeeps(s);
    var digits := s[..8] + s[9..13] + s[14..18] + s[19..23] + s[24..];
    assert digits == Hex(g);
    HexNibblesRoundTrip(g);
  }
}
