/**
 * Base 64 encoding with the standard alphabet and '=' padding, as defined in section 4
 * of RFC 4648 (the encoding `Convert.ToBase64String` produces).
 */
module Base64 {
  import opened Wrappers

  newtype byte = x: int | 0 <= x < 256

  /** A 6-bit value, the index of one character of the alphabet. */
  type Index = x: int | 0 <= x < 64

  /** The alphabet of Table 1 of RFC 4648: A-Z, a-z, 0-9, '+', '/'. */
  function IndexChar(i: Index): char {
    if i < 26 then ('A' as int + i) as char
    else if i < 52 then ('a' as int + i - 26) as char
    else if i < 62 then ('0' as int + i - 52) as char
    else if i == 62 then '+'
    else '/'
  }

  predicate IsAlphabetChar(c: char) {
    ('A' <= c <= 'Z') || ('a' <= c <= 'z') || ('0' <= c <= '9') || c == '+' || c == '/'
  }

  function CharIndex(c: char): Index
    requires IsAlphabetChar(c)
  {
    if 'A' <= c <= 'Z' then c as int - 'A' as int
    else if 'a' <= c <= 'z' then c as int - 'a' as int + 26
    else if '0' <= c <= '9' then c as int - '0' as int + 52
    else if c == '+' then 62
    else 63
  }

  lemma IndexCharInverse(i: Index)
    ensures IsAlphabetChar(IndexChar(i)) && CharIndex(IndexChar(i)) == i
  {
  }

  /** Three bytes become four characters. */
  function EncodeGroup(b0: byte, b1: byte, b2: byte): string {
    [IndexChar(b0 as int / 4), IndexChar((b0 as int % 4) * 16 + b1 as int / 16),
     IndexChar((b1 as int % 16) * 4 + b2 as int / 64), IndexChar(b2 as int % 64)]
  }

  /** A final quantum of two bytes: three characters and one '='. */
  function EncodePair(b0: byte, b1: byte): string {
    [IndexChar(b0 as int / 4), IndexChar((b0 as int % 4) * 16 + b1 as int / 16), IndexChar((b1 as int % 16) * 4), '=']
  }

  /** A final quantum of one byte: two characters and two '='. */
  function EncodeSingle(b0: byte): string {
    [IndexChar(b0 as int / 4), IndexChar((b0 as int % 4) * 16), '=', '=']
  }

  /**
   * The encoding of a whole byte string: full groups first, then a final quantum of one
   * byte ("xx==") or two bytes ("xxx=").
   */
  function Encode(s: seq<byte>): (r: string)
    ensures |r| == 4 * ((|s| + 2) / 3)
  {
    if |s| >= 3 then
      assert (|s| + 2) / 3 == (|s[3..]| + 2) / 3 + 1;
      EncodeGroup(s[0], s[1], s[2]) + Encode(s[3..])
    else if |s| == 2 then EncodePair(s[0], s[1])
    else if |s| == 1 then EncodeSingle(s[0])
    else []
  }

  predicate AllAlphabet(t: string) {
    forall i :: 0 <= i < |t| ==> IsAlphabetChar(t[i])
  }

  /** Four alphabet characters become three bytes. */
  function DecodeGroup(t: string): (r: seq<byte>)
    requires |t| == 4 && AllAlphabet(t)
    ensures |r| == 3
  {
    var c0, c1, c2, c3 := CharIndex(t[0]), CharIndex(t[1]), CharIndex(t[2]), CharIndex(t[3]);
    [(c0 * 4 + c1 / 16) as byte, ((c1 % 16) * 16 + c2 / 4) as byte, ((c2 % 4) * 64 + c3) as byte]
  }

  /** The last quantum, which may carry one or two '=' pad characters. */
  function DecodeLast(t: string): Option<seq<byte>>
    requires |t| == 4
  {
    if AllAlphabet(t) then Some(DecodeGroup(t))
    else if AllAlphabet(t[..3]) && t[3] == '=' then
      var c0, c1, c2 := CharIndex(t[0]), CharIndex(t[1]), CharIndex(t[2]);
      Some([(c0 * 4 + c1 / 16) as byte, ((c1 % 16) * 16 + c2 / 4) as byte])
    else if AllAlphabet(t[..2]) && t[2] == '=' && t[3] == '=' then
      var c0, c1 := CharIndex(t[0]), CharIndex(t[1]);
      Some([(c0 * 4 + c1 / 16) as byte])
    else None
  }

  /**
   * Decoding of well-formed input: a multiple of four characters from the alphabet, with
   * padding only in the last quantum.
   */
  function Decode(t: string): Option<seq<byte>>
    decreases |t|
  {
    if t == [] then Some([])
    else if |t| < 4 then None
    else if |t| == 4 then DecodeLast(t)
    else if !AllAlphabet(t[..4]) then None
    else match Decode(t[4..])
      case None => None
      case Some(rest) => Some(DecodeGroup(t[..4]) + rest)
  }

  lemma Split(x: int, y: int, k: int)
    requires k == 4 || k == 16 || k == 64
    requires 0 <= y < k
    ensures (x * k + y) / k == x && (x * k + y) % k == y
  {
    if k == 4 {
      assert x * 4 + y == 4 * x + y;
    } else if k == 16 {
      assert x * 16 + y == 16 * x + y;
    } else {
      assert x * 64 + y == 64 * x + y;
    }
  }

  /** The arithmetic of one group: the four 6-bit indices give back the three bytes. */
  lemma GroupArithmetic(b0: byte, b1: byte, b2: byte)
    ensures var i0, i1, i2, i3 := b0 as int / 4, (b0 as int % 4) * 16 + b1 as int / 16,
                                  (b1 as int % 16) * 4 + b2 as int / 64, b2 as int % 64;
      && 0 <= i0 < 64 && 0 <= i1 < 64 && 0 <= i2 < 64 && 0 <= i3 < 64
      && i0 * 4 + i1 / 16 == b0 as int
      && (i1 % 16) * 16 + i2 / 4 == b1 as int
      && (i2 % 4) * 64 + i3 == b2 as int
  {
    Split(b0 as int % 4, b1 as int / 16, 16);
    Split(b1 as int % 16, b2 as int / 64, 4);
  }

  lemma GroupRoundTrip(b0: byte, b1: byte, b2: byte)
    ensures AllAlphabet(EncodeGroup(b0, b1, b2)) && DecodeGroup(EncodeGroup(b0, b1, b2)) == [b0, b1, b2]
  {
    GroupArithmetic(b0, b1, b2);
    var i0, i1, i2, i3 := b0 as int / 4, (b0 as int % 4) * 16 + b1 as int / 16, (b1 as int % 16) * 4 + b2 as int / 64, b2 as int % 64;
    IndexCharInverse(i0);
    IndexCharInverse(i1);
    IndexCharInverse(i2);
    IndexCharInverse(i3);
  }

  /** The two-byte quantum decodes back through its one-pad branch. */
  lemma PairRoundTrip(b0: byte, b1: byte)
    ensures var e := EncodePair(b0, b1);
      !AllAlphabet(e) && AllAlphabet(e[..3]) && e[3] == '=' && DecodeLast(e) == Some([b0, b1])
  {
    var e := EncodePair(b0, b1);
    GroupArithmetic(b0, b1, 0);
    IndexCharInverse(b0 as int / 4);
    IndexCharInverse((b0 as int % 4) * 16 + b1 as int / 16);
    IndexCharInverse((b1 as int % 16) * 4);
    assert !IsAlphabetChar(e[3]);
    assert CharIndex(e[2]) / 4 == b1 as int % 16;
  }

  /** The one-byte quantum decodes back through its two-pad branch. */
  lemma SingleRoundTrip(b0: byte)
    ensures var e := EncodeSingle(b0);
      !AllAlphabet(e) && !AllAlphabet(e[..3]) && DecodeLast(e) == Some([b0])
  {
    var e := EncodeSingle(b0);
    GroupArithmetic(b0, 0, 0);
    IndexCharInverse(b0 as int / 4);
    IndexCharInverse((b0 as int % 4) * 16);
    assert !IsAlphabetChar(e[3]);
    assert !IsAlphabetChar(e[2]);
    assert AllAlphabet(e[..2]);
  }

  /** A full group of alphabet characters in front of decodable text decodes in front of its bytes. */
  lemma DecodeFront(g: string, t: string)
    requires |g| == 4 && AllAlphabet(g) && Decode(t).Some?
    ensures Decode(g + t) == Some(DecodeGroup(g) + Decode(t).value)
  {
    if t == [] {
      assert g + t == g && DecodeGroup(g) + [] == DecodeGroup(g);
    } else {
      assert (g + t)[..4] == g && (g + t)[4..] == t;
    }
  }

  lemma FrontThree(s: seq<byte>)
    requires |s| >= 3
    ensures [s[0], s[1], s[2]] + s[3..] == s
  {
  }

  /** A full group in front: decoding reads it back and goes on with the rest. */
  lemma GroupStep(s: seq<byte>)
    requires |s| >= 3 && Decode(Encode(s[3..])) == Some(s[3..])
    ensures Decode(Encode(s)) == Some(s)
  {
    var head, tail := EncodeGroup(s[0], s[1], s[2]), Encode(s[3..]);
    GroupRoundTrip(s[0], s[1], s[2]);
    assert Encode(s) == head + tail;
    DecodeFront(head, tail);
    assert Decode(head + tail) == Some([s[0], s[1], s[2]] + s[3..]);
    FrontThree(s);
  }

  /** Decoding undoes encoding, for every byte string. */
  lemma {:induction false} RoundTrip(s: seq<byte>)
    ensures Decode(Encode(s)) == Some(s)
  {
    if |s| >= 3 {
      RoundTrip(s[3..]);
      GroupStep(s);
    } else if |s| == 2 {
      PairRoundTrip(s[0], s[1]);
      assert s == [s[0], s[1]];
    } else if |s| == 1 {
      SingleRoundTrip(s[0]);
      assert s == [s[0]];
    }
  }

  /** A full group in front keeps the alphabet-then-one-pad shape of the rest. */
  lemma GroupKeepsOnePad(s: seq<byte>)
    requires |s| >= 3
    requires var t := Encode(s[3..]); |t| > 0 && t[|t| - 1] == '=' && AllAlphabet(t[..|t| - 1])
    ensures var e := Encode(s); e[|e| - 1] == '=' && AllAlphabet(e[..|e| - 1])
  {
    var e := Encode(s);
    var head := EncodeGroup(s[0], s[1], s[2]);
    var tail := Encode(s[3..]);
    GroupRoundTrip(s[0], s[1], s[2]);
    assert e == head + tail;
    forall i | 0 <= i < |e| - 1 ensures IsAlphabetChar(e[i]) {
      if i >= 4 {
        assert e[i] == tail[..|tail| - 1][i - 4];
      } else {
        assert e[i] == head[i];
      }
    }
  }

  /**
   * When the length is 2 more than a multiple of 3, the encoding is alphabet characters
   * followed by exactly one '='.
   */
  lemma {:induction false} OnePad(s: seq<byte>)
    requires |s| % 3 == 2
    ensures var e := Encode(s); e[|e| - 1] == '=' && AllAlphabet(e[..|e| - 1])
  {
    if |s| >= 3 {
      OnePad(s[3..]);
      GroupKeepsOnePad(s);
    } else {
      PairRoundTrip(s[0], s[1]);
    }
  }
}
