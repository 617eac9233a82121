/**
 * Strict UTF-8, as Python's `bytes.decode('utf8')` and `str.encode('utf-8')` apply it: the
 * well-formed byte sequences of Table 3-7 of the Unicode Standard (no overlong forms, no
 * encoded surrogates, nothing above U+10FFFF). Dafny's `char` is a Unicode scalar value.
 */
module Utf8 {
  import opened Wrappers
  import opened Bytes

  predicate IsContinuation(b: int) {
    0x80 <= b < 0xC0
  }

  /** The shortest UTF-8 form of one scalar value, six payload bits per continuation byte. */
  function EncodeChar(c: char): (b: bytes)
    ensures 1 <= |b| <= 4
  {
    var n := c as int;
    var r0, q1 := n % 0x40, n / 0x40;
    var r1, q2 := q1 % 0x40, q1 / 0x40;
    var r2, q3 := q2 % 0x40, q2 / 0x40;
    if n < 0x80 then [n]
    else if n < 0x800 then [0xC0 + q1, 0x80 + r0]
    else if n < 0x1_0000 then [0xE0 + q2, 0x80 + r1, 0x80 + r0]
    else [0xF0 + q3, 0x80 + r2, 0x80 + r1, 0x80 + r0]
  }

  /** `s.encode('utf-8')`. */
  function Encode(s: string): bytes {
    if s == [] then [] else EncodeChar(s[0]) + Encode(s[1..])
  }

  /** The scalar value that `b` starts with and the number of bytes it takes, when well formed. */
  function DecodeFirst(b: bytes): (r: Option<(char, nat)>)
    requires |b| > 0
    ensures r.Some? ==> 1 <= r.value.1 <= |b| && r.value.1 <= 4
  {
    var b0 := b[0] as int;
    if b0 < 0x80 then Some((b0 as char, 1))
    else if 0xC2 <= b0 <= 0xDF then
      if |b| >= 2 && IsContinuation(b[1]) then
        Some((((b0 - 0xC0) * 0x40 + (b[1] as int - 0x80)) as char, 2))
      else None
    else if 0xE0 <= b0 <= 0xEF then
      var lo := if b0 == 0xE0 then 0xA0 else 0x80;
      var hi := if b0 == 0xED then 0x9F else 0xBF;
      if |b| >= 3 && lo <= b[1] <= hi && IsContinuation(b[2]) then
        var n := ((b0 - 0xE0) * 0x40 + (b[1] as int - 0x80)) * 0x40 + (b[2] as int - 0x80);
        assert n < 0xD800 || 0xE000 <= n < 0x1_0000;
        Some((n as char, 3))
      else None
    else if 0xF0 <= b0 <= 0xF4 then
      var lo := if b0 == 0xF0 then 0x90 else 0x80;
      var hi := if b0 == 0xF4 then 0x8F else 0xBF;
      if |b| >= 4 && lo <= b[1] <= hi && IsContinuation(b[2]) && IsContinuation(b[3]) then
        var n := (((b0 - 0xF0) * 0x40 + (b[1] as int - 0x80)) * 0x40 + (b[2] as int - 0x80)) * 0x40
          + (b[3] as int - 0x80);
        assert 0x1_0000 <= n < 0x11_0000;
        Some((n as char, 4))
      else None
    else None
  }

  /** `b.decode('utf8')`: the text `b` spells, or None when `b` is not well-formed UTF-8. */
  function Decode(b: bytes): (r: Option<string>)
    decreases |b|
  {
    if b == [] then Some([])
    else
      match DecodeFirst(b)
      case None => None
      case Some((c, n)) =>
        match Decode(b[n..])
        case None => None
        case Some(s) => Some([c] + s)
  }

  /** Each scalar value's encoding is read back as that value, whatever follows it. */
  lemma DecodeFirstEncodeChar(c: char, rest: bytes)
    ensures DecodeFirst(EncodeChar(c) + rest) == Some((c, |EncodeChar(c)|))
  {
    var n := c as int;
    var r0, q1 := n % 0x40, n / 0x40;
    var r1, q2 := q1 % 0x40, q1 / 0x40;
    var r2, q3 := q2 % 0x40, q2 / 0x40;
    assert n == q1 * 0x40 + r0 && q1 == q2 * 0x40 + r1 && q2 == q3 * 0x40 + r2;
  }

  /** A well-formed sequence read by DecodeFirst is exactly the encoding of the value read. */
  lemma EncodeCharDecodeFirst(b: bytes)
    requires |b| > 0 && DecodeFirst(b).Some?
    ensures EncodeChar(DecodeFirst(b).value.0) == b[..DecodeFirst(b).value.1]
  {
    var b0 := b[0] as int;
    if b0 < 0x80 {
    } else if b0 <= 0xDF {
      EncodeTwo(b0, b[1]);
    } else if b0 <= 0xEF {
      EncodeThree(b0, b[1], b[2]);
    } else {
      EncodeFour(b0, b[1], b[2], b[3]);
    }
  }

  /** Splitting off six payload bits undoes appending them. */
  lemma Payload(q: int, r: int)
    requires 0 <= r < 0x40
    ensures (q * 0x40 + r) / 0x40 == q && (q * 0x40 + r) % 0x40 == r
  {
  }

  lemma EncodeTwo(b0: int, b1: int)
    requires 0xC2 <= b0 <= 0xDF && IsContinuation(b1)
    ensures EncodeChar(((b0 - 0xC0) * 0x40 + (b1 - 0x80)) as char) == [b0, b1]
  {
    Payload(b0 - 0xC0, b1 - 0x80);
  }

  lemma EncodeThree(b0: int, b1: int, b2: int)
    requires 0xE0 <= b0 <= 0xEF && IsContinuation(b1) && IsContinuation(b2)
    requires b0 == 0xE0 ==> 0xA0 <= b1
    requires b0 == 0xED ==> b1 <= 0x9F
    ensures var n := ((b0 - 0xE0) * 0x40 + (b1 - 0x80)) * 0x40 + (b2 - 0x80);
      (n < 0xD800 || 0xE000 <= n < 0x1_0000) && EncodeChar(n as char) == [b0, b1, b2]
  {
    var q1 := (b0 - 0xE0) * 0x40 + (b1 - 0x80);
    Payload(q1, b2 - 0x80);
    Payload(b0 - 0xE0, b1 - 0x80);
  }

  lemma EncodeFour(b0: int, b1: int, b2: int, b3: int)
    requires 0xF0 <= b0 <= 0xF4 && IsContinuation(b1) && IsContinuation(b2) && IsContinuation(b3)
    requires b0 == 0xF0 ==> 0x90 <= b1
    requires b0 == 0xF4 ==> b1 <= 0x8F
    ensures var n := (((b0 - 0xF0) * 0x40 + (b1 - 0x80)) * 0x40 + (b2 - 0x80)) * 0x40 + (b3 - 0x80);
      0x1_0000 <= n < 0x11_0000 && EncodeChar(n as char) == [b0, b1, b2, b3]
  {
    var q2 := (b0 - 0xF0) * 0x40 + (b1 - 0x80);
    var q1 := q2 * 0x40 + (b2 - 0x80);
    Payload(q1, b3 - 0x80);
    Payload(q2, b2 - 0x80);
    Payload(b0 - 0xF0, b1 - 0x80);
  }

  /** Round trip: decoding the encoding of any text gives that text back. */
  lemma {:induction false} DecodeEncode(s: string)
    ensures Decode(Encode(s)) == Some(s)
  {
    if s != [] {
      var e := EncodeChar(s[0]);
      var b := Encode(s);
      assert b == e + Encode(s[1..]);
      DecodeFirstEncodeChar(s[0], Encode(s[1..]));
      assert b[|e|..] == Encode(s[1..]);
      DecodeEncode(s[1..]);
      assert [s[0]] + s[1..] == s;
    }
  }

  /** Decoding is exact: whatever decodes to a text is that text's encoding. */
  lemma {:induction false} EncodeDecode(b: bytes)
    requires Decode(b).Some?
    ensures Encode(Decode(b).value) == b
    decreases |b|
  {
    if b != [] {
      var (c, k) := DecodeFirst(b).value;
      var s := Decode(b[k..]).value;
      assert Decode(b).value == [c] + s;
      EncodeCharDecodeFirst(b);
      EncodeDecode(b[k..]);
      assert ([c] + s)[1..] == s;
      assert Encode([c] + s) == EncodeChar(c) + Encode(s);
      assert b == b[..k] + b[k..];
    }
  }
}
