// UTF-8 as the Go standard library reads and writes it: sections 3 and 4 of
// RFC 3629, over arbitrary bytes that need not be valid.
module Utf8 {

  type Byte = b: int | 0 <= b < 256

  /** A Unicode scalar value: a code point that is not a surrogate. */
  type Scalar = r: int | 0 <= r <= 0x10FFFF && !(0xD800 <= r <= 0xDFFF)

  /** One step of utf8.DecodeRune. `Invalid` is the answer (RuneError, 1). */
  datatype Decoded = Rune(r: Scalar, width: nat) | Invalid

  predicate Continuation(b: Byte) {
    0x80 <= b < 0xC0
  }

  /** `needle` is in `hay` from position `p` on. */
  predicate At(hay: seq<Byte>, p: nat, needle: seq<Byte>) {
    p + |needle| <= |hay| && forall j | 0 <= j < |needle| :: hay[p + j] == needle[j]
  }

  function Encode(r: Scalar): (s: seq<Byte>)
    ensures 1 <= |s| <= 4
    ensures !Continuation(s[0])
    ensures forall i | 1 <= i < |s| :: Continuation(s[i])
  {
    if r < 0x80 then [r]
    else if r < 0x800 then [0xC0 + r / 64, 0x80 + r % 64]
    else if r < 0x10000 then [0xE0 + r / 64 / 64, 0x80 + r / 64 % 64, 0x80 + r % 64]
    else [0xF0 + r / 64 / 64 / 64, 0x80 + r / 64 / 64 % 64, 0x80 + r / 64 % 64, 0x80 + r % 64]
  }

  /** One more six-bit group on the right of `high`. */
  function Glue(high: int, b: int): (r: int)
    ensures 0x80 <= b < 0xC0 ==> r / 64 == high && r % 64 == b - 0x80
  {
    high * 64 + (b - 0x80)
  }

  /** The smallest second byte that may follow a first byte. */
  function SecondLow(first: Byte): Byte {
    if first == 0xE0 then 0xA0 else if first == 0xF0 then 0x90 else 0x80
  }

  /** The largest second byte that may follow a first byte. */
  function SecondHigh(first: Byte): Byte {
    if first == 0xED then 0x9F else if first == 0xF4 then 0x8F else 0xBF
  }

  /** utf8.DecodeRune of the bytes from offset `i` on. */
  function Decode(s: seq<Byte>, i: nat): (d: Decoded)
    requires i < |s|
    ensures d.Rune? ==> 1 <= d.width <= 4 && i + d.width <= |s|
  {
    var a, n := s[i], |s| - i;
    if a < 0x80 then Rune(a, 1)
    else if a < 0xC2 || 0xF4 < a || n < 2 || !(SecondLow(a) <= s[i + 1] <= SecondHigh(a)) then Invalid
    else if a < 0xE0 then Rune(Glue(a - 0xC0, s[i + 1]), 2)
    else if n < 3 || !Continuation(s[i + 2]) then Invalid
    else if a < 0xF0 then Rune(Glue(Glue(a - 0xE0, s[i + 1]), s[i + 2]), 3)
    else if n < 4 || !Continuation(s[i + 3]) then Invalid
    else Rune(Glue(Glue(Glue(a - 0xF0, s[i + 1]), s[i + 2]), s[i + 3]), 4)
  }

  /** Section 3 of RFC 3629: how many bytes a scalar takes, the bits that say so, and its own bits in order, six to a
      byte after the first. */
  lemma EncodingIs(r: Scalar)
    ensures var e := Encode(r);
            && (r <= 0x7F ==> |e| == 1 && e[0] == r)
            && (0x80 <= r <= 0x7FF ==> |e| == 2 && 0xC0 <= e[0] < 0xE0 && (e[0] as int - 0xC0) * 0x40 + (e[1] as int - 0x80) == r)
            && (0x800 <= r <= 0xFFFF ==>
                  |e| == 3 && 0xE0 <= e[0] < 0xF0
                  && (e[0] as int - 0xE0) * 0x1000 + (e[1] as int - 0x80) * 0x40 + (e[2] as int - 0x80) == r)
            && (0x1_0000 <= r ==>
                  |e| == 4 && 0xF0 <= e[0] < 0xF8
                  && (e[0] as int - 0xF0) * 0x4_0000 + (e[1] as int - 0x80) * 0x1000 + (e[2] as int - 0x80) * 0x40 + (e[3] as int - 0x80) == r)
  {
    assert r == r / 64 * 64 + r % 64;
    assert r / 64 == r / 64 / 64 * 64 + r / 64 % 64;
    assert r / 64 / 64 == r / 64 / 64 / 64 * 64 + r / 64 / 64 % 64;
  }

  /** An encoding decodes to what was encoded, whatever follows it. */
  lemma DecodeOfEncoding(r: Scalar, s: seq<Byte>, i: nat)
    requires At(s, i, Encode(r))
    ensures i < |s| && Decode(s, i) == Rune(r, |Encode(r)|)
  {
    var e := Encode(r);
    assert s[i + 0] == e[0];
    if r < 0x80 {
    } else if r < 0x800 {
      assert s[i + 1] == e[1];
      assert Glue(r / 64, e[1]) == r;
    } else if r < 0x10000 {
      assert s[i + 1] == e[1] && s[i + 2] == e[2];
      assert Glue(r / 64 / 64, e[1]) == r / 64;
      assert Glue(r / 64, e[2]) == r;
    } else {
      assert s[i + 1] == e[1] && s[i + 2] == e[2] && s[i + 3] == e[3];
      assert Glue(r / 64 / 64 / 64, e[1]) == r / 64 / 64;
      assert Glue(r / 64 / 64, e[2]) == r / 64;
      assert Glue(r / 64, e[3]) == r;
    }
  }

  /** A valid decoding spells out exactly the bytes it took. */
  lemma EncodeOfDecoded(s: seq<Byte>, i: nat)
    requires i < |s| && Decode(s, i).Rune?
    ensures |Encode(Decode(s, i).r)| == Decode(s, i).width && At(s, i, Encode(Decode(s, i).r))
  {
    var e, a := Encode(Decode(s, i).r), s[i];
    if a < 0x80 {
      assert e == [a];
    } else if a < 0xE0 {
      assert e == [a, s[i + 1]];
    } else if a < 0xF0 {
      assert e == [a, s[i + 1], s[i + 2]];
    } else {
      assert e == [a, s[i + 1], s[i + 2], s[i + 3]];
    }
  }

  /** Where `s` is in `t`, what a valid decoding in `s` says `t` says too. */
  lemma DecodeInside(s: seq<Byte>, i: nat, t: seq<Byte>, p: nat)
    requires At(t, p, s) && i < |s| && Decode(s, i).Rune?
    ensures Decode(t, p + i) == Decode(s, i)
  {
  }
}
