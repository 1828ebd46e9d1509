// Decimal numbers, and the two ways this program frames text so that no two
// lists of fields run together: a decimal length and a colon, or eight bytes of
// big-endian length. A char of a `string` stands for one byte of a Go string.
module Text {
  import opened Common

  // ---------------------------------------------------------------------
  // Decimal
  // ---------------------------------------------------------------------

  predicate IsDigit(c: char) {
    '0' <= c <= '9'
  }

  predicate AllDigits(s: string) {
    forall i | 0 <= i < |s| :: IsDigit(s[i])
  }

  /** strconv.Itoa of a length or a count. */
  function FormatNat(n: nat): (s: string)
    ensures s != [] && AllDigits(s)
  {
    var last := [(n % 10 + '0' as int) as char];
    if n < 10 then last else FormatNat(n / 10) + last
  }

  function DigitsValue(s: string): nat
    requires AllDigits(s)
  {
    if s == [] then 0 else 10 * DigitsValue(s[..|s| - 1]) + (s[|s| - 1] as int - '0' as int)
  }

  /** strconv.ParseUint in base ten for an unsigned integer below `limit`. */
  function ParseUint(s: string, limit: nat): Option<nat> {
    if s == [] || !AllDigits(s) || DigitsValue(s) >= limit then None else Some(DigitsValue(s))
  }

  lemma {:induction false} ValueOfFormat(n: nat)
    ensures DigitsValue(FormatNat(n)) == n
  {
    var s := FormatNat(n);
    if n < 10 {
      assert s[..0] == [];
    } else {
      ValueOfFormat(n / 10);
      assert s[..|s| - 1] == FormatNat(n / 10);
    }
  }

  /** What was formatted parses back, as long as it fits. */
  lemma {:induction false} ParseOfFormat(n: nat, limit: nat)
    ensures ParseUint(FormatNat(n), limit) == if n < limit then Some(n) else None
  {
    ValueOfFormat(n);
  }

  lemma {:induction false} FormatNatInjective(n: nat, m: nat)
    requires FormatNat(n) == FormatNat(m)
    ensures n == m
  {
    ValueOfFormat(n);
    ValueOfFormat(m);
  }

  /** strconv.FormatInt. */
  function FormatInt(i: int): string {
    if i < 0 then "-" + FormatNat(-i) else FormatNat(i)
  }

  lemma FormatIntInjective(i: int, j: int)
    requires FormatInt(i) == FormatInt(j)
    ensures i == j
  {
    assert i < 0 ==> FormatInt(i)[0] == '-' && FormatInt(i)[1..] == FormatNat(-i);
    assert j < 0 ==> FormatInt(j)[0] == '-' && FormatInt(j)[1..] == FormatNat(-j);
    assert i >= 0 ==> IsDigit(FormatInt(i)[0]);
    assert j >= 0 ==> IsDigit(FormatInt(j)[0]);
    FormatNatInjective(if i < 0 then -i else i, if j < 0 then -j else j);
  }

  // ---------------------------------------------------------------------
  // A decimal count and a colon
  // ---------------------------------------------------------------------

  function Counted(n: nat): string {
    FormatNat(n) + ":"
  }

  /** A counted number ends where its colon is, whatever follows. */
  lemma CountedSplits(n: nat, x: string, m: nat, y: string)
    requires Counted(n) + x == Counted(m) + y
    ensures n == m && x == y
  {
    var a, b, s := FormatNat(n), FormatNat(m), Counted(n) + x;
    assert s[|a|] == ':' && s[|b|] == ':';
    assert forall i | 0 <= i < |a| :: s[i] == a[i];
    assert forall i | 0 <= i < |b| :: s[i] == b[i];
    assert |a| == |b|;
    assert a == s[..|a|] == b;
    FormatNatInjective(n, m);
    assert x == s[|a| + 1..] == y;
  }

  /** The "%d:%s" framing of one field. */
  function Field(s: string): (t: string)
    ensures |s| < |t|
  {
    Counted(|s|) + s
  }

  lemma FieldSplits(a: string, x: string, b: string, y: string)
    requires Field(a) + x == Field(b) + y
    ensures a == b && x == y
  {
    assert Field(a) + x == Counted(|a|) + (a + x);
    assert Field(b) + y == Counted(|b|) + (b + y);
    CountedSplits(|a|, a + x, |b|, b + y);
    assert a == (a + x)[..|a|] && x == (a + x)[|a|..];
    assert b == (b + y)[..|b|] && y == (b + y)[|b|..];
  }

  function Fields(fs: seq<string>): string {
    if fs == [] then "" else Field(fs[0]) + Fields(fs[1..])
  }

  lemma {:induction false} FieldsInjective(fs: seq<string>, gs: seq<string>)
    requires Fields(fs) == Fields(gs)
    ensures fs == gs
    decreases |fs|
  {
    if fs != [] && gs != [] {
      FieldSplits(fs[0], Fields(fs[1..]), gs[0], Fields(gs[1..]));
      FieldsInjective(fs[1..], gs[1..]);
      assert fs == [fs[0]] + fs[1..] && gs == [gs[0]] + gs[1..];
    }
  }

  // ---------------------------------------------------------------------
  // Eight bytes of big-endian length
  // ---------------------------------------------------------------------

  const WORD := 0x1_0000_0000_0000_0000

  function Pow256(k: nat): nat {
    if k == 0 then 1 else 256 * Pow256(k - 1)
  }

  /** The last `k` bytes of a number, most significant first. */
  function BigEndian(n: nat, k: nat): (s: string)
    ensures |s| == k
    decreases k
  {
    if k == 0 then [] else BigEndian(n / 256, k - 1) + [(n % 256) as char]
  }

  /** The number bytes spell, most significant first. */
  function BigValue(s: string): nat {
    if s == [] then 0 else 256 * BigValue(s[..|s| - 1]) + s[|s| - 1] as nat
  }

  lemma {:induction false} BigEndianValue(n: nat, k: nat)
    requires n < Pow256(k)
    ensures BigValue(BigEndian(n, k)) == n
    decreases k
  {
    if k > 0 {
      BigEndianValue(n / 256, k - 1);
      assert BigEndian(n, k)[..k - 1] == BigEndian(n / 256, k - 1);
    }
  }

  /** Text whose length fits the eight bytes, as every Go string's does. */
  predicate Short(s: string) {
    |s| < WORD
  }

  function Frame(s: string): (t: string)
    ensures |t| == |s| + 8
  {
    BigEndian(|s|, 8) + s
  }

  lemma FrameSplits(a: string, x: string, b: string, y: string)
    requires Short(a) && Short(b) && Frame(a) + x == Frame(b) + y
    ensures a == b && x == y
  {
    hide BigEndian;
    var s := Frame(a) + x;
    assert BigEndian(|a|, 8) == s[..8] == BigEndian(|b|, 8);
    assert Pow256(8) == WORD;
    BigEndianValue(|a|, 8);
    BigEndianValue(|b|, 8);
    assert a == s[8..8 + |a|] == b;
    assert x == s[8 + |a|..] == y;
  }

  function Frames(fs: seq<string>): string {
    if fs == [] then "" else Frame(fs[0]) + Frames(fs[1..])
  }

  predicate AllShort(fs: seq<string>) {
    forall i | 0 <= i < |fs| :: Short(fs[i])
  }

  lemma {:induction false} FramesInjective(fs: seq<string>, gs: seq<string>)
    requires AllShort(fs) && AllShort(gs) && Frames(fs) == Frames(gs)
    ensures fs == gs
    decreases |fs|
  {
    hide Frame, Short;
    if fs != [] && gs != [] {
      FrameSplits(fs[0], Frames(fs[1..]), gs[0], Frames(gs[1..]));
      FramesInjective(fs[1..], gs[1..]);
      assert fs == [fs[0]] + fs[1..] && gs == [gs[0]] + gs[1..];
    }
  }
}
