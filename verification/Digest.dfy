// SHA-256 in hexadecimal, left uninterpreted: any function from text to
// sixty-four lower-case hexadecimal digits. No property of it is assumed, so
// every integrity theorem says "the same, or here are two distinct texts with
// one digest", and the two texts are ones the two records at hand hash.
module Digest {

  predicate HexDigit(c: char) {
    '0' <= c <= '9' || 'a' <= c <= 'f'
  }

  function Zeros(n: nat): (s: string)
    ensures |s| == n && forall i | 0 <= i < n :: s[i] == '0'
  {
    if n == 0 then "" else Zeros(n - 1) + "0"
  }

  type Hex = s: string | |s| == 64 && forall i | 0 <= i < |s| :: HexDigit(s[i])
    witness Zeros(64)

  datatype Hash = Hash(sum: string -> Hex)

  function Sum(h: Hash, text: string): Hex {
    h.sum(text)
  }

  /** Two distinct texts with one digest. */
  predicate Clash(h: Hash, x: string, y: string) {
    x != y && Sum(h, x) == Sum(h, y)
  }

  // strings.ToLower, on the ASCII letters: no other letter lowers to a
  // hexadecimal digit.

  function LowerChar(c: char): char {
    if 'A' <= c <= 'Z' then c + (32 as char) else c
  }

  function LowerText(s: string): (t: string)
    ensures |t| == |s| && forall i | 0 <= i < |s| :: t[i] == LowerChar(s[i])
  {
    seq(|s|, i requires 0 <= i < |s| => LowerChar(s[i]))
  }

  lemma LowerOfHex(s: Hex)
    ensures LowerText(s) == s
  {
  }
}
