// What bin_yara_scan's case-insensitive matcher means: the byte-by-byte
// definition of a match, the lowered copy of a file, and the theorem that a
// valid rule occurs in the lowered copy exactly where it matches the file.
module CaseFold {
  import opened Common
  import opened Utf8

  /** unicode.ToLower's table: any mapping of scalars to scalars that lowers ASCII as ASCII. */
  type Lowering = t: map<Scalar, Scalar> | forall c: Scalar :: c < 0x80 ==> ToLower(t, c) == AsciiLower(c)
    witness map c: Scalar | 'A' as int <= c <= 'Z' as int :: c + 32

  /** unicode.ToLower: a scalar the table does not list is its own lower case. */
  function ToLower(t: map<Scalar, Scalar>, r: Scalar): Scalar {
    if r in t then t[r] else r
  }

  function AsciiLower(c: Scalar): Scalar {
    if 'A' as int <= c <= 'Z' as int then c + 32 else c
  }

  /** The rune or the kept byte that starts at an offset of the file. */
  datatype Unit = Lowered(rune: Scalar, width: nat) | Kept

  function Width(u: Unit): nat {
    match u case Lowered(_, w) => w case Kept => 1
  }

  /** foldUnit. */
  function FoldUnit(f: Lowering, s: seq<Byte>, i: nat): (u: Unit)
    requires i < |s|
    ensures 1 <= Width(u) <= 4 && i + Width(u) <= |s|
  {
    if s[i] < 0x80 then
      Lowered(if 'A' as int <= s[i] <= 'Z' as int then s[i] + 32 else s[i], 1)
    else
      match Decode(s, i) case Rune(r, w) => Lowered(ToLower(f, r), w) case Invalid => Kept
  }

  /** The ASCII shortcut is only a shortcut. */
  lemma FoldUnitDecodes(f: Lowering, s: seq<Byte>, i: nat)
    requires i < |s|
    ensures FoldUnit(f, s, i) == match Decode(s, i) case Rune(r, w) => Lowered(ToLower(f, r), w) case Invalid => Kept
  {
  }

  /** Where the unit after the one at `i` starts. */
  function Next(f: Lowering, s: seq<Byte>, i: nat): (n: nat)
    requires i < |s|
    ensures i < n <= |s| && n <= i + 4
  {
    i + Width(FoldUnit(f, s, i))
  }

  /** What the unit at `i` contributes to the lowered copy. */
  function UnitBytes(f: Lowering, s: seq<Byte>, i: nat): (t: seq<Byte>)
    requires i < |s|
    ensures 1 <= |t| <= 4
    ensures forall j | 1 <= j < |t| :: Continuation(t[j])
    ensures Continuation(t[0]) ==> FoldUnit(f, s, i).Kept?
  {
    match FoldUnit(f, s, i) case Lowered(r, _) => Encode(r) case Kept => [s[i]]
  }

  /** The lowered copy of a file from `i` on; of a valid rule, strings.ToLower. */
  function Lower(f: Lowering, s: seq<Byte>, i: nat): seq<Byte>
    requires i <= |s|
    decreases |s| - i
  {
    if i == |s| then [] else UnitBytes(f, s, i) + Lower(f, s, Next(f, s, i))
  }

  /** utf8.ValidString of the bytes from `i` on. */
  predicate ValidText(s: seq<Byte>, i: nat)
    requires i <= |s|
    decreases |s| - i
  {
    i == |s| || (Decode(s, i).Rune? && ValidText(s, i + Decode(s, i).width))
  }

  /** caseFoldMatchAt from the rule's `k` on: where in the file the match ends. */
  function Match(f: Lowering, s: seq<Byte>, pos: nat, rule: seq<Byte>, k: nat): (end: Option<nat>)
    requires pos <= |s| && k <= |rule|
    ensures end.Some? ==> pos <= end.value <= |s|
    ensures end.Some? && k < |rule| ==> pos < end.value
    decreases |rule| - k
  {
    if k == |rule| then Some(pos)
    else if pos == |s| then None
    else match Decode(rule, k)
      case Invalid =>
        if s[pos] != rule[k] then None else Match(f, s, pos + 1, rule, k + 1)
      case Rune(r, w) =>
        var u := FoldUnit(f, s, pos);
        if u.Kept? || u.rune != ToLower(f, r) then None else Match(f, s, Next(f, s, pos), rule, k + w)
  }

  predicate MatchesAt(f: Lowering, s: seq<Byte>, at: nat, rule: seq<Byte>)
    requires at <= |s|
  {
    Match(f, s, at, rule, 0).Some?
  }

  /** Every offset tried in turn from `at`, skipping past each match found. */
  function Greedy(f: Lowering, s: seq<Byte>, rule: seq<Byte>, at: nat): seq<nat>
    requires rule != [] && at <= |s|
    decreases |s| - at
  {
    if at == |s| then []
    else match Match(f, s, at, rule, 0)
      case Some(end) => [at] + Greedy(f, s, rule, end)
      case None => Greedy(f, s, rule, at + 1)
  }

  // ---------------------------------------------------------------------
  // What a match is
  // ---------------------------------------------------------------------

  /** From `p` to `q` the file has what the rule has from `j` to `k`: a byte that is part of no rune and is the same, or
      a rune of each with one lower case. */
  predicate PairsUp(f: Lowering, s: seq<Byte>, p: nat, q: nat, rule: seq<Byte>, j: nat, k: nat) {
    && p < |s| && j < |rule|
    && match Decode(rule, j)
       case Invalid => s[p] == rule[j] && q == p + 1 && k == j + 1
       case Rune(r, w) =>
         && k == j + w && Decode(s, p).Rune? && q == p + Decode(s, p).width
         && ToLower(f, Decode(s, p).r) == ToLower(f, r)
  }

  /** The file cut at `ps` and the rule cut at `ks` pair up piece by piece. */
  predicate PairedAt(f: Lowering, s: seq<Byte>, ps: seq<nat>, rule: seq<Byte>, ks: seq<nat>) {
    && |ps| == |ks|
    && forall i | 0 < i < |ps| :: PairsUp(f, s, ps[i - 1], ps[i], rule, ks[i - 1], ks[i])
  }

  /** The cuts start at `pos` and `k`, and end at `end` and the end of the rule. */
  predicate Spans(ps: seq<nat>, ks: seq<nat>, pos: nat, k: nat, end: nat, size: nat) {
    && |ps| == |ks| > 0 && ps[0] == pos && ks[0] == k && ps[|ps| - 1] == end && ks[|ks| - 1] == size
  }

  ghost predicate Paired(f: Lowering, s: seq<Byte>, pos: nat, rule: seq<Byte>, k: nat, end: nat) {
    exists ps, ks :: PairedAt(f, s, ps, rule, ks) && Spans(ps, ks, pos, k, end, |rule|)
  }

  lemma {:induction false} MatchPairs(f: Lowering, s: seq<Byte>, pos: nat, rule: seq<Byte>, k: nat) returns (ps: seq<nat>, ks: seq<nat>)
    requires pos <= |s| && k <= |rule| && Match(f, s, pos, rule, k).Some?
    ensures PairedAt(f, s, ps, rule, ks) && Spans(ps, ks, pos, k, Match(f, s, pos, rule, k).value, |rule|)
    decreases |rule| - k
  {
    hide Decode, ToLower;
    ps, ks := [pos], [k];
    if k < |rule| {
      FoldUnitDecodes(f, s, pos);
      var q, m := if Decode(rule, k).Invalid? then pos + 1 else Next(f, s, pos),
        if Decode(rule, k).Invalid? then k + 1 else k + Decode(rule, k).width;
      var qs, ms := MatchPairs(f, s, q, rule, m);
      assert PairsUp(f, s, pos, q, rule, k, m);
      ps, ks := [pos] + qs, [k] + ms;
      forall i | 0 < i < |ps|
        ensures PairsUp(f, s, ps[i - 1], ps[i], rule, ks[i - 1], ks[i])
      {
        if i > 1 {
          assert ps[i] == qs[i - 1] && ps[i - 1] == qs[i - 2] && ks[i] == ms[i - 1] && ks[i - 1] == ms[i - 2];
          assert PairsUp(f, s, qs[i - 2], qs[i - 1], rule, ms[i - 2], ms[i - 1]);
        }
      }
    }
  }

  lemma {:induction false} PairsMatch(f: Lowering, s: seq<Byte>, ps: seq<nat>, rule: seq<Byte>, ks: seq<nat>, end: nat)
    requires PairedAt(f, s, ps, rule, ks) && |ps| > 0 && Spans(ps, ks, ps[0], ks[0], end, |rule|)
    requires ps[0] <= |s| && ks[0] <= |rule|
    ensures Match(f, s, ps[0], rule, ks[0]) == Some(end)
    decreases |ps|
  {
    hide Decode, ToLower;
    if |ps| > 1 {
      assert PairsUp(f, s, ps[0], ps[1], rule, ks[0], ks[1]);
      FoldUnitDecodes(f, s, ps[0]);
      var qs, ms := ps[1..], ks[1..];
      forall i | 0 < i < |qs|
        ensures PairsUp(f, s, qs[i - 1], qs[i], rule, ms[i - 1], ms[i])
      {
        assert PairsUp(f, s, ps[i], ps[i + 1], rule, ks[i], ks[i + 1]);
      }
      PairsMatch(f, s, qs, rule, ms, end);
    }
  }

  /** A rule, valid or not, matches at an offset and ends at another exactly if from the one to the other the file pairs
      up with it: its runes with runes of one lower case, its bytes that are part of no rune with themselves. */
  lemma {:induction false} MatchIff(f: Lowering, s: seq<Byte>, at: nat, rule: seq<Byte>, end: nat)
    requires at <= |s|
    ensures Match(f, s, at, rule, 0) == Some(end) <==> Paired(f, s, at, rule, 0, end)
  {
    hide Match, PairedAt, Spans;
    if Match(f, s, at, rule, 0) == Some(end) {
      var ps, ks := MatchPairs(f, s, at, rule, 0);
    }
    if Paired(f, s, at, rule, 0, end) {
      var ps, ks :| PairedAt(f, s, ps, rule, ks) && Spans(ps, ks, at, 0, end, |rule|);
      SpansFrom(ps, ks, at, 0, end, |rule|);
      PairsMatch(f, s, ps, rule, ks, end);
    }
  }

  lemma {:induction false} MatchIs(f: Lowering, s: seq<Byte>, at: nat, rule: seq<Byte>)
    requires at <= |s|
    ensures match Match(f, s, at, rule, 0)
            case Some(end) => Paired(f, s, at, rule, 0, end)
            case None => forall end: nat :: !Paired(f, s, at, rule, 0, end)
  {
    hide Match, Paired;
    forall end: nat
      ensures Match(f, s, at, rule, 0) == Some(end) <==> Paired(f, s, at, rule, 0, end)
    {
      MatchIff(f, s, at, rule, end);
    }
  }

  lemma SpansFrom(ps: seq<nat>, ks: seq<nat>, pos: nat, k: nat, end: nat, size: nat)
    requires Spans(ps, ks, pos, k, end, size)
    ensures |ps| > 0 && |ks| > 0 && ps[0] == pos && ks[0] == k
  {
  }

  // ---------------------------------------------------------------------
  // A rule matches where its own bytes are
  // ---------------------------------------------------------------------

  lemma {:induction false} LiteralMatches(f: Lowering, s: seq<Byte>, at: nat, rule: seq<Byte>, k: nat)
    requires At(s, at, rule) && k <= |rule|
    ensures Match(f, s, at + k, rule, k) == Some(at + |rule|)
    decreases |rule| - k
  {
    hide Decode, FoldUnit;
    if k < |rule| {
      match Decode(rule, k)
      case Invalid =>
        assert s[at + k] == rule[k];
        LiteralMatches(f, s, at, rule, k + 1);
      case Rune(r, w) =>
        DecodeInside(rule, k, s, at);
        FoldUnitDecodes(f, s, at + k);
        LiteralMatches(f, s, at, rule, k + w);
    }
  }

  // ---------------------------------------------------------------------
  // The lowered copy
  // ---------------------------------------------------------------------

  /** A continuation byte at the front of the copy is a kept byte of the file. */
  lemma KeptHead(f: Lowering, s: seq<Byte>, i: nat)
    requires i <= |s| && Lower(f, s, i) != [] && Continuation(Lower(f, s, i)[0])
    ensures i < |s| && Lower(f, s, i) == [s[i]] + Lower(f, s, i + 1)
  {
  }

  /** A run of continuation bytes at the front of the copy is the file's own. */
  lemma {:induction false} KeptRun(f: Lowering, s: seq<Byte>, i: nat, k: nat)
    requires i <= |s| && k <= |Lower(f, s, i)|
    requires forall j | 0 <= j < k :: Continuation(Lower(f, s, i)[j])
    ensures i + k <= |s|
    ensures forall j | 0 <= j < k :: s[i + j] == Lower(f, s, i)[j]
    decreases k
  {
    hide Lower;
    if k > 0 {
      KeptHead(f, s, i);
      var t, u := Lower(f, s, i), Lower(f, s, i + 1);
      assert forall j | 0 <= j < k - 1 :: u[j] == t[j + 1];
      KeptRun(f, s, i + 1, k - 1);
      forall j | 0 <= j < k
        ensures s[i + j] == t[j]
      {
        assert j > 0 ==> s[(i + 1) + (j - 1)] == u[j - 1];
      }
    }
  }

  /** An encoding read off a kept byte and the copy after it is in the file as it stands. */
  lemma KeptSpelling(f: Lowering, s: seq<Byte>, i: nat, r: Scalar)
    requires i < |s| && At([s[i]] + Lower(f, s, i + 1), 0, Encode(r))
    ensures At(s, i, Encode(r))
  {
    hide Decode, Encode, Lower;
    var e, u := Encode(r), Lower(f, s, i + 1);
    var t, k := [s[i]] + u, |e| - 1;
    forall j | 0 <= j < k
      ensures u[j] == e[j + 1]
    {
      assert t[0 + (j + 1)] == e[j + 1];
    }
    KeptRun(f, s, i + 1, k);
    forall j | 0 <= j < |e|
      ensures s[i + j] == e[j]
    {
      if j == 0 {
        assert t[0 + 0] == e[0];
      } else {
        assert s[(i + 1) + (j - 1)] == u[j - 1];
      }
    }
  }

  /** An encoding at the front of the copy is a whole lowered rune, never kept bytes. */
  lemma {:induction false} RuneAtFront(f: Lowering, s: seq<Byte>, i: nat, r: Scalar)
    requires i <= |s| && At(Lower(f, s, i), 0, Encode(r))
    ensures i < |s| && FoldUnit(f, s, i).Lowered? && FoldUnit(f, s, i).rune == r
  {
    hide Decode, Encode, FoldUnit;
    var t, u := Lower(f, s, i), FoldUnit(f, s, i);
    DecodeOfEncoding(r, t, 0);
    FoldUnitDecodes(f, s, i);
    if u.Kept? {
      KeptSpelling(f, s, i, r);
      DecodeOfEncoding(r, s, i);
    } else {
      DecodeOfEncoding(u.rune, t, 0);
    }
  }

  /** The first rune of a valid rule, and what its copy starts with. */
  lemma RuleHead(f: Lowering, rule: seq<Byte>, k: nat)
    requires k < |rule| && ValidText(rule, k)
    ensures Decode(rule, k).Rune? && ValidText(rule, k + Decode(rule, k).width)
    ensures Lower(f, rule, k) == Encode(ToLower(f, Decode(rule, k).r)) + Lower(f, rule, k + Decode(rule, k).width)
  {
    hide Encode, Decode, ToLower;
    FoldUnitDecodes(f, rule, k);
  }

  lemma AtUnderCommonHead(head: seq<Byte>, a: seq<Byte>, b: seq<Byte>)
    ensures At(head + b, 0, head + a) <==> At(b, 0, a)
  {
    if |a| <= |b| {
      assert forall j | 0 <= j < |a| :: (head + b)[|head| + j] == b[j];
      assert forall j | 0 <= j < |a| :: (head + a)[|head| + j] == a[j];
      if At(head + b, 0, head + a) {
        forall j | 0 <= j < |a|
          ensures b[0 + j] == a[j]
        {
          assert (head + b)[0 + (|head| + j)] == (head + a)[|head| + j];
        }
      }
    }
  }

  lemma AtHead(t: seq<Byte>, p: nat, head: seq<Byte>, tail: seq<Byte>)
    requires At(t, p, head + tail)
    ensures At(t, p, head)
  {
    assert forall j | 0 <= j < |head| :: t[p + j] == (head + tail)[j] == head[j];
  }

  lemma {:induction false} LowerEnds(f: Lowering, s: seq<Byte>)
    ensures Lower(f, s, |s|) == []
  {
  }

  lemma {:induction false} LowerStarts(f: Lowering, s: seq<Byte>, pos: nat)
    requires pos < |s|
    ensures Lower(f, s, pos) == UnitBytes(f, s, pos) + Lower(f, s, Next(f, s, pos))
  {
  }

  /** A valid rule is at the front of the copy exactly when it matches the file there. */
  lemma {:induction false} HitIsMatch(f: Lowering, s: seq<Byte>, pos: nat, rule: seq<Byte>, k: nat)
    requires pos <= |s| && k <= |rule| && ValidText(rule, k)
    ensures At(Lower(f, s, pos), 0, Lower(f, rule, k)) <==> Match(f, s, pos, rule, k).Some?
    ensures Match(f, s, pos, rule, k).Some? ==>
              Aligned(f, s, pos, Match(f, s, pos, rule, k).value, |Lower(f, rule, k)|)
    decreases |rule| - k
  {
    hide FoldUnit, Decode, Encode, ValidText, At, Lower;
    if k == |rule| {
      LowerEnds(f, rule);
      AtNothing(Lower(f, s, pos), 0);
    } else {
      RuleHead(f, rule, k);
      var d := Decode(rule, k);
      var e, more := Encode(ToLower(f, d.r)), Lower(f, rule, k + d.width);
      if pos == |s| {
        LowerEnds(f, s);
        NotInNothing(e + more);
      } else {
        LowerStarts(f, s, pos);
        var u := FoldUnit(f, s, pos);
        if u.Lowered? && u.rune == ToLower(f, d.r) {
          HitIsMatch(f, s, Next(f, s, pos), rule, k + d.width);
          AtUnderCommonHead(e, more, Lower(f, s, Next(f, s, pos)));
        } else if At(Lower(f, s, pos), 0, e + more) {
          AtHead(Lower(f, s, pos), 0, e, more);
          RuneAtFront(f, s, pos, ToLower(f, d.r));
        }
      }
    }
  }

  lemma AtNothing(hay: seq<Byte>, p: nat)
    requires p <= |hay|
    ensures At(hay, p, [])
  {
  }

  lemma NotInNothing(needle: seq<Byte>)
    requires needle != []
    ensures !At([], 0, needle)
  {
  }

  // ---------------------------------------------------------------------
  // Positions that line up
  // ---------------------------------------------------------------------

  /** Units from `i` on reach file offset `file`, having written `n` bytes of copy. */
  predicate Aligned(f: Lowering, s: seq<Byte>, i: nat, file: nat, n: nat)
    requires i <= |s|
    decreases |s| - i
  {
    (file == i && n == 0)
    || (i < |s| && |UnitBytes(f, s, i)| <= n
        && Aligned(f, s, Next(f, s, i), file, n - |UnitBytes(f, s, i)|))
  }

  /** From an aligned pair on, the copy is the copy of the rest of the file. */
  lemma {:induction false} AlignedCopy(f: Lowering, s: seq<Byte>, i: nat, file: nat, n: nat)
    requires i <= |s| && Aligned(f, s, i, file, n)
    ensures i <= file <= |s| && n <= |Lower(f, s, i)|
    ensures Lower(f, s, i)[n..] == Lower(f, s, file)
    ensures file == i <==> n == 0
    decreases |s| - i
  {
    hide FoldUnit, UnitBytes;
    if file == i && n == 0 {
      assert Lower(f, s, i)[0..] == Lower(f, s, i);
    } else {
      var k := |UnitBytes(f, s, i)|;
      AlignedCopy(f, s, Next(f, s, i), file, n - k);
      assert Lower(f, s, i)[n..] == Lower(f, s, Next(f, s, i))[n - k..];
    }
  }

  /** Alignment composes. */
  lemma {:induction false} AlignedPlus(f: Lowering, s: seq<Byte>, i: nat, file: nat, n: nat, end: nat, m: nat)
    requires i <= |s| && Aligned(f, s, i, file, n)
    requires file <= |s| && Aligned(f, s, file, end, m)
    ensures Aligned(f, s, i, end, n + m)
    decreases |s| - i
  {
    hide FoldUnit, UnitBytes;
    if !(file == i && n == 0) {
      AlignedPlus(f, s, Next(f, s, i), file, n - |UnitBytes(f, s, i)|, end, m);
    }
  }

  /** One unit further on, both positions still line up. */
  lemma AlignedStep(f: Lowering, s: seq<Byte>, i: nat, file: nat, n: nat)
    requires i <= |s| && Aligned(f, s, i, file, n) && file < |s|
    ensures Aligned(f, s, i, Next(f, s, file), n + |UnitBytes(f, s, file)|)
  {
    hide FoldUnit, UnitBytes;
    assert Aligned(f, s, file, Next(f, s, file), |UnitBytes(f, s, file)|);
    AlignedPlus(f, s, i, file, n, Next(f, s, file), |UnitBytes(f, s, file)|);
  }

  /** The file offset of a unit boundary is unique, and boundaries are whole units apart. */
  lemma {:induction false} AlignedOrder(f: Lowering, s: seq<Byte>, i: nat, a: nat, x: nat, b: nat, y: nat)
    requires i <= |s| && Aligned(f, s, i, a, x) && Aligned(f, s, i, b, y)
    ensures a <= |s| && b <= |s|
    ensures a == b <==> x == y
    ensures a < b ==> Next(f, s, a) <= b && x + |UnitBytes(f, s, a)| <= y
    ensures b < a ==> Next(f, s, b) <= a && y + |UnitBytes(f, s, b)| <= x
    decreases |s| - i
  {
    hide FoldUnit, UnitBytes, Next;
    AlignedCopy(f, s, i, a, x);
    AlignedCopy(f, s, i, b, y);
    if a != i && b != i {
      var k := |UnitBytes(f, s, i)|;
      AlignedOrder(f, s, Next(f, s, i), a, x - k, b, y - k);
    } else if a != i {
      AlignedCopy(f, s, Next(f, s, i), a, x - |UnitBytes(f, s, i)|);
    } else if b != i {
      AlignedCopy(f, s, Next(f, s, i), b, y - |UnitBytes(f, s, i)|);
    }
  }

  /** A file offset is a unit boundary, or it holds a continuation byte. */
  lemma {:induction false} BoundaryOrContinuation(f: Lowering, s: seq<Byte>, i: nat, file: nat) returns (n: nat)
    requires i <= file < |s|
    ensures Aligned(f, s, i, file, n) || Continuation(s[file])
    decreases |s| - i
  {
    hide Decode, Encode;
    n := 0;
    if file != i {
      if file < Next(f, s, i) {
        EncodeOfDecoded(s, i);
        assert s[i + (file - i)] == Encode(Decode(s, i).r)[file - i];
      } else {
        var m := BoundaryOrContinuation(f, s, Next(f, s, i), file);
        n := m + |UnitBytes(f, s, i)|;
      }
    }
  }

  /** A copy position is a unit boundary, or it holds a continuation byte. */
  lemma {:induction false} CopyBoundary(f: Lowering, s: seq<Byte>, i: nat, n: nat) returns (file: nat)
    requires i <= |s| && n < |Lower(f, s, i)|
    ensures Aligned(f, s, i, file, n) || Continuation(Lower(f, s, i)[n])
    decreases |s| - i
  {
    hide FoldUnit, UnitBytes;
    var k := |UnitBytes(f, s, i)|;
    if n == 0 {
      file := i;
    } else if n < k {
      assert Lower(f, s, i)[n] == UnitBytes(f, s, i)[n];
      file := i;
    } else {
      assert Lower(f, s, i)[n] == Lower(f, s, Next(f, s, i))[n - k];
      file := CopyBoundary(f, s, Next(f, s, i), n - k);
    }
  }

  /** The whole file and the whole copy line up at their ends. */
  lemma {:induction false} AlignedEnds(f: Lowering, s: seq<Byte>, i: nat)
    requires i <= |s|
    ensures Aligned(f, s, i, |s|, |Lower(f, s, i)|)
    decreases |s| - i
  {
    hide FoldUnit, UnitBytes;
    if i < |s| {
      AlignedEnds(f, s, Next(f, s, i));
    }
  }

  // ---------------------------------------------------------------------
  // Hits in the copy and matches in the file
  // ---------------------------------------------------------------------

  lemma AtSuffix(hay: seq<Byte>, p: nat, needle: seq<Byte>)
    requires p <= |hay|
    ensures At(hay, p, needle) <==> At(hay[p..], 0, needle)
  {
  }

  /** At a pair of positions that line up, a hit is a match and a match a hit. */
  lemma AlignedHitIsMatch(f: Lowering, s: seq<Byte>, rule: seq<Byte>, file: nat, n: nat)
    requires ValidText(rule, 0) && Aligned(f, s, 0, file, n)
    ensures file <= |s|
    ensures At(Lower(f, s, 0), n, Lower(f, rule, 0)) <==> MatchesAt(f, s, file, rule)
    ensures MatchesAt(f, s, file, rule) ==>
              Aligned(f, s, 0, Match(f, s, file, rule, 0).value, n + |Lower(f, rule, 0)|)
  {
    hide Aligned, Match, Lower, ValidText, At;
    AlignedCopy(f, s, 0, file, n);
    AtSuffix(Lower(f, s, 0), n, Lower(f, rule, 0));
    HitIsMatch(f, s, file, rule, 0);
    if MatchesAt(f, s, file, rule) {
      AlignedPlus(f, s, 0, file, n, Match(f, s, file, rule, 0).value, |Lower(f, rule, 0)|);
    }
  }

  /** No valid rule matches where a continuation byte is. */
  lemma {:induction false} NoMatchAtContinuation(f: Lowering, s: seq<Byte>, rule: seq<Byte>, file: nat)
    requires ValidText(rule, 0) && rule != [] && file < |s| && Continuation(s[file])
    ensures !MatchesAt(f, s, file, rule)
  {
  }

  /** A valid rule matches only where a unit starts, and hits where that unit's copy starts. */
  lemma MatchHasHit(f: Lowering, s: seq<Byte>, rule: seq<Byte>, file: nat) returns (n: nat)
    requires ValidText(rule, 0) && rule != [] && file < |s| && MatchesAt(f, s, file, rule)
    ensures Aligned(f, s, 0, file, n) && At(Lower(f, s, 0), n, Lower(f, rule, 0))
  {
    hide Aligned, MatchesAt, Lower, ValidText, At;
    n := BoundaryOrContinuation(f, s, 0, file);
    assert !Continuation(s[file]) by {
      if Continuation(s[file]) {
        NoMatchAtContinuation(f, s, rule, file);
      }
    }
    AlignedHitIsMatch(f, s, rule, file, n);
  }

  /** The copy of a valid rule starts with no continuation byte. */
  lemma {:induction false} NeedleHead(f: Lowering, rule: seq<Byte>)
    requires ValidText(rule, 0) && rule != []
    ensures Lower(f, rule, 0) != [] && !Continuation(Lower(f, rule, 0)[0])
  {
  }

  /** A hit anywhere in the copy starts where a unit's copy starts: it is a match of the file. */
  lemma HitHasMatch(f: Lowering, s: seq<Byte>, rule: seq<Byte>, n: nat) returns (file: nat)
    requires ValidText(rule, 0) && rule != [] && At(Lower(f, s, 0), n, Lower(f, rule, 0))
    ensures Aligned(f, s, 0, file, n) && file < |s| && MatchesAt(f, s, file, rule)
  {
    hide Aligned, MatchesAt, Lower, ValidText;
    NeedleHead(f, rule);
    assert Lower(f, s, 0)[n + 0] == Lower(f, rule, 0)[0];
    file := CopyBoundary(f, s, 0, n);
    AlignedHitIsMatch(f, s, rule, file, n);
    AlignedEnds(f, s, 0);
    AlignedOrder(f, s, 0, file, n, |s|, |Lower(f, s, 0)|);
  }

  // ---------------------------------------------------------------------
  // The greedy scan
  // ---------------------------------------------------------------------

  /** Offsets with no match between them take no part in the scan. */
  lemma {:induction false} GreedySkips(f: Lowering, s: seq<Byte>, rule: seq<Byte>, lo: nat, hi: nat)
    requires rule != [] && lo <= hi <= |s|
    requires forall p | lo <= p < hi :: !MatchesAt(f, s, p, rule)
    ensures Greedy(f, s, rule, lo) == Greedy(f, s, rule, hi)
    decreases hi - lo
  {
    hide Match;
    if lo < hi {
      assert !MatchesAt(f, s, lo, rule);
      GreedySkips(f, s, rule, lo + 1, hi);
    }
  }

  /** Where the match that starts at `at` ends; `at` itself when none does. */
  function MatchEnd(f: Lowering, s: seq<Byte>, at: nat, rule: seq<Byte>): (e: nat)
    requires at <= |s|
    ensures at <= e <= |s|
    ensures rule != [] ==> (at < e <==> MatchesAt(f, s, at, rule))
  {
    match Match(f, s, at, rule, 0) case Some(end) => end case None => at
  }

  /** `p` is inside the match that starts at one of `out`. */
  predicate Covered(f: Lowering, s: seq<Byte>, rule: seq<Byte>, out: seq<nat>, p: nat)
    requires forall i | 0 <= i < |out| :: out[i] <= |s|
  {
    exists i :: 0 <= i < |out| && out[i] <= p < MatchEnd(f, s, out[i], rule)
  }

  /** `out` is every match from `at` on, in order and apart, but for those one of them covers. */
  predicate Leftmost(f: Lowering, s: seq<Byte>, rule: seq<Byte>, at: nat, out: seq<nat>) {
    && (forall i | 0 <= i < |out| :: at <= out[i] < |s| && MatchesAt(f, s, out[i], rule))
    && (forall i, j | 0 <= i < j < |out| :: MatchEnd(f, s, out[i], rule) <= out[j])
    && (forall p | at <= p < |s| && MatchesAt(f, s, p, rule) :: Covered(f, s, rule, out, p))
  }

  /** A longer list of matches covers what the shorter one did. */
  lemma CoveredCons(f: Lowering, s: seq<Byte>, rule: seq<Byte>, at: nat, more: seq<nat>, p: nat)
    requires at <= |s| && forall i | 0 <= i < |more| :: more[i] <= |s|
    requires at <= p < MatchEnd(f, s, at, rule) || Covered(f, s, rule, more, p)
    ensures (forall i | 0 <= i < |[at] + more| :: ([at] + more)[i] <= |s|)
            && Covered(f, s, rule, [at] + more, p)
  {
    hide MatchEnd;
    var out := [at] + more;
    assert forall i | 1 <= i < |out| :: out[i] == more[i - 1];
    if at <= p < MatchEnd(f, s, at, rule) {
      assert out[0] == at;
    } else {
      var i :| 0 <= i < |more| && more[i] <= p < MatchEnd(f, s, more[i], rule);
      assert out[i + 1] == more[i];
    }
  }

  lemma LeftmostCons(f: Lowering, s: seq<Byte>, rule: seq<Byte>, at: nat, more: seq<nat>)
    requires rule != [] && at < |s| && MatchesAt(f, s, at, rule)
    requires Leftmost(f, s, rule, MatchEnd(f, s, at, rule), more)
    ensures Leftmost(f, s, rule, at, [at] + more)
  {
    hide MatchesAt, MatchEnd, Covered;
    var out := [at] + more;
    assert forall i | 1 <= i < |out| :: out[i] == more[i - 1];
    forall p | at <= p < |s| && MatchesAt(f, s, p, rule)
      ensures Covered(f, s, rule, out, p)
    {
      CoveredCons(f, s, rule, at, more, p);
    }
  }

  /** The greedy scan reports exactly the leftmost matches that do not overlap. */
  lemma {:induction false} GreedyIsLeftmost(f: Lowering, s: seq<Byte>, rule: seq<Byte>, at: nat)
    requires rule != [] && at <= |s|
    ensures Leftmost(f, s, rule, at, Greedy(f, s, rule, at))
    decreases |s| - at
  {
    hide Match, Covered;
    if at < |s| {
      if MatchesAt(f, s, at, rule) {
        var end := MatchEnd(f, s, at, rule);
        GreedyIsLeftmost(f, s, rule, end);
        LeftmostCons(f, s, rule, at, Greedy(f, s, rule, end));
      } else {
        GreedyIsLeftmost(f, s, rule, at + 1);
      }
    }
  }
}
