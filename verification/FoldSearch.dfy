// The search itself: the lowered copy built once with its sparse marks, hits
// found in the copy and walked back to the file, and the walk for rules that
// are not valid UTF-8.
module FoldSearch {
  import opened Common
  import opened Utf8
  import opened CaseFold

  /** A place where the file and its lowered copy line up. */
  datatype Mark = Mark(file: nat, lowered: nat)

  datatype Folded = Folded(data: seq<Byte>, lowered: seq<Byte>, marks: seq<Mark>)

  const STRIDE := 1024

  predicate LinesUp(f: Lowering, data: seq<Byte>, m: Mark) {
    Aligned(f, data, 0, m.file, m.lowered)
  }

  predicate MarkGood(f: Lowering, data: seq<Byte>, marks: seq<Mark>, k: nat)
    requires k < |marks|
  {
    LinesUp(f, data, marks[k]) && k * STRIDE <= marks[k].file <= k * STRIDE + 3
  }

  /** The marks of the first `i` bytes: each lines up, and one covers every stride. */
  predicate MarksGood(f: Lowering, data: seq<Byte>, marks: seq<Mark>, i: nat) {
    && (forall k | 0 <= k < |marks| :: MarkGood(f, data, marks, k) && marks[k].file < i)
    && (i == 0 || i < |marks| * STRIDE + 4)
  }

  predicate Faithful(f: Lowering, h: Folded) {
    h.lowered == Lower(f, h.data, 0) && MarksGood(f, h.data, h.marks, |h.data|)
  }

  // ---------------------------------------------------------------------
  // Building the copy
  // ---------------------------------------------------------------------

  /** Marks are strictly increasing, in the file and in the copy. */
  lemma MarksIncrease(f: Lowering, data: seq<Byte>, marks: seq<Mark>, i: nat, j: nat, k: nat)
    requires MarksGood(f, data, marks, i) && j < k < |marks|
    ensures marks[j].file < marks[k].file && marks[j].lowered < marks[k].lowered
  {
    hide Aligned;
    assert MarkGood(f, data, marks, j) && MarkGood(f, data, marks, k);
    AlignedOrder(f, data, 0, marks[j].file, marks[j].lowered, marks[k].file, marks[k].lowered);
  }

  /** A mark is added where a unit starts at or past the next stride. */
  lemma MarksAppend(f: Lowering, data: seq<Byte>, marks: seq<Mark>, m: Mark)
    requires MarksGood(f, data, marks, m.file) && LinesUp(f, data, m) && |marks| * STRIDE <= m.file
    ensures MarksGood(f, data, marks + [m], m.file + 1)
  {
  }

  method FoldHaystack(f: Lowering, data: seq<Byte>) returns (h: Folded)
    ensures h.data == data && Faithful(f, h)
  {
    hide FoldUnit, MarkGood;
    var lowered: seq<Byte>, marks: seq<Mark> := [], [];
    var i: nat := 0;
    while i < |data|
      invariant i <= |data|
      invariant lowered + Lower(f, data, i) == Lower(f, data, 0)
      invariant LinesUp(f, data, Mark(i, |lowered|))
      invariant MarksGood(f, data, marks, i)
      decreases |data| - i
    {
      if |marks| * STRIDE <= i {
        MarksAppend(f, data, marks, Mark(i, |lowered|));
        marks := marks + [Mark(i, |lowered|)];
      }
      AlignedStep(f, data, 0, i, |lowered|);
      lowered := lowered + UnitBytes(f, data, i);
      i := Next(f, data, i);
    }
    h := Folded(data, lowered, marks);
  }

  // ---------------------------------------------------------------------
  // Back to the file
  // ---------------------------------------------------------------------

  /** sort.Search over the marks: how many lie at or before `pos` of the copy. */
  method SearchMarks(f: Lowering, h: Folded, pos: nat) returns (n: nat)
    requires Faithful(f, h)
    ensures n <= |h.marks|
    ensures forall k | 0 <= k < n :: h.marks[k].lowered <= pos
    ensures forall k | n <= k < |h.marks| :: pos < h.marks[k].lowered
  {
    hide MarkGood;
    var hi := |h.marks|;
    n := 0;
    while n < hi
      invariant n <= hi <= |h.marks|
      invariant forall k | 0 <= k < n :: h.marks[k].lowered <= pos
      invariant forall k | hi <= k < |h.marks| :: pos < h.marks[k].lowered
    {
      var mid := (n + hi) / 2;
      forall k | 0 <= k < |h.marks| && k != mid
        ensures if k < mid then h.marks[k].lowered < h.marks[mid].lowered
                else h.marks[mid].lowered < h.marks[k].lowered
      {
        if k < mid {
          MarksIncrease(f, h.data, h.marks, |h.data|, k, mid);
        } else {
          MarksIncrease(f, h.data, h.marks, |h.data|, mid, k);
        }
      }
      if h.marks[mid].lowered > pos {
        hi := mid;
      } else {
        n := mid + 1;
      }
    }
  }

  /** Where walkTo starts: the later of `at` and the last mark at or before `pos`. */
  method WalkStart(f: Lowering, h: Folded, at: Mark, pos: nat, ghost target: nat) returns (start: Mark)
    requires Faithful(f, h) && LinesUp(f, h.data, at) && at.lowered <= pos
    requires LinesUp(f, h.data, Mark(target, pos)) && target < |h.data|
    ensures LinesUp(f, h.data, start) && start.lowered <= pos
    ensures start.file <= target < start.file + STRIDE + 4
  {
    hide Aligned;
    var n := SearchMarks(f, h, pos);
    start := at;
    if n > 0 {
      assert MarkGood(f, h.data, h.marks, n - 1);
      if h.marks[n - 1].lowered > at.lowered {
        start := h.marks[n - 1];
      }
      AlignedOrder(f, h.data, 0, h.marks[n - 1].file, h.marks[n - 1].lowered, start.file, start.lowered);
    }
    AlignedOrder(f, h.data, 0, start.file, start.lowered, target, pos);
    if n < |h.marks| {
      assert MarkGood(f, h.data, h.marks, n);
      AlignedOrder(f, h.data, 0, target, pos, h.marks[n].file, h.marks[n].lowered);
    }
    assert target < n * STRIDE + 4;
    assert n > 0 ==> (n - 1) * STRIDE <= h.marks[n - 1].file <= start.file;
  }

  /** walkTo: the file offset of the unit whose copy starts at `pos`. */
  method WalkTo(f: Lowering, h: Folded, at: Mark, pos: nat, ghost target: nat) returns (m: Mark)
    requires Faithful(f, h) && LinesUp(f, h.data, at) && at.lowered <= pos
    requires LinesUp(f, h.data, Mark(target, pos)) && target < |h.data|
    ensures m == Mark(target, pos)
  {
    hide Aligned, FoldUnit;
    m := WalkStart(f, h, at, pos, target);
    while m.lowered < pos
      invariant LinesUp(f, h.data, m) && m.lowered <= pos
      decreases pos - m.lowered
    {
      AlignedOrder(f, h.data, 0, m.file, m.lowered, target, pos);
      AlignedStep(f, h.data, 0, m.file, m.lowered);
      var u := FoldUnit(f, h.data, m.file);
      m := Mark(m.file + Width(u), m.lowered + match u case Lowered(r, _) => |Encode(r)| case Kept => 1);
    }
    AlignedOrder(f, h.data, 0, m.file, m.lowered, target, pos);
  }

  // ---------------------------------------------------------------------
  // Finding hits
  // ---------------------------------------------------------------------

  /** bytes.Index from `start` on: the first occurrence, or none at all. */
  function Index(hay: seq<Byte>, needle: seq<Byte>, start: nat): (p: Option<nat>)
    ensures p.Some? ==> start <= p.value && At(hay, p.value, needle)
    ensures p.Some? ==> forall q | start <= q < p.value :: !At(hay, q, needle)
    ensures p.None? ==> forall q | start <= q :: !At(hay, q, needle)
    decreases |hay| - start
  {
    if |hay| < start + |needle| then None
    else if At(hay, start, needle) then Some(start)
    else if start == |hay| then None
    else Index(hay, needle, start + 1)
  }

  /** With no hit in a stretch of the copy, the file has no match in the stretch it lines up with. */
  lemma {:induction false} NoHitNoMatch(f: Lowering, s: seq<Byte>, rule: seq<Byte>, from: Mark, upto: Mark)
    requires ValidText(rule, 0) && rule != [] && LinesUp(f, s, from) && LinesUp(f, s, upto)
    requires forall q | from.lowered <= q < upto.lowered :: !At(Lower(f, s, 0), q, Lower(f, rule, 0))
    ensures upto.file <= |s|
    ensures forall p | from.file <= p < upto.file :: !MatchesAt(f, s, p, rule)
  {
    hide Aligned, MatchesAt, At, ValidText, Lower;
    AlignedCopy(f, s, 0, upto.file, upto.lowered);
    forall p | from.file <= p < upto.file
      ensures !MatchesAt(f, s, p, rule)
    {
      if MatchesAt(f, s, p, rule) {
        var q := MatchHasHit(f, s, rule, p);
        AlignedOrder(f, s, 0, p, q, from.file, from.lowered);
        AlignedOrder(f, s, 0, p, q, upto.file, upto.lowered);
        assert false;
      }
    }
  }

  /** The next hit at or after a pair that lines up is the file's next match. */
  lemma NextHit(f: Lowering, s: seq<Byte>, rule: seq<Byte>, from: Mark, p: nat) returns (q: nat)
    requires ValidText(rule, 0) && rule != [] && LinesUp(f, s, from) && from.lowered <= p
    requires At(Lower(f, s, 0), p, Lower(f, rule, 0))
    requires forall x | from.lowered <= x < p :: !At(Lower(f, s, 0), x, Lower(f, rule, 0))
    ensures LinesUp(f, s, Mark(q, p)) && from.file <= q < |s|
    ensures Greedy(f, s, rule, from.file) == [q] + Greedy(f, s, rule, MatchEnd(f, s, q, rule))
    ensures LinesUp(f, s, Mark(MatchEnd(f, s, q, rule), p + |Lower(f, rule, 0)|))
  {
    hide Aligned, ValidText, Lower, At, Match;
    q := HitHasMatch(f, s, rule, p);
    AlignedOrder(f, s, 0, from.file, from.lowered, q, p);
    NoHitNoMatch(f, s, rule, from, Mark(q, p));
    GreedySkips(f, s, rule, from.file, q);
    AlignedHitIsMatch(f, s, rule, q, p);
  }

  /** With no hit left in the copy, the scan of the file is over. */
  lemma {:induction false} NoHitLeft(f: Lowering, s: seq<Byte>, rule: seq<Byte>, from: Mark)
    requires ValidText(rule, 0) && rule != [] && LinesUp(f, s, from)
    requires forall x | from.lowered <= x :: !At(Lower(f, s, 0), x, Lower(f, rule, 0))
    ensures from.file <= |s| && Greedy(f, s, rule, from.file) == []
  {
    hide Aligned, ValidText, Lower, At, Match;
    AlignedCopy(f, s, 0, from.file, from.lowered);
    AlignedEnds(f, s, 0);
    NoHitNoMatch(f, s, rule, from, Mark(|s|, |Lower(f, s, 0)|));
    GreedySkips(f, s, rule, from.file, |s|);
  }

  /** foldedHaystack.offsets: in the copy of a file, the copy of a valid rule is found where the scan of the file finds the rule. */
  method FoldedOffsets(f: Lowering, h: Folded, needle: seq<Byte>, ghost rule: seq<Byte>) returns (out: seq<nat>)
    requires Faithful(f, h)
    requires ValidText(rule, 0) && rule != [] && needle == Lower(f, rule, 0)
    ensures out == Greedy(f, h.data, rule, 0)
  {
    hide Aligned, ValidText, Lower, Greedy, MatchesAt, MarksGood, Index, MatchEnd;
    out := [];
    var at, start: nat := Mark(0, 0), 0;
    ghost var file: nat := 0;
    StartsLineUp(f, h.data);
    NeedleHead(f, rule);
    while start + |needle| <= |h.lowered|
      invariant LinesUp(f, h.data, Mark(file, start)) && file <= |h.data|
      invariant LinesUp(f, h.data, at) && at.lowered <= start
      invariant Greedy(f, h.data, rule, 0) == out + Greedy(f, h.data, rule, file)
      decreases |h.lowered| - start
    {
      var p := Index(h.lowered, needle, start);
      if p.None? {
        break;
      }
      ghost var q := NextHit(f, h.data, rule, Mark(file, start), p.value);
      at := WalkTo(f, h, at, p.value, q);
      out := out + [at.file];
      start := p.value + |needle|;
      file := MatchEnd(f, h.data, q, rule);
    }
    NoHitLeft(f, h.data, rule, Mark(file, start));
  }

  lemma StartsLineUp(f: Lowering, s: seq<Byte>)
    ensures LinesUp(f, s, Mark(0, 0))
  {
  }

  // ---------------------------------------------------------------------
  // The walk
  // ---------------------------------------------------------------------

  /** caseFoldMatchAt as the loop it is. */
  method CaseFoldMatchAt(f: Lowering, data: seq<Byte>, at: nat, rule: seq<Byte>) returns (end: Option<nat>)
    requires at <= |data|
    ensures end == Match(f, data, at, rule, 0)
    ensures end.Some? ==> Paired(f, data, at, rule, 0, end.value)
    ensures end.None? ==> forall e: nat :: !Paired(f, data, at, rule, 0, e)
  {
    hide Decode, FoldUnit, Paired;
    MatchIs(f, data, at, rule);
    var pos: nat, k: nat := at, 0;
    while k < |rule|
      invariant k <= |rule| && pos <= |data|
      invariant Match(f, data, at, rule, 0) == Match(f, data, pos, rule, k)
      decreases |rule| - k
    {
      if pos >= |data| {
        return None;
      }
      var d := Decode(rule, k);
      if d.Invalid? {
        if data[pos] != rule[k] {
          return None;
        }
        pos, k := pos + 1, k + 1;
      } else {
        var u := FoldUnit(f, data, pos);
        if u.Kept? || u.rune != ToLower(f, d.r) {
          return None;
        }
        pos, k := pos + u.width, k + d.width;
      }
    }
    return Some(pos);
  }

  /** bytes.IndexByte from `start` on. */
  function IndexByte(data: seq<Byte>, b: Byte, start: nat): (p: Option<nat>)
    requires start <= |data|
    ensures p.Some? ==> start <= p.value < |data| && data[p.value] == b
    ensures forall q | start <= q < (if p.Some? then p.value else |data|) :: data[q] != b
    decreases |data| - start
  {
    if start == |data| then None else if data[start] == b then Some(start) else IndexByte(data, b, start + 1)
  }

  /** Where the rule's first byte matches only itself, a match can start nowhere else. */
  lemma OtherByteNoMatch(f: Lowering, s: seq<Byte>, rule: seq<Byte>, p: nat)
    requires rule != [] && Decode(rule, 0).Invalid? && p < |s| && s[p] != rule[0]
    ensures !MatchesAt(f, s, p, rule)
  {
  }

  /** The IndexByte skip loses nothing. */
  lemma {:induction false} ByteSkip(f: Lowering, s: seq<Byte>, rule: seq<Byte>, at: nat, upto: nat)
    requires rule != [] && Decode(rule, 0).Invalid? && at <= upto <= |s|
    requires forall q | at <= q < upto :: s[q] != rule[0]
    ensures Greedy(f, s, rule, at) == Greedy(f, s, rule, upto)
  {
    hide Decode, Greedy, MatchesAt;
    forall p | at <= p < upto
      ensures !MatchesAt(f, s, p, rule)
    {
      OtherByteNoMatch(f, s, rule, p);
    }
    GreedySkips(f, s, rule, at, upto);
  }

  /** caseFoldWalk: for a rule that is not valid UTF-8, and correct for every rule. */
  method CaseFoldWalk(f: Lowering, data: seq<Byte>, rule: seq<Byte>) returns (out: seq<nat>)
    requires rule != []
    ensures out == Greedy(f, data, rule, 0) && Leftmost(f, data, rule, 0, out)
  {
    hide Match, Decode, IndexByte, Leftmost, Paired;
    GreedyIsLeftmost(f, data, rule, 0);
    var firstIsByte := Decode(rule, 0).Invalid?;
    out := [];
    var at: nat := 0;
    while at < |data|
      invariant at <= |data|
      invariant Greedy(f, data, rule, 0) == out + Greedy(f, data, rule, at)
      decreases |data| - at
    {
      if firstIsByte {
        var p := IndexByte(data, rule[0], at);
        if p.None? {
          ByteSkip(f, data, rule, at, |data|);
          return;
        }
        ByteSkip(f, data, rule, at, p.value);
        at := p.value;
      }
      var end := CaseFoldMatchAt(f, data, at, rule);
      if end.Some? {
        out := out + [at];
        at := end.value;
      } else {
        at := at + 1;
      }
    }
  }

  // ---------------------------------------------------------------------
  // The matcher
  // ---------------------------------------------------------------------

  /** utf8.ValidString as a loop. */
  method ValidString(s: seq<Byte>) returns (valid: bool)
    ensures valid == ValidText(s, 0)
  {
    hide Decode;
    var i: nat := 0;
    while i < |s|
      invariant i <= |s| && ValidText(s, 0) == ValidText(s, i)
      decreases |s| - i
    {
      var d := Decode(s, i);
      if d.Invalid? {
        return false;
      }
      i := i + d.width;
    }
    return true;
  }

  lemma LowerTurn(t: seq<Byte>, e: seq<Byte>, rest: seq<Byte>)
    ensures (t + e) + rest == t + (e + rest)
  {
  }

  /** strings.ToLower of a valid string, as a loop over its runes. */
  method ToLowerText(f: Lowering, s: seq<Byte>) returns (t: seq<Byte>)
    requires ValidText(s, 0)
    ensures t == Lower(f, s, 0)
  {
    hide Decode, Encode, Lower, ValidText, ToLower;
    t := [];
    var i: nat := 0;
    while i < |s|
      invariant i <= |s| && ValidText(s, i)
      invariant t + Lower(f, s, i) == Lower(f, s, 0)
      decreases |s| - i
    {
      RuleHead(f, s, i);
      var d := Decode(s, i);
      LowerTurn(t, Encode(ToLower(f, d.r)), Lower(f, s, i + d.width));
      t := t + Encode(ToLower(f, d.r));
      i := i + d.width;
    }
    LowerEnds(f, s);
  }

  /** The matcher of one file, whose lowered copy is built by the first valid rule and shared. */
  class CaseFoldMatcher {
    const lower: Lowering
    const data: seq<Byte>
    var lowered: Option<Folded>

    ghost predicate Valid()
      reads this
    {
      lowered.Some? ==> lowered.value.data == data && Faithful(lower, lowered.value)
    }

    constructor (lower: Lowering, data: seq<Byte>)
      ensures Valid() && this.lower == lower && this.data == data
    {
      this.lower := lower;
      this.data := data;
      this.lowered := None;
    }

    /** Every rule, in whatever order rules are asked, gets the scan of the file itself. */
    method Offsets(rule: seq<Byte>) returns (out: seq<nat>)
      requires Valid() && rule != []
      modifies this
      ensures Valid()
      ensures out == Greedy(lower, data, rule, 0) && Leftmost(lower, data, rule, 0, out)
      ensures lowered == old(lowered) || (old(lowered).None? && ValidText(rule, 0))
    {
      hide Greedy, Leftmost, ValidText, Faithful;
      GreedyIsLeftmost(lower, data, rule, 0);
      var valid := ValidString(rule);
      if !valid {
        out := CaseFoldWalk(lower, data, rule);
        return;
      }
      if lowered.None? {
        var h := FoldHaystack(lower, data);
        lowered := Some(h);
      }
      var needle := ToLowerText(lower, rule);
      out := FoldedOffsets(lower, lowered.value, needle, rule);
    }
  }
}
