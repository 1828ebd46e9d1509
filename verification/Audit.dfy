// The capped audit hash chain and its verifier.
module Audit {
  import opened Common
  import opened Text
  import opened Digest

  const VERSION := "mutant-audit-1"
  const GENESIS: Hex := Zeros(64)
  const RETAINED := 4096
  const QUARTER := 1024

  /** What security.auditEvent reports, and when. */
  datatype Event = Event(event: string, stage: string, nano: int)

  datatype Entry = Entry(number: nat, nano: int, event: string, stage: string, prev: string, hash: string)

  /** The bytes one link hashes. */
  function LinkText(prev: string, number: int, nano: int, event: string, stage: string): string {
    Fields([VERSION, prev, FormatInt(number), FormatInt(nano), event, stage])
  }

  function Link(h: Hash, prev: string, number: int, nano: int, event: string, stage: string): Hex {
    Sum(h, LinkText(prev, number, nano, event, stage))
  }

  /** The bytes one link hashes, spelled out. */
  lemma {:induction false} LinkTextIs(prev: string, number: int, nano: int, event: string, stage: string)
    ensures LinkText(prev, number, nano, event, stage) ==
            "14:mutant-audit-1" + Field(prev) + Field(FormatInt(number)) + Field(FormatInt(nano)) + Field(event)
            + Field(stage)
  {
    hide Field, FormatInt;
    var fs := [VERSION, prev, FormatInt(number), FormatInt(nano), event, stage];
    assert fs[1..] == [prev, FormatInt(number), FormatInt(nano), event, stage];
    assert fs[2..] == [FormatInt(number), FormatInt(nano), event, stage];
    assert fs[3..] == [FormatInt(nano), event, stage];
    assert fs[4..] == [event, stage];
    assert fs[5..] == [stage];
    forall k | 0 <= k < 6
      ensures Fields(fs[k..]) == Field(fs[k]) + Fields(fs[k + 1..])
    {
      assert fs[k..][1..] == fs[k + 1..];
    }
    assert fs[0..] == fs && fs[6..] == [];
    VersionField();
  }

  lemma VersionField()
    ensures Field(VERSION) == "14:mutant-audit-1"
  {
    assert FormatNat(14) == FormatNat(1) + ['4'];
  }

  function EntryText(e: Entry): string {
    LinkText(e.prev, e.number, e.nano, e.event, e.stage)
  }

  /** No two lists of link fields hash the same bytes. */
  lemma LinkTextInjective(p: string, i: int, n: int, e: string, s: string,
                          p': string, i': int, n': int, e': string, s': string)
    requires LinkText(p, i, n, e, s) == LinkText(p', i', n', e', s')
    ensures p == p' && i == i' && n == n' && e == e' && s == s'
  {
    var a := [VERSION, p, FormatInt(i), FormatInt(n), e, s];
    var b := [VERSION, p', FormatInt(i'), FormatInt(n'), e', s'];
    FieldsInjective(a, b);
    assert a[1] == b[1] && a[2] == b[2] && a[3] == b[3] && a[4] == b[4] && a[5] == b[5];
    FormatIntInjective(i, i');
    FormatIntInjective(n, n');
  }

  // ---------------------------------------------------------------------
  // The whole chain, never capped
  // ---------------------------------------------------------------------

  function Head(chain: seq<Entry>): string {
    if chain == [] then GENESIS else chain[|chain| - 1].hash
  }

  function Linked(h: Hash, prev: string, number: nat, e: Event): Entry {
    Entry(number, e.nano, e.event, e.stage, prev, Link(h, prev, number, e.nano, e.event, e.stage))
  }

  /** Every entry ever written for these events, first to last. */
  function Chain(h: Hash, events: seq<Event>): (c: seq<Entry>)
    ensures |c| == |events|
  {
    if events == [] then []
    else
      var c := Chain(h, events[..|events| - 1]);
      c + [Linked(h, Head(c), |events|, events[|events| - 1])]
  }

  /** Entry `i` of the chain, and the entry before it. */
  lemma {:induction false} ChainAt(h: Hash, events: seq<Event>, i: nat)
    requires i < |events|
    ensures var c := Chain(h, events);
            c[i] == Linked(h, if i == 0 then GENESIS else c[i - 1].hash, i + 1, events[i])
    decreases |events|
  {
    hide Linked;
    var last := |events| - 1;
    var c := Chain(h, events[..last]);
    if i < last {
      ChainAt(h, events[..last], i);
      assert Chain(h, events)[i] == c[i];
      assert i > 0 ==> Chain(h, events)[i - 1] == c[i - 1];
    } else {
      assert i > 0 ==> Chain(h, events)[i - 1] == c[i - 1];
    }
  }

  // ---------------------------------------------------------------------
  // The cap
  // ---------------------------------------------------------------------

  /** auditFirstRetainedFor: the seq the retained run starts at. */
  function FirstRetainedFor(total: int): int {
    if total <= RETAINED then 1
    else (total - RETAINED + QUARTER - 1) / QUARTER * QUARTER + 1
  }

  /** The cap keeps between three quarters and the whole of it once it has been reached. */
  lemma RetainedCount(total: int)
    requires total >= 0
    ensures 1 <= FirstRetainedFor(total)
    ensures total > 0 ==> FirstRetainedFor(total) <= total
    ensures total - (FirstRetainedFor(total) - 1) <= RETAINED
    ensures total > RETAINED ==> total - (FirstRetainedFor(total) - 1) > RETAINED - QUARTER
  {
  }

  /** One more append drops a quarter exactly when the cap has been reached. */
  lemma NextFirstRetained(total: int)
    requires total >= 0
    ensures FirstRetainedFor(total + 1) ==
            FirstRetainedFor(total) + if total - (FirstRetainedFor(total) - 1) >= RETAINED then QUARTER else 0
  {
  }

  /** The retained run starts a whole number of quarters in, and there is no such start before it that leaves at most
      four thousand and ninety-six entries. */
  lemma {:induction false} FirstRetainedIs(total: nat, dropped: nat)
    requires dropped % 1024 == 0
    ensures (FirstRetainedFor(total) - 1) % 1024 == 0 <= FirstRetainedFor(total) - 1
    ensures total - dropped <= 4096 <==> FirstRetainedFor(total) - 1 <= dropped
  {
    var k := dropped / 1024;
    assert dropped == k * 1024;
  }

  datatype Snapshot = Snapshot(head: string, total: int, dropped: int, entries: seq<Entry>)

  function Retained(entries: seq<Entry>): (log: seq<Entry>)
    ensures |log| == |entries| - (FirstRetainedFor(|entries|) - 1)
  {
    RetainedCount(|entries|);
    entries[FirstRetainedFor(|entries|) - 1..]
  }

  /** The log these events leave: the retained run of their chain. */
  function Kept(h: Hash, events: seq<Event>): seq<Entry> {
    Retained(Chain(h, events))
  }

  lemma {:induction false} ChainAppend(h: Hash, events: seq<Event>, e: Event)
    ensures Chain(h, events + [e]) == Chain(h, events) + [Linked(h, Head(Chain(h, events)), |events| + 1, e)]
  {
  }

  /** One more event: what the cap drops from the log, and what is added. */
  lemma {:induction false} KeptAppend(h: Hash, events: seq<Event>, e: Event)
    ensures var more, was := events + [e], Kept(h, events);
            && |was| == |events| - (FirstRetainedFor(|events|) - 1) <= RETAINED
            && FirstRetainedFor(|more|) == FirstRetainedFor(|events|) + (if |was| >= RETAINED then QUARTER else 0)
            && Kept(h, more) == (if |was| >= RETAINED then was[QUARTER..] else was) + [Chain(h, more)[|events|]]
  {
    hide Chain, FirstRetainedFor;
    ChainAppend(h, events, e);
    RetainedCount(|events|);
    NextFirstRetained(|events|);
    RetainedCount(|events + [e]|);
  }

  class AuditChain {
    const hash: Hash
    var head: string
    var total: int
    var dropped: int
    var entries: seq<Entry>
    ghost var events: seq<Event>

    ghost predicate Valid()
      reads this
    {
      && total == |events|
      && dropped == FirstRetainedFor(total) - 1
      && entries == Kept(hash, events)
      && Head(Chain(hash, events)) == (if head == "" then GENESIS else head)
    }

    constructor (hash: Hash)
      ensures Valid() && events == [] && this.hash == hash
    {
      this.hash := hash;
      head, total, dropped, entries, events := "", 0, 0, [], [];
    }

    method AppendEntry(event: string, stage: string, nano: int) returns (entry: Entry)
      requires Valid()
      modifies this
      ensures Valid() && events == old(events) + [Event(event, stage, nano)]
      ensures entry == Chain(hash, events)[|events| - 1]
      ensures dropped + |entries| == total && |entries| <= RETAINED
    {
      hide Chain, Kept, FirstRetainedFor;
      ChainAppend(hash, events, Event(event, stage, nano));
      KeptAppend(hash, events, Event(event, stage, nano));
      RetainedCount(total + 1);
      var prev := if head == "" then GENESIS else head;
      total := total + 1;
      entry := Linked(hash, prev, total, Event(event, stage, nano));
      head := entry.hash;
      if |entries| >= RETAINED {
        entries := entries[QUARTER..];
        dropped := dropped + QUARTER;
      }
      entries := entries + [entry];
      events := events + [Event(event, stage, nano)];
    }

    method TakeSnapshot() returns (s: Snapshot)
      requires Valid()
      ensures s == Snapshot(Head(Chain(hash, events)), |events|, FirstRetainedFor(|events|) - 1, Kept(hash, events))
    {
      s := Snapshot(if head == "" then GENESIS else head, total, dropped, entries);
    }
  }

  // ---------------------------------------------------------------------
  // The verifier
  // ---------------------------------------------------------------------

  /** One element of a decoded log. `number` is what its seq parses to, when it is an integer at all. */
  datatype Raw = NotObject | Object(number: Option<int>, nano: int, at: string, event: string, stage: string,
                                    prev: string, hash: string)

  /** auditEntrySeq: a positive integer, or 0 for no seq at all. */
  function SeqOf(r: Raw): nat {
    if r.Object? && r.number.Some? && r.number.value >= 1 then r.number.value else 0
  }

  /** The hash an element records, as the walk compares it. */
  function HashOf(r: Raw): string {
    if r.Object? then LowerText(r.hash) else ""
  }

  /** How a time is written beside the number that is hashed. */
  datatype Clock = Clock(render: int -> string)

  function Rendered(c: Clock, nano: int): string {
    c.render(nano)
  }

  function RawText(r: Raw): string
    requires r.Object?
  {
    LinkText(LowerText(r.prev), SeqOf(r), r.nano, r.event, r.stage)
  }

  /** Entry `i` is numbered, linked, hashed and timed as the chain writes it. */
  predicate LinkGood(h: Hash, c: Clock, log: seq<Raw>, i: nat)
    requires i < |log|
  {
    var r := log[i];
    && SeqOf(r) != 0
    && (i == 0 && SeqOf(r) == 1 ==> LowerText(r.prev) == GENESIS)
    && (i > 0 ==> SeqOf(r) == SeqOf(log[i - 1]) + 1 && LowerText(r.prev) == HashOf(log[i - 1]))
    && Sum(h, RawText(r)) == HashOf(r)
    && r.at == Rendered(c, r.nano)
  }

  /** The log starts where a log that ends where it ends must start. */
  predicate StartGood(log: seq<Raw>) {
    log != [] && SeqOf(log[0]) != 0 && SeqOf(log[|log| - 1]) != 0 ==>
      SeqOf(log[0]) == FirstRetainedFor(SeqOf(log[|log| - 1]))
  }

  predicate Intact(h: Hash, c: Clock, log: seq<Raw>) {
    StartGood(log) && forall i | 0 <= i < |log| :: LinkGood(h, c, log, i)
  }

  datatype Report = Report(checked: nat, head: string, intact: bool, brokenAt: int, brokenIndex: nat,
                           entries: int, dropped: int, complete: bool)

  method AuditWalk(h: Hash, c: Clock, log: seq<Raw>) returns (r: Report)
    ensures r.intact <==> Intact(h, c, log)
    ensures r.checked <= |log| && forall i | 0 <= i < r.checked :: LinkGood(h, c, log, i)
    ensures r.checked == 0 ==> r.head == "" && r.entries == 0 && r.dropped == 0
    ensures r.checked > 0 ==>
              && r.head == HashOf(log[r.checked - 1])
              && r.entries == SeqOf(log[r.checked - 1])
              && r.dropped == SeqOf(log[0]) - 1
    ensures r.complete <==> r.intact && r.dropped == 0
    ensures r.intact ==> r.checked == |log| && r.brokenIndex == 0 && r.brokenAt == 0
    ensures !r.intact ==>
              && r.brokenIndex == r.checked + 1 <= |log| && r.brokenAt == SeqOf(log[r.checked])
              && (!LinkGood(h, c, log, r.checked) || (r.checked == 0 && !StartGood(log)))
  {
    hide Sum, LowerText, RawText, FirstRetainedFor, Rendered;
    var previous, computed, checked: nat := "", "", 0;
    var broken, brokenAt, brokenIndex: nat := false, 0, 0;
    var firstSeq, lastSeq, expectedSeq := 0, 0, 0;
    if |log| > 0 {
      var first, last := SeqOf(log[0]), SeqOf(log[|log| - 1]);
      if first != 0 && last != 0 && first != FirstRetainedFor(last) {
        broken, brokenIndex, brokenAt := true, 1, first;
      }
    }
    while !broken && checked < |log|
      invariant checked <= |log|
      invariant !broken ==> StartGood(log) && brokenIndex == 0 && brokenAt == 0
      invariant forall i | 0 <= i < checked :: LinkGood(h, c, log, i)
      invariant checked == 0 ==> previous == computed == "" && firstSeq == lastSeq == expectedSeq == 0
      invariant checked > 0 ==>
                  && previous == computed == HashOf(log[checked - 1]) && previous != ""
                  && SeqOf(log[checked - 1]) == lastSeq && expectedSeq == lastSeq + 1
                  && SeqOf(log[0]) == firstSeq != 0
      invariant broken ==>
                  && brokenIndex == checked + 1 <= |log| && brokenAt == SeqOf(log[checked])
                  && (!LinkGood(h, c, log, checked) || (checked == 0 && !StartGood(log)))
      decreases !broken, |log| - checked
    {
      var raw := log[checked];
      var number := SeqOf(raw);
      if number == 0 {
        broken, brokenIndex, brokenAt := true, checked + 1, 0;
      } else {
        var prev, hash := LowerText(raw.prev), LowerText(raw.hash);
        if || (expectedSeq != 0 && number != expectedSeq)
           || (previous == "" && number == 1 && prev != GENESIS)
           || (previous != "" && prev != previous)
           || Sum(h, RawText(raw)) != hash
           || raw.at != Rendered(c, raw.nano)
        {
          broken, brokenIndex, brokenAt := true, checked + 1, number;
        } else {
          if firstSeq == 0 {
            firstSeq := number;
          }
          lastSeq, expectedSeq := number, number + 1;
          previous, computed := hash, hash;
          checked := checked + 1;
        }
      }
    }
    var dropped := if firstSeq > 0 then firstSeq - 1 else 0;
    r := Report(checked, computed, !broken, brokenAt, brokenIndex, lastSeq, dropped, !broken && dropped == 0);
  }

  // ---------------------------------------------------------------------
  // Honest logs are accepted
  // ---------------------------------------------------------------------

  /** An entry as audit_write renders it and the verifier decodes it. */
  function Written(c: Clock, e: Entry): Raw {
    Object(Some(e.number), e.nano, Rendered(c, e.nano), e.event, e.stage, e.prev, e.hash)
  }

  function Document(c: Clock, entries: seq<Entry>): (log: seq<Raw>)
    ensures |log| == |entries|
  {
    seq(|entries|, i requires 0 <= i < |entries| => Written(c, entries[i]))
  }

  /** What a chain's own entries look like once their hashes are lowered. */
  lemma {:induction false} EntryShape(h: Hash, events: seq<Event>, i: nat)
    requires i < |events|
    ensures var c := Chain(h, events);
            && c[i].number == i + 1
            && c[i].prev == (if i == 0 then GENESIS else c[i - 1].hash)
            && c[i].hash == Sum(h, EntryText(c[i]))
            && LowerText(c[i].hash) == c[i].hash && LowerText(c[i].prev) == c[i].prev
  {
    hide Sum, LinkText, LowerText;
    ChainAt(h, events, i);
    LowerOfHex(Chain(h, events)[i].hash);
    if i > 0 {
      ChainAt(h, events, i - 1);
      LowerOfHex(Chain(h, events)[i - 1].hash);
    } else {
      LowerOfHex(GENESIS);
    }
  }

  /** Entry `i` of an honest log: which entry of the chain it is, and that its link holds. */
  lemma {:induction false} HonestLink(h: Hash, c: Clock, events: seq<Event>, i: nat)
    requires i < |Kept(h, events)|
    ensures var log, j := Document(c, Kept(h, events)), FirstRetainedFor(|events|) - 1 + i;
            && 0 <= j < |events| && log[i] == Written(c, Chain(h, events)[j])
            && SeqOf(log[i]) == j + 1 && HashOf(log[i]) == Chain(h, events)[j].hash
            && LinkGood(h, c, log, i)
  {
    hide Sum, LinkText, LowerText, Chain, FirstRetainedFor, Rendered;
    RetainedCount(|events|);
    var log, j := Document(c, Kept(h, events)), FirstRetainedFor(|events|) - 1 + i;
    EntryShape(h, events, j);
    if i > 0 {
      EntryShape(h, events, j - 1);
      assert log[i - 1] == Written(c, Chain(h, events)[j - 1]);
    }
  }

  /** Every log the chain can leave is accepted, and the walk finds its head and its counts. */
  lemma {:induction false} HonestLogIntact(h: Hash, c: Clock, events: seq<Event>)
    requires events != []
    ensures var log := Document(c, Kept(h, events));
            && log != [] && Intact(h, c, log)
            && HashOf(log[|log| - 1]) == Head(Chain(h, events))
            && SeqOf(log[|log| - 1]) == |events|
            && SeqOf(log[0]) == FirstRetainedFor(|events|)
  {
    hide LinkGood, LowerText, HashOf, SeqOf, Chain, FirstRetainedFor;
    RetainedCount(|events|);
    var log := Document(c, Kept(h, events));
    forall i | 0 <= i < |log|
      ensures LinkGood(h, c, log, i)
    {
      HonestLink(h, c, events, i);
    }
    HonestLink(h, c, events, 0);
    HonestLink(h, c, events, |log| - 1);
  }

  // ---------------------------------------------------------------------
  // What the verifier accepts is what a chain writes
  // ---------------------------------------------------------------------

  /** What a chain goes on to write after a hash, from a number on. */
  function Continued(h: Hash, prev: string, number: nat, events: seq<Event>): (c: seq<Entry>)
    ensures |c| == |events|
  {
    if events == [] then []
    else
      var c := Continued(h, prev, number, events[..|events| - 1]);
      c + [Linked(h, if c == [] then prev else c[|c| - 1].hash, number + |c|, events[|events| - 1])]
  }

  lemma {:induction false} ContinuedAt(h: Hash, prev: string, number: nat, events: seq<Event>, i: nat)
    requires i < |events|
    ensures var c := Continued(h, prev, number, events);
            c[i] == Linked(h, if i == 0 then prev else c[i - 1].hash, number + i, events[i])
    decreases |events|
  {
    hide Linked;
    var last := |events| - 1;
    if i < last {
      ContinuedAt(h, prev, number, events[..last], i);
    }
  }

  lemma {:induction false} ChainIsContinued(h: Hash, events: seq<Event>)
    ensures Chain(h, events) == Continued(h, GENESIS, 1, events)
  {
    if events != [] {
      ChainIsContinued(h, events[..|events| - 1]);
    }
  }

  function EventOf(r: Raw): Event {
    if r.Object? then Event(r.event, r.stage, r.nano) else Event("", "", 0)
  }

  function EventsOf(log: seq<Raw>): (events: seq<Event>)
    ensures |events| == |log|
  {
    seq(|log|, i requires 0 <= i < |log| => EventOf(log[i]))
  }

  /** `r` says what `e` says, but for the letter case of its two digests. */
  predicate Says(c: Clock, r: Raw, e: Entry) {
    r.Object? && r.(prev := LowerText(r.prev), hash := LowerText(r.hash)) == Written(c, e)
  }

  predicate SameLog(c: Clock, log: seq<Raw>, entries: seq<Entry>) {
    |log| == |entries| && forall i | 0 <= i < |log| :: Says(c, log[i], entries[i])
  }

  /** Entry for entry what a chain would have gone on to write, for the events the log reports, after the hash its first
      entry names; and that is sixty-four zeros for the first entry of all. */
  predicate IsWritten(h: Hash, c: Clock, log: seq<Raw>) {
    log == [] ||
    (&& log[0].Object? && SeqOf(log[0]) != 0
     && (SeqOf(log[0]) == 1 ==> LowerText(log[0].prev) == Zeros(64))
     && SameLog(c, log, Continued(h, LowerText(log[0].prev), SeqOf(log[0]), EventsOf(log))))
  }

  lemma {:induction false} LinkSays(h: Hash, c: Clock, log: seq<Raw>, i: nat, e: Entry)
    requires i < |log| && log[0].Object? && SeqOf(log[0]) != 0
    requires e == Linked(h, if i == 0 then LowerText(log[0].prev) else HashOf(log[i - 1]), SeqOf(log[0]) + i,
                         EventOf(log[i]))
    requires SeqOf(log[0]) == 1 ==> LowerText(log[0].prev) == GENESIS
    requires i > 0 ==> SeqOf(log[i - 1]) == SeqOf(log[0]) + i - 1
    ensures LinkGood(h, c, log, i) <==> Says(c, log[i], e)
  {
    hide Sum, LinkText, LowerText, Rendered;
  }

  lemma {:induction false} SaysHash(h: Hash, c: Clock, r: Raw, prev: string, number: nat, e: Event)
    requires Says(c, r, Linked(h, prev, number, e)) && number > 0
    ensures HashOf(r) == Linked(h, prev, number, e).hash && SeqOf(r) == number
  {
    hide Sum, LinkText, LowerText, Rendered;
  }

  /** By then the log is what was written, up to `n`. */
  lemma {:induction false} LinksAre(h: Hash, c: Clock, log: seq<Raw>, n: nat)
    requires n <= |log| && log != [] && log[0].Object? && SeqOf(log[0]) != 0
    requires SeqOf(log[0]) == 1 ==> LowerText(log[0].prev) == GENESIS
    ensures var w := Continued(h, LowerText(log[0].prev), SeqOf(log[0]), EventsOf(log));
            (forall i | 0 <= i < n :: LinkGood(h, c, log, i)) <==> (forall i | 0 <= i < n :: Says(c, log[i], w[i]))
  {
    hide Linked, LinkGood, Says, HashOf, SeqOf, LowerText, Continued;
    var prev, first, events := LowerText(log[0].prev), SeqOf(log[0]), EventsOf(log);
    var w := Continued(h, prev, first, events);
    if n > 0 {
      LinksAre(h, c, log, n - 1);
      if forall i | 0 <= i < n - 1 :: Says(c, log[i], w[i]) {
        ContinuedAt(h, prev, first, events, n - 1);
        if n > 1 {
          ContinuedAt(h, prev, first, events, n - 2);
          SaysHash(h, c, log[n - 2], if n == 2 then prev else w[n - 3].hash, first + n - 2, events[n - 2]);
        }
        LinkSays(h, c, log, n - 1, w[n - 1]);
      }
    }
  }

  /** Exactly what a chain would have written, starting where a log that ends where it ends must start, is intact. */
  lemma {:induction false} IntactIff(h: Hash, c: Clock, log: seq<Raw>)
    ensures Intact(h, c, log) <==> StartGood(log) && IsWritten(h, c, log)
  {
    hide Says, HashOf, LowerText, Continued, EventsOf, Sum, RawText, Rendered;
    if log != [] {
      if log[0].Object? && SeqOf(log[0]) != 0 && (SeqOf(log[0]) == 1 ==> LowerText(log[0].prev) == GENESIS) {
        hide LinkGood;
        LinksAre(h, c, log, |log|);
      } else {
        assert !LinkGood(h, c, log, 0);
      }
    }
  }

  // ---------------------------------------------------------------------
  // No other log has the head
  // ---------------------------------------------------------------------

  /** Some entry of `log` and some entry of `chain` hash distinct bytes to one digest. */
  ghost predicate Forged(h: Hash, log: seq<Raw>, chain: seq<Entry>) {
    exists i, j :: 0 <= i < |log| && 0 <= j < |chain| && log[i].Object?
                   && Clash(h, RawText(log[i]), EntryText(chain[j]))
  }

  /** Seqs of an intact log run on from the first. */
  lemma {:induction false} SeqRuns(h: Hash, c: Clock, log: seq<Raw>, i: nat)
    requires Intact(h, c, log) && i < |log|
    ensures SeqOf(log[0]) != 0 && SeqOf(log[i]) == SeqOf(log[0]) + i
  {
    hide Sum, RawText, LowerText, Rendered;
    assert LinkGood(h, c, log, i);
    if i > 0 {
      SeqRuns(h, c, log, i - 1);
    }
  }

  /** A log entry with a chain entry's hash is that entry, or the two clash. */
  lemma {:induction false} SameHashSameEntry(h: Hash, c: Clock, events: seq<Event>, log: seq<Raw>, i: nat, j: nat)
    requires Intact(h, c, log) && i < |log| && j < |events|
    requires HashOf(log[i]) == Chain(h, events)[j].hash
    ensures Says(c, log[i], Chain(h, events)[j]) || Forged(h, log, Chain(h, events))
  {
    hide Chain, LinkText, Rendered, LowerText, Sum;
    var r, e := log[i], Chain(h, events)[j];
    assert LinkGood(h, c, log, i);
    EntryShape(h, events, j);
    if RawText(r) == EntryText(e) {
      LinkTextInjective(LowerText(r.prev), SeqOf(r), r.nano, r.event, r.stage,
                        e.prev, e.number, e.nano, e.event, e.stage);
    } else {
      assert Clash(h, RawText(log[i]), EntryText(Chain(h, events)[j]));
    }
  }

  /** Walking back from the head, entry by entry, the log is the chain. */
  lemma {:induction false} WalkBack(h: Hash, c: Clock, events: seq<Event>, log: seq<Raw>, k: nat)
    requires Intact(h, c, log) && log != [] && events != [] && k < |log|
    requires HashOf(log[|log| - 1]) == Head(Chain(h, events))
    requires !Forged(h, log, Chain(h, events))
    ensures k < |events| && Says(c, log[|log| - 1 - k], Chain(h, events)[|events| - 1 - k])
  {
    hide Chain, LowerText, Forged, Rendered, Sum, RawText;
    var i, j := |log| - 1 - k, |events| - 1 - k;
    if k > 0 {
      WalkBack(h, c, events, log, k - 1);
      EntryShape(h, events, j + 1);
      assert LinkGood(h, c, log, i + 1) && LinkGood(h, c, log, i);
    }
    SameHashSameEntry(h, c, events, log, i, j);
  }

  /** A log found intact under a genuine head is, entry for entry, the genuine retained run. */
  lemma {:induction false} OnlyTheGenuineLog(h: Hash, c: Clock, events: seq<Event>, log: seq<Raw>)
    requires Intact(h, c, log) && log != [] && events != []
    requires HashOf(log[|log| - 1]) == Head(Chain(h, events))
    ensures SameLog(c, log, Kept(h, events)) || Forged(h, log, Chain(h, events))
  {
    hide Chain, LowerText, Forged, Rendered, Sum, RawText, FirstRetainedFor;
    var chain := Chain(h, events);
    if !Forged(h, log, chain) {
      var last := |log| - 1;
      WalkBack(h, c, events, log, 0);
      EntryShape(h, events, |events| - 1);
      SeqRuns(h, c, log, last);
      RetainedCount(|events|);
      forall i | 0 <= i < |log|
        ensures Says(c, log[i], Kept(h, events)[i])
      {
        WalkBack(h, c, events, log, last - i);
      }
    }
  }
}
