// Event chains: events that each name the one before them by digest, read back
// in order from whatever nodes a ledger holds, in whatever order it holds them.
module CaseChain {
  import opened Common
  import opened Text
  import opened Digest
  import opened ChainUid
  import opened Order

  /** One event of a chain as a node holds it. */
  datatype Event = Event(id: nat, props: Props)

  /** What the index points at: a node gone since, a node of another label, one that cannot be decoded, or an event. */
  datatype Stored = Gone | OtherLabel | Unreadable | Node(event: Event)

  function UidOf(prefix: string, e: Event): string {
    Get(e.props, Key(prefix, "uid"))
  }

  function PrevOf(prefix: string, e: Event): string {
    Get(e.props, Key(prefix, "prev_uid"))
  }

  /** The event's position, or 0 when it has none. */
  function SeqOf(prefix: string, e: Event): nat {
    match ParseUint(Get(e.props, Key(prefix, "seq")), WORD) case Some(n) => n case None => 0
  }

  /** An event with a position whose uid recomputes. */
  ghost predicate Genuine(h: Hash, prefix: string, e: Event) {
    SeqOf(prefix, e) != 0 && UidOf(prefix, e) == Uid(h, prefix, e.props)
  }

  // ---------------------------------------------------------------------
  // What a chain is
  // ---------------------------------------------------------------------

  /** The uid the event after these names: "" before the first. */
  function HeadUid(prefix: string, line: seq<Event>): string {
    if line == [] then "" else UidOf(prefix, line[|line| - 1])
  }

  /** Each event names the one before it and says its own position. */
  predicate Line(prefix: string, line: seq<Event>) {
    forall i | 0 <= i < |line| ::
      PrevOf(prefix, line[i]) == HeadUid(prefix, line[..i]) && SeqOf(prefix, line[i]) == i + 1
  }

  /** No two events name one predecessor. */
  predicate NoFork(prefix: string, line: seq<Event>) {
    forall i, j | 0 <= i < j < |line| :: PrevOf(prefix, line[i]) != PrevOf(prefix, line[j])
  }

  /** `line` is all of `events`, first to head. */
  predicate IsChain(prefix: string, events: seq<Event>, line: seq<Event>) {
    multiset(line) == multiset(events) && Line(prefix, line) && NoFork(prefix, line)
  }

  /** Events make at most one chain. */
  lemma ChainUnique(prefix: string, events: seq<Event>, a: seq<Event>, b: seq<Event>)
    requires IsChain(prefix, events, a) && IsChain(prefix, events, b)
    ensures a == b
  {
    hide SeqOf, PrevOf, HeadUid;
    assert |multiset(a)| == |multiset(b)|;
    forall i | 0 <= i < |a|
      ensures a[i] == b[i]
    {
      assert a[i] in multiset(b);
      var j :| 0 <= j < |b| && b[j] == a[i];
    }
  }

  // ---------------------------------------------------------------------
  // The events that name one predecessor
  // ---------------------------------------------------------------------

  function After(prefix: string, events: seq<Event>, prev: string): seq<Event> {
    if events == [] then []
    else
      var last := events[|events| - 1];
      After(prefix, events[..|events| - 1], prev) + if PrevOf(prefix, last) == prev then [last] else []
  }

  lemma {:induction false} AfterCounts(prefix: string, events: seq<Event>, prev: string, e: Event)
    ensures multiset(After(prefix, events, prev))[e] == if PrevOf(prefix, e) == prev then multiset(events)[e] else 0
    decreases |events|
  {
    hide PrevOf;
    if events != [] {
      var n := |events| - 1;
      AfterCounts(prefix, events[..n], prev, e);
      assert events == events[..n] + [events[n]];
    }
  }

  /** Which events name a predecessor is fixed by what events there are. */
  lemma {:induction false} AfterForgetsOrder(prefix: string, a: seq<Event>, b: seq<Event>, prev: string)
    requires multiset(a) == multiset(b)
    ensures multiset(After(prefix, a, prev)) == multiset(After(prefix, b, prev))
  {
    hide After;
    forall e: Event
      ensures multiset(After(prefix, a, prev))[e] == multiset(After(prefix, b, prev))[e]
    {
      AfterCounts(prefix, a, prev, e);
      AfterCounts(prefix, b, prev, e);
    }
  }

  /** In a chain, exactly one event names each predecessor that is named. */
  lemma {:induction false} AfterInNoFork(prefix: string, line: seq<Event>, i: nat)
    requires NoFork(prefix, line) && i < |line|
    ensures After(prefix, line, PrevOf(prefix, line[i])) == [line[i]]
    decreases |line|
  {
    hide PrevOf;
    var n := |line| - 1;
    var rest, prev := line[..n], PrevOf(prefix, line[i]);
    if i < n {
      AfterInNoFork(prefix, rest, i);
    } else {
      NoneAfter(prefix, rest, prev);
    }
  }

  lemma {:induction false} NoneAfter(prefix: string, events: seq<Event>, prev: string)
    requires forall i | 0 <= i < |events| :: PrevOf(prefix, events[i]) != prev
    ensures After(prefix, events, prev) == []
    decreases |events|
  {
    hide PrevOf;
    if events != [] {
      NoneAfter(prefix, events[..|events| - 1], prev);
    }
  }

  lemma {:induction false} ChainAfter(prefix: string, events: seq<Event>, line: seq<Event>, i: nat)
    requires IsChain(prefix, events, line) && i < |line|
    ensures After(prefix, events, PrevOf(prefix, line[i])) == [line[i]]
  {
    hide PrevOf, After, Line, NoFork;
    var prev := PrevOf(prefix, line[i]);
    AfterInNoFork(prefix, line, i);
    AfterForgetsOrder(prefix, events, line, prev);
    var s := After(prefix, events, prev);
    assert multiset(s) == multiset{line[i]};
    assert |s| == |multiset(s)| == 1;
    assert s[0] in multiset(s);
  }

  // ---------------------------------------------------------------------
  // The walk
  // ---------------------------------------------------------------------

  /** The walk so far: a line without forks, each event the only one after the one before it. */
  predicate Walked(prefix: string, events: seq<Event>, out: seq<Event>) {
    && Line(prefix, out) && NoFork(prefix, out)
    && forall i | 0 <= i < |out| :: After(prefix, events, PrevOf(prefix, out[i])) == [out[i]]
  }

  /** Some event of `out` names `prev`. */
  predicate Named(prefix: string, out: seq<Event>, prev: string) {
    exists i :: 0 <= i < |out| && PrevOf(prefix, out[i]) == prev
  }

  /** The walk follows the chain, if there is one. */
  lemma WalkFollowsChain(prefix: string, events: seq<Event>, out: seq<Event>, line: seq<Event>, i: nat)
    requires Walked(prefix, events, out) && IsChain(prefix, events, line) && i < |out|
    ensures i < |line| && out[i] == line[i]
  {
    hide PrevOf, After, SeqOf, NoFork, HeadUid;
    InAfter(prefix, events, out[i]);
    assert out[i] in multiset(line);
    var j :| 0 <= j < |line| && line[j] == out[i];
  }

  lemma {:induction false} InAfter(prefix: string, events: seq<Event>, e: Event)
    requires After(prefix, events, PrevOf(prefix, e)) == [e]
    ensures e in events && multiset(events)[e] == 1
  {
    hide After, PrevOf;
    AfterCounts(prefix, events, PrevOf(prefix, e), e);
    assert multiset(After(prefix, events, PrevOf(prefix, e))) == multiset{e};
    assert e in multiset(events);
  }

  /** Where the walk stands, a chain goes on with the only event after it, or ends with no event unwalked. */
  lemma {:induction false} ChainGoesOn(prefix: string, events: seq<Event>, out: seq<Event>, line: seq<Event>)
    requires Walked(prefix, events, out) && IsChain(prefix, events, line)
    ensures |out| <= |line| == |events| && out == line[..|out|]
    ensures |out| < |line| ==>
              && !Named(prefix, out, HeadUid(prefix, out))
              && After(prefix, events, HeadUid(prefix, out)) == [line[|out|]]
              && SeqOf(prefix, line[|out|]) == |out| + 1
    ensures |out| == |line| ==> forall e | e in events :: Named(prefix, out, PrevOf(prefix, e))
  {
    hide PrevOf, After, SeqOf, HeadUid;
    forall i | 0 <= i < |out|
      ensures i < |line| && out[i] == line[i]
    {
      WalkFollowsChain(prefix, events, out, line, i);
    }
    AllWalked(prefix, events, out);
    assert |multiset(line)| == |multiset(events)|;
    if |out| < |line| {
      ChainAfter(prefix, events, line, |out|);
    } else {
      assert out == line;
      forall e | e in events
        ensures Named(prefix, out, PrevOf(prefix, e))
      {
        assert e in multiset(line);
        var j :| 0 <= j < |line| && line[j] == e;
      }
    }
  }

  /** Every event walked once and none left over: the walk is the chain. */
  lemma AllWalked(prefix: string, events: seq<Event>, out: seq<Event>)
    requires Walked(prefix, events, out)
    ensures multiset(out) <= multiset(events) && |out| <= |events|
    ensures (forall e | e in events :: Named(prefix, out, PrevOf(prefix, e))) <==> |out| == |events|
    ensures |out| == |events| ==> IsChain(prefix, events, out)
  {
    hide PrevOf, After, SeqOf, HeadUid, Line;
    forall e: Event | e in multiset(out)
      ensures multiset(out)[e] <= multiset(events)[e]
    {
      var i :| 0 <= i < |out| && out[i] == e;
      InAfter(prefix, events, e);
      OnceInNoFork(prefix, out, e);
    }
    assert multiset(events) == multiset(out) + (multiset(events) - multiset(out));
    assert |multiset(events)| == |multiset(out)| + |multiset(events) - multiset(out)|;
    if forall e | e in events :: Named(prefix, out, PrevOf(prefix, e)) {
      forall e: Event | e in multiset(events)
        ensures multiset(events)[e] == multiset(out)[e]
      {
        assert e in events && Named(prefix, out, PrevOf(prefix, e));
        var i :| 0 <= i < |out| && PrevOf(prefix, out[i]) == PrevOf(prefix, e);
        AfterCounts(prefix, events, PrevOf(prefix, e), e);
        assert multiset(After(prefix, events, PrevOf(prefix, e))) == multiset{out[i]};
        assert out[i] == e && e in multiset(out);
      }
      assert multiset(events) == multiset(out);
    }
    if |out| == |events| {
      assert multiset(events) - multiset(out) == multiset{};
      assert multiset(events) == multiset(out);
      assert forall e | e in events :: e in multiset(out);
    }
  }

  lemma {:induction false} OnceInNoFork(prefix: string, out: seq<Event>, e: Event)
    requires NoFork(prefix, out)
    ensures multiset(out)[e] <= 1
    decreases |out|
  {
    hide PrevOf;
    if out != [] {
      var n := |out| - 1;
      OnceInNoFork(prefix, out[..n], e);
      assert out == out[..n] + [out[n]];
      if out[n] == e {
        assert forall i | 0 <= i < n :: out[i] != e;
        assert e !in out[..n];
      }
    }
  }

  lemma {:induction false} WalkStep(prefix: string, events: seq<Event>, out: seq<Event>, e: Event)
    requires Walked(prefix, events, out) && !Named(prefix, out, HeadUid(prefix, out))
    requires After(prefix, events, HeadUid(prefix, out)) == [e] && SeqOf(prefix, e) == |out| + 1
    ensures PrevOf(prefix, e) == HeadUid(prefix, out) && Walked(prefix, events, out + [e])
    ensures forall p :: Named(prefix, out + [e], p) <==> Named(prefix, out, p) || p == HeadUid(prefix, out)
  {
    hide PrevOf, After, SeqOf, HeadUid;
    var more, head := out + [e], HeadUid(prefix, out);
    AfterCounts(prefix, events, head, e);
    assert multiset([e])[e] == 1;
    assert PrevOf(prefix, e) == head;
    forall i | 0 <= i < |more|
      ensures PrevOf(prefix, more[i]) == HeadUid(prefix, more[..i]) && SeqOf(prefix, more[i]) == i + 1
    {
      assert more[..i] == out[..i];
      assert i == |out| ==> out[..i] == out;
    }
    assert forall i | 0 <= i < |out| :: more[i] == out[i];
    assert more[|out|] == e;
  }

  // ---------------------------------------------------------------------
  // The reader
  // ---------------------------------------------------------------------

  /** The events among the nodes, in the order the nodes come. */
  function Events(nodes: seq<Stored>): seq<Event> {
    if nodes == [] then []
    else
      var last := nodes[|nodes| - 1];
      Events(nodes[..|nodes| - 1]) + if last.Node? then [last.event] else []
  }

  /** Every node can be read, and every event among them is genuine. */
  ghost predicate AllGenuine(h: Hash, prefix: string, nodes: seq<Stored>) {
    forall i | 0 <= i < |nodes| ::
      !nodes[i].Unreadable? && (nodes[i].Node? ==> Genuine(h, prefix, nodes[i].event))
  }

  /** What filing events under the predecessor each names makes of them. */
  ghost predicate Filed(prefix: string, events: seq<Event>, out: seq<Event>, byPrev: map<string, seq<Event>>) {
    && (forall p | p in byPrev :: byPrev[p] == After(prefix, events, p) != [])
    && (forall p :: p in byPrev <==> After(prefix, events, p) != [] && !Named(prefix, out, p))
  }

  /** The loop that reads the nodes. */
  method Load(h: Hash, prefix: string, nodes: seq<Stored>) returns (r: Outcome<(map<string, seq<Event>>, nat)>)
    ensures r.Ok? <==> AllGenuine(h, prefix, nodes)
    ensures r.Ok? ==> Filed(prefix, Events(nodes), [], r.value.0) && r.value.1 == |Events(nodes)|
  {
    hide Uid, SeqOf, UidOf, PrevOf, Filed, Events;
    var byPrev: map<string, seq<Event>>, count: nat := map[], 0;
    var i: nat := 0;
    NothingFiled(prefix);
    while i < |nodes|
      invariant i <= |nodes| && AllGenuine(h, prefix, nodes[..i])
      invariant count == |Events(nodes[..i])|
      invariant Filed(prefix, Events(nodes[..i]), [], byPrev)
      decreases |nodes| - i
    {
      var node := nodes[i];
      EventsTurn(nodes, i);
      if node.Unreadable? {
        return Refused;
      }
      if node.Node? {
        var e := node.event;
        if SeqOf(prefix, e) == 0 {
          return Refused;
        }
        var want := CaseChainUid(h, prefix, e.props);
        if UidOf(prefix, e) != want {
          return Refused;
        }
        var prev := PrevOf(prefix, e);
        FiledAppend(prefix, Events(nodes[..i]), e, byPrev);
        byPrev := byPrev[prev := (if prev in byPrev then byPrev[prev] else []) + [e]];
        count := count + 1;
      }
      i := i + 1;
    }
    assert nodes[..i] == nodes;
    return Ok((byPrev, count));
  }

  lemma EventsTurn(nodes: seq<Stored>, i: nat)
    requires i < |nodes|
    ensures Events(nodes[..i + 1]) ==
            if nodes[i].Node? then Events(nodes[..i]) + [nodes[i].event] else Events(nodes[..i])
  {
    assert nodes[..i + 1][..i] == nodes[..i];
  }

  lemma NothingFiled(prefix: string)
    ensures Events([]) == [] && Filed(prefix, [], [], map[])
  {
  }

  lemma FiledAppend(prefix: string, events: seq<Event>, e: Event, byPrev: map<string, seq<Event>>)
    requires Filed(prefix, events, [], byPrev)
    ensures var prev := PrevOf(prefix, e);
            Filed(prefix, events + [e], [], byPrev[prev := (if prev in byPrev then byPrev[prev] else []) + [e]])
  {
    hide PrevOf;
    var more := events + [e];
    assert more[..|events|] == events && more[|events|] == e;
    assert forall p :: After(prefix, more, p) == After(prefix, events, p) + if PrevOf(prefix, e) == p then [e] else [];
  }

  /** The chain the nodes hold, if every event among them is genuine and they make one; a refusal otherwise. */
  ghost predicate ReadsAs(h: Hash, prefix: string, nodes: seq<Stored>, r: Outcome<seq<Event>>) {
    if r.Ok? then AllGenuine(h, prefix, nodes) && IsChain(prefix, Events(nodes), r.value)
    else !AllGenuine(h, prefix, nodes) || forall line :: !IsChain(prefix, Events(nodes), line)
  }

  /** Event `i` of a line, by its properties: its digest, its position, and the event before it. */
  ghost predicate InPlace(h: Hash, prefix: string, line: seq<Event>, i: nat)
    requires i < |line|
  {
    var props := line[i].props;
    && Get(props, prefix + ".uid") == Sum(h, UidText(prefix, props))
    && ParseUint(Get(props, prefix + ".seq"), 0x1_0000_0000_0000_0000) == Some(i + 1)
    && Get(props, prefix + ".prev_uid") == if i == 0 then "" else Get(line[i - 1].props, prefix + ".uid")
  }

  /** The events among the nodes are those of the line, each as often. */
  ghost predicate SameEvents(nodes: seq<Stored>, line: seq<Event>) {
    forall e: Event :: multiset(line)[e] == multiset(nodes)[Node(e)]
  }

  lemma {:induction false} SameEventsIff(nodes: seq<Stored>, line: seq<Event>)
    ensures multiset(line) == multiset(Events(nodes)) <==> SameEvents(nodes, line)
  {
    hide Events;
    forall e: Event
      ensures multiset(Events(nodes))[e] == multiset(nodes)[Node(e)]
    {
      EventsCount(nodes, e);
    }
  }

  /** What is read is a line exactly if no node is unreadable, the events among them are those of the line, each event is
      in its place, and no two name one predecessor. */
  lemma {:induction false} ReadsIff(h: Hash, prefix: string, nodes: seq<Stored>, line: seq<Event>)
    ensures ReadsAs(h, prefix, nodes, Ok(line)) <==>
            && Unreadable !in nodes && SameEvents(nodes, line)
            && (forall i | 0 <= i < |line| :: InPlace(h, prefix, line, i))
            && (forall i, j | 0 <= i < j < |line| ::
                  Get(line[i].props, prefix + ".prev_uid") != Get(line[j].props, prefix + ".prev_uid"))
  {
    hide Events, Get, SameEvents, InPlace, Line, AllGenuine, Genuine, Key;
    SameEventsIff(nodes, line);
    LineIs(h, prefix, line);
    NoForkIs(prefix, line);
    if SameEvents(nodes, line) {
      GenuineOnes(h, prefix, nodes, line);
    }
  }

  lemma {:induction false} NoForkIs(prefix: string, line: seq<Event>)
    ensures NoFork(prefix, line) <==>
            forall i, j | 0 <= i < j < |line| ::
              Get(line[i].props, prefix + ".prev_uid") != Get(line[j].props, prefix + ".prev_uid")
  {
    hide Get;
    assert Key(prefix, "prev_uid") == prefix + ".prev_uid";
  }

  lemma {:induction false} LineIs(h: Hash, prefix: string, line: seq<Event>)
    ensures (forall i | 0 <= i < |line| :: InPlace(h, prefix, line, i)) <==>
            Line(prefix, line) && forall i | 0 <= i < |line| :: Genuine(h, prefix, line[i])
  {
    hide UidText, ParseUint, Get, Sum;
    forall i | 0 <= i < |line|
      ensures InPlace(h, prefix, line, i) <==>
              && PrevOf(prefix, line[i]) == HeadUid(prefix, line[..i]) && SeqOf(prefix, line[i]) == i + 1
              && Genuine(h, prefix, line[i])
    {
      assert i > 0 ==> line[..i][i - 1] == line[i - 1];
      assert Key(prefix, "uid") == prefix + ".uid" && Key(prefix, "seq") == prefix + ".seq";
      assert Key(prefix, "prev_uid") == prefix + ".prev_uid";
    }
  }

  lemma {:induction false} GenuineOnes(h: Hash, prefix: string, nodes: seq<Stored>, line: seq<Event>)
    requires SameEvents(nodes, line)
    ensures AllGenuine(h, prefix, nodes) <==>
            && Unreadable !in nodes
            && forall i | 0 <= i < |line| :: Genuine(h, prefix, line[i])
  {
    hide Genuine;
    forall i | 0 <= i < |line|
      ensures exists k :: 0 <= k < |nodes| && nodes[k] == Node(line[i])
    {
      assert line[i] in multiset(line);
      assert Node(line[i]) in multiset(nodes);
    }
    forall k | 0 <= k < |nodes| && nodes[k].Node?
      ensures exists i :: 0 <= i < |line| && line[i] == nodes[k].event
    {
      assert Node(nodes[k].event) == nodes[k] && nodes[k] in multiset(nodes);
      assert nodes[k].event in multiset(line);
    }
  }

  /** caseChainRead: the chain the nodes hold, or a refusal of anything else. */
  method CaseChainRead(h: Hash, prefix: string, nodes: seq<Stored>) returns (r: Outcome<seq<Event>>)
    ensures ReadsAs(h, prefix, nodes, r)
  {
    hide IsChain, Walked, AllGenuine, SeqOf, UidOf, PrevOf, After, Events, Named;
    var loaded := Load(h, prefix, nodes);
    if loaded.Refused? {
      return Refused;
    }
    var byPrev, count := loaded.value.0, loaded.value.1;
    ghost var events := Events(nodes);
    var out: seq<Event>, prev := [], "";
    NothingWalked(prefix, events);
    while prev in byPrev
      invariant Walked(prefix, events, out) && prev == HeadUid(prefix, out)
      invariant Filed(prefix, events, out, byPrev)
      decreases |byPrev|
    {
      var next := byPrev[prev];
      forall line | IsChain(prefix, events, line)
        ensures |next| == 1 && SeqOf(prefix, next[0]) == |out| + 1
      {
        MustGoOn(prefix, events, out, line);
      }
      if |next| > 1 {
        return Refused;
      }
      var event := next[0];
      if SeqOf(prefix, event) != |out| + 1 {
        return Refused;
      }
      WalkStep(prefix, events, out, event);
      SmallerMap(byPrev, prev);
      byPrev := byPrev - {prev};
      out := out + [event];
      prev := UidOf(prefix, event);
      assert out[|out| - 1] == event;
    }
    AllWalked(prefix, events, out);
    forall line | IsChain(prefix, events, line)
      ensures |out| == count
    {
      MustGoOn(prefix, events, out, line);
    }
    if |out| != count {
      LeftOver(prefix, events, out, byPrev);
      if byPrev != map[] {
        return Refused;
      }
    }
    return Ok(out);
  }

  lemma NothingWalked(prefix: string, events: seq<Event>)
    ensures Walked(prefix, events, []) && HeadUid(prefix, []) == ""
  {
  }

  lemma SmallerMap(m: map<string, seq<Event>>, p: string)
    requires p in m
    ensures |m - {p}| < |m|
  {
  }

  /** Where a chain exists, the walk finds its next event, or is at its end. */
  lemma {:induction false} MustGoOn(prefix: string, events: seq<Event>, out: seq<Event>, line: seq<Event>)
    requires Walked(prefix, events, out) && IsChain(prefix, events, line)
    ensures var head := HeadUid(prefix, out);
            if After(prefix, events, head) != [] && !Named(prefix, out, head)
            then |After(prefix, events, head)| == 1 && SeqOf(prefix, After(prefix, events, head)[0]) == |out| + 1
            else |out| == |events|
  {
    hide IsChain, Walked, SeqOf, PrevOf, HeadUid;
    var head := HeadUid(prefix, out);
    ChainGoesOn(prefix, events, out, line);
    if |out| == |line| && After(prefix, events, head) != [] {
      var e := After(prefix, events, head)[0];
      AfterCounts(prefix, events, head, e);
      assert e in multiset(After(prefix, events, head));
      assert e in events;
    }
  }

  /** A short walk leaves events filed: the reader never returns part of a chain. */
  lemma LeftOver(prefix: string, events: seq<Event>, out: seq<Event>, byPrev: map<string, seq<Event>>)
    requires Walked(prefix, events, out) && Filed(prefix, events, out, byPrev) && |out| != |events|
    ensures byPrev != map[]
  {
    hide Walked, PrevOf, Named;
    AllWalked(prefix, events, out);
    var e :| e in events && !Named(prefix, out, PrevOf(prefix, e));
    AfterCounts(prefix, events, PrevOf(prefix, e), e);
    assert After(prefix, events, PrevOf(prefix, e)) != [];
    assert PrevOf(prefix, e) in byPrev;
  }

  lemma {:induction false} EventsCount(nodes: seq<Stored>, e: Event)
    ensures multiset(Events(nodes))[e] == multiset(nodes)[Node(e)]
  {
    if nodes != [] {
      var n := |nodes| - 1;
      EventsCount(nodes[..n], e);
      assert nodes == nodes[..n] + [nodes[n]];
    }
  }

  lemma {:induction false} SameNodes(h: Hash, prefix: string, nodes: seq<Stored>, others: seq<Stored>)
    requires multiset(nodes) == multiset(others)
    ensures AllGenuine(h, prefix, nodes) ==> AllGenuine(h, prefix, others)
    ensures multiset(Events(nodes)) == multiset(Events(others))
  {
    hide Genuine, Events;
    forall e: Event
      ensures multiset(Events(nodes))[e] == multiset(Events(others))[e]
    {
      EventsCount(nodes, e);
      EventsCount(others, e);
    }
    if AllGenuine(h, prefix, nodes) {
      forall i | 0 <= i < |others|
        ensures !others[i].Unreadable? && (others[i].Node? ==> Genuine(h, prefix, others[i].event))
      {
        assert others[i] in multiset(nodes);
        var k :| 0 <= k < |nodes| && nodes[k] == others[i];
      }
    }
  }

  /** The order nodes come in takes no part in what is read of them: the same line, or a refusal of both. */
  lemma OrderTakesNoPart(h: Hash, prefix: string, nodes: seq<Stored>, others: seq<Stored>, a: Outcome<seq<Event>>,
                         b: Outcome<seq<Event>>)
    requires multiset(nodes) == multiset(others) && ReadsAs(h, prefix, nodes, a) && ReadsAs(h, prefix, others, b)
    ensures a == b
  {
    hide Genuine, Events, AllGenuine, Line, NoFork;
    SameNodes(h, prefix, nodes, others);
    SameNodes(h, prefix, others, nodes);
    assert forall line :: IsChain(prefix, Events(nodes), line) <==> IsChain(prefix, Events(others), line);
    if a.Ok? {
      assert IsChain(prefix, Events(others), a.value);
      ChainUnique(prefix, Events(others), a.value, b.value);
    }
  }

  // ---------------------------------------------------------------------
  // Two events of a line with one uid
  // ---------------------------------------------------------------------

  /** Two events of the line record different things and hash to one uid. */
  ghost predicate HasClash(h: Hash, prefix: string, line: seq<Event>) {
    exists i, j :: 0 <= i < j < |line|
                   && Clash(h, UidText(prefix, line[i].props), UidText(prefix, line[j].props))
  }

  ghost predicate GenuineLine(h: Hash, prefix: string, line: seq<Event>) {
    && Short(prefix) && Line(prefix, line)
    && forall i | 0 <= i < |line| :: Genuine(h, prefix, line[i]) && ShortProps(line[i].props)
  }

  /** Events that hash the same bytes are at one position. */
  lemma SameTextSamePosition(prefix: string, a: Event, b: Event)
    requires Short(prefix) && ShortProps(a.props) && ShortProps(b.props)
    requires UidText(prefix, a.props) == UidText(prefix, b.props)
    ensures SeqOf(prefix, a) == SeqOf(prefix, b)
  {
    hide UidText, Key, ShortProps;
    UidTextInjective(prefix, a.props, b.props);
    KeysDistinct(prefix);
    var u, k := Key(prefix, "uid"), Key(prefix, "seq");
    assert k in a.props <==> k in a.props - {u};
    assert k in b.props <==> k in b.props - {u};
    assert k in a.props ==> a.props[k] == (a.props - {u})[k];
    assert k in b.props ==> b.props[k] == (b.props - {u})[k];
  }

  /** In a line of genuine events uids are all different, or two of them clash. */
  lemma UidsDistinct(h: Hash, prefix: string, line: seq<Event>, i: nat, j: nat)
    requires GenuineLine(h, prefix, line) && i < j < |line|
    ensures UidOf(prefix, line[i]) != UidOf(prefix, line[j]) || HasClash(h, prefix, line)
  {
    hide UidText, UidOf, SeqOf, PrevOf, HeadUid, ShortProps, Sum;
    assert Genuine(h, prefix, line[i]) && Genuine(h, prefix, line[j]);
    if UidText(prefix, line[i].props) == UidText(prefix, line[j].props) {
      SameTextSamePosition(prefix, line[i], line[j]);
    } else if UidOf(prefix, line[i]) == UidOf(prefix, line[j]) {
      assert Clash(h, UidText(prefix, line[i].props), UidText(prefix, line[j].props));
    }
  }

  /** A line of genuine events has no fork, or two of its events clash. */
  lemma LineHasNoFork(h: Hash, prefix: string, line: seq<Event>)
    requires GenuineLine(h, prefix, line)
    ensures NoFork(prefix, line) || HasClash(h, prefix, line)
  {
    hide UidText, UidOf, SeqOf, PrevOf, ShortProps, Sum, HasClash;
    if !HasClash(h, prefix, line) {
      forall i, j | 0 <= i < j < |line|
        ensures PrevOf(prefix, line[i]) != PrevOf(prefix, line[j])
      {
        assert line[..j][j - 1] == line[j - 1] && Genuine(h, prefix, line[j - 1]);
        if i > 0 {
          assert line[..i][i - 1] == line[i - 1];
          UidsDistinct(h, prefix, line, i - 1, j - 1);
        }
      }
    }
  }

  function AsNodes(line: seq<Event>): (nodes: seq<Stored>)
    ensures |nodes| == |line| && forall i | 0 <= i < |line| :: nodes[i] == Node(line[i])
  {
    seq(|line|, i requires 0 <= i < |line| => Node(line[i]))
  }

  lemma {:induction false} EventsOfLine(line: seq<Event>)
    ensures Events(AsNodes(line)) == line
  {
    if line != [] {
      var n := |line| - 1;
      EventsOfLine(line[..n]);
      assert AsNodes(line)[..n] == AsNodes(line[..n]);
      assert line == line[..n] + [line[n]];
    }
  }

  /** Nodes of a genuine line, in whatever order, are read as that line, or two of its events clash. */
  lemma LineReads(h: Hash, prefix: string, line: seq<Event>, nodes: seq<Stored>)
    requires GenuineLine(h, prefix, line) && multiset(nodes) == multiset(AsNodes(line))
    ensures ReadsAs(h, prefix, nodes, Ok(line)) || HasClash(h, prefix, line)
  {
    hide Genuine, Events, ShortProps, HasClash, NoFork, Line;
    LineHasNoFork(h, prefix, line);
    EventsOfLine(line);
    assert AllGenuine(h, prefix, AsNodes(line)) by {
      assert forall i | 0 <= i < |line| :: Genuine(h, prefix, line[i]);
    }
    SameNodes(h, prefix, AsNodes(line), nodes);
  }

  // ---------------------------------------------------------------------
  // Appending
  // ---------------------------------------------------------------------

  /** The properties chainAppend writes, before the uid. */
  function AppendProps(prefix: string, chain: string, line: seq<Event>, props: Props): Props {
    props[Key(prefix, "chain") := chain]
         [Key(prefix, "seq") := FormatNat(|line| + 1)]
         [Key(prefix, "prev_uid") := HeadUid(prefix, line)]
  }

  /** The event chainAppend adds after the head of `line`. */
  ghost function Appended(h: Hash, prefix: string, chain: string, line: seq<Event>, props: Props, id: nat): Event {
    var all := AppendProps(prefix, chain, line, props);
    Event(id, all[Key(prefix, "uid") := Uid(h, prefix, all)])
  }

  lemma {:induction false} FlatAgrees(keys: seq<string>, a: Props, b: Props)
    requires forall k | k in keys :: Get(a, k) == Get(b, k)
    ensures Flat(keys, a) == Flat(keys, b)
  {
    if keys != [] {
      FlatAgrees(keys[1..], a, b);
    }
  }

  /** The uid an event carries takes no part in what its uid must be. */
  lemma UidIgnoresUid(prefix: string, props: Props, u: string)
    ensures UidText(prefix, props[Key(prefix, "uid") := u]) == UidText(prefix, props)
  {
    hide InOrder, Key, Flat, Frames, Heading;
    var k := Key(prefix, "uid");
    var more := props[k := u];
    assert Covered(prefix, more) == Covered(prefix, props);
    MembersInOrder(Covered(prefix, props));
    FlatAgrees(InOrder(Covered(prefix, props)), more, props);
  }

  /** What an appended event says of itself. */
  lemma AppendedShape(h: Hash, prefix: string, chain: string, line: seq<Event>, props: Props, id: nat)
    requires |line| + 1 < WORD
    ensures var e := Appended(h, prefix, chain, line, props, id);
            && Genuine(h, prefix, e) && SeqOf(prefix, e) == |line| + 1
            && PrevOf(prefix, e) == HeadUid(prefix, line)
  {
    hide UidText, Key, HeadUid, FormatNat, ParseUint, Sum;
    KeysDistinct(prefix);
    ParseOfFormat(|line| + 1, WORD);
    var all := AppendProps(prefix, chain, line, props);
    UidIgnoresUid(prefix, all, Uid(h, prefix, all));
  }

  lemma LineAppend(prefix: string, line: seq<Event>, e: Event)
    requires Line(prefix, line) && PrevOf(prefix, e) == HeadUid(prefix, line) && SeqOf(prefix, e) == |line| + 1
    ensures Line(prefix, line + [e])
  {
    hide SeqOf, PrevOf, HeadUid;
    var more := line + [e];
    forall i | 0 <= i < |more|
      ensures PrevOf(prefix, more[i]) == HeadUid(prefix, more[..i]) && SeqOf(prefix, more[i]) == i + 1
    {
      assert more[..i] == line[..i];
      assert i == |line| ==> line[..i] == line;
    }
  }

  /** Appending after the head and reading gives the old chain and the new event, or two events clash. */
  lemma {:induction false} ReadAfterAppend(h: Hash, prefix: string, chain: string, nodes: seq<Stored>, line: seq<Event>,
                        props: Props, id: nat)
    requires |line| + 1 < WORD && AllGenuine(h, prefix, nodes) && IsChain(prefix, Events(nodes), line)
    requires GenuineLine(h, prefix, line)
    requires ShortProps(Appended(h, prefix, chain, line, props, id).props)
    ensures var e := Appended(h, prefix, chain, line, props, id);
            && AllGenuine(h, prefix, nodes + [Node(e)])
            && (IsChain(prefix, Events(nodes + [Node(e)]), line + [e]) || HasClash(h, prefix, line + [e]))
  {
    hide UidText, SeqOf, PrevOf, HeadUid, Appended, Genuine, HasClash, NoFork, ShortProps, Line;
    var e := Appended(h, prefix, chain, line, props, id);
    AppendedShape(h, prefix, chain, line, props, id);
    assert (nodes + [Node(e)])[..|nodes|] == nodes;
    LineAppend(prefix, line, e);
    LineHasNoFork(h, prefix, line + [e]);
  }

  /** chainAppend. */
  method ChainAppend(h: Hash, prefix: string, chain: string, line: seq<Event>, props: Props, id: nat)
    returns (e: Event)
    requires Line(prefix, line)
    ensures e == Appended(h, prefix, chain, line, props, id)
  {
    var position, prev := 1, "";
    if line != [] {
      var head := line[|line| - 1];
      position, prev := SeqOf(prefix, head) + 1, UidOf(prefix, head);
    }
    var all := props[Key(prefix, "chain") := chain];
    all := all[Key(prefix, "seq") := FormatNat(position)];
    all := all[Key(prefix, "prev_uid") := prev];
    var uid := CaseChainUid(h, prefix, all);
    e := Event(id, all[Key(prefix, "uid") := uid]);
  }
}
