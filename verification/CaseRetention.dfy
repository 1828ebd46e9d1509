// Retention: the period a case is kept for and the legal holds on it, one
// chain of set, hold and release events.
module CaseRetention {
  import opened Common

  /** What a retention event records. `until` is the instant a set names, when its text reads as a time. */
  datatype Kind = Set(until: Option<int>) | Hold | Release(hold: string) | OtherKind(word: string)

  datatype Event = Event(uid: string, caseUid: string, kind: Kind)

  /** caseRetention: the period in force and the holds in force, the first placed first. */
  datatype Retention = Retention(until: Option<int>, holds: seq<Event>)

  function Placed(events: seq<Event>): set<string> {
    set i | 0 <= i < |events| && events[i].kind.Hold? :: events[i].uid
  }

  function Lifted(events: seq<Event>): set<string> {
    set i | 0 <= i < |events| && events[i].kind.Release? :: events[i].kind.hold
  }

  /** The instant the latest set names. */
  function Period(events: seq<Event>): Option<int> {
    if events == [] then None
    else
      var last := events[|events| - 1];
      if last.kind.Set? then last.kind.until else Period(events[..|events| - 1])
  }

  /** The holds among `events` that none of `lifted` names, in order. */
  function Unlifted(events: seq<Event>, lifted: set<string>): seq<Event> {
    if events == [] then []
    else
      var last := events[|events| - 1];
      Unlifted(events[..|events| - 1], lifted) + if last.kind.Hold? && last.uid !in lifted then [last] else []
  }

  /** Holds placed less holds lifted, in the order they were placed. */
  function HoldsInForce(events: seq<Event>): seq<Event> {
    Unlifted(events, Lifted(events))
  }

  /** All that is asked of an event but that its time can be read. */
  predicate EventKept(caseUid: string, events: seq<Event>, i: nat)
    requires i < |events|
  {
    var e := events[i];
    && e.caseUid == caseUid && !e.kind.OtherKind?
    && (e.kind.Release? ==> e.kind.hold in Placed(events[..i]) && e.kind.hold !in Lifted(events[..i]))
  }

  predicate Timed(e: Event) {
    e.kind.Set? ==> e.kind.until.Some?
  }

  predicate EventGood(caseUid: string, events: seq<Event>, i: nat)
    requires i < |events|
  {
    EventKept(caseUid, events, i) && Timed(events[i])
  }

  predicate RetentionKept(caseUid: string, events: seq<Event>) {
    forall i | 0 <= i < |events| :: EventKept(caseUid, events, i)
  }

  predicate AllTimed(events: seq<Event>) {
    forall i | 0 <= i < |events| :: Timed(events[i])
  }

  predicate RetentionGood(caseUid: string, events: seq<Event>) {
    forall i | 0 <= i < |events| :: EventGood(caseUid, events, i)
  }

  lemma GoodIsKeptAndTimed(caseUid: string, events: seq<Event>)
    ensures RetentionGood(caseUid, events) <==> RetentionKept(caseUid, events) && AllTimed(events)
  {
    hide EventKept, Timed;
    if RetentionGood(caseUid, events) {
      forall i | 0 <= i < |events|
        ensures EventKept(caseUid, events, i) && Timed(events[i])
      {
        assert EventGood(caseUid, events, i);
      }
    }
    if RetentionKept(caseUid, events) && AllTimed(events) {
      forall i | 0 <= i < |events|
        ensures EventGood(caseUid, events, i)
      {
        assert EventKept(caseUid, events, i) && Timed(events[i]);
      }
    }
  }

  /** A period was set, whether or not its time can be read. */
  predicate PeriodSet(events: seq<Event>) {
    exists i :: 0 <= i < |events| && events[i].kind.Set?
  }

  lemma {:induction false} PeriodOfTimed(events: seq<Event>)
    requires AllTimed(events)
    ensures Period(events).Some? <==> PeriodSet(events)
  {
    if events != [] {
      var n := |events| - 1;
      PeriodOfTimed(events[..n]);
      if PeriodSet(events) && !events[n].kind.Set? {
        var i :| 0 <= i < |events| && events[i].kind.Set?;
        assert events[..n][i] == events[i];
      }
      if PeriodSet(events[..n]) {
        var i :| 0 <= i < n && events[..n][i].kind.Set?;
        assert events[i].kind.Set?;
      }
    }
  }

  /** The last period set is the one at `i`. */
  predicate LastSet(events: seq<Event>, i: nat) {
    i < |events| && events[i].kind.Set? && forall j | i < j < |events| :: !events[j].kind.Set?
  }

  /** The period in force is the instant the last event that sets one names. */
  lemma {:induction false} PeriodIs(events: seq<Event>, i: nat)
    ensures LastSet(events, i) ==> Period(events) == events[i].kind.until
    ensures !PeriodSet(events) ==> Period(events) == None
    ensures PeriodSet(events) ==> exists k :: LastSet(events, k)
    decreases |events|
  {
    if events != [] {
      var n := |events| - 1;
      var before := events[..n];
      if events[n].kind.Set? {
        assert LastSet(events, n);
      } else {
        PeriodIs(before, i);
        assert LastSet(events, i) ==> LastSet(before, i);
        if PeriodSet(events) {
          var k :| 0 <= k < |events| && events[k].kind.Set?;
          assert before[k].kind.Set?;
          var m :| LastSet(before, m);
          assert LastSet(events, m);
        }
        if PeriodSet(before) {
          var k :| 0 <= k < n && before[k].kind.Set?;
          assert events[k].kind.Set?;
        }
      }
    }
  }

  lemma PeriodSetMore(events: seq<Event>, e: Event)
    ensures PeriodSet(events + [e]) <==> PeriodSet(events) || e.kind.Set?
  {
    var more := events + [e];
    if PeriodSet(events) {
      var i :| 0 <= i < |events| && events[i].kind.Set?;
      assert more[i].kind.Set?;
    }
    assert more[|events|] == e;
  }

  function Read(events: seq<Event>): Retention {
    Retention(Period(events), HoldsInForce(events))
  }

  /** One more event: what is placed, lifted and kept for after it. */
  lemma {:induction false} OneMore(events: seq<Event>, e: Event)
    ensures var more := events + [e];
            && Placed(more) == Placed(events) + (if e.kind.Hold? then {e.uid} else {})
            && Lifted(more) == Lifted(events) + (if e.kind.Release? then {e.kind.hold} else {})
            && Period(more) == (if e.kind.Set? then e.kind.until else Period(events))
  {
    var more := events + [e];
    assert more[..|events|] == events && more[|events|] == e;
    forall u
      ensures u in Placed(more) <==> u in Placed(events) || (e.kind.Hold? && u == e.uid)
      ensures u in Lifted(more) <==> u in Lifted(events) || (e.kind.Release? && u == e.kind.hold)
    {
      if u in Placed(events) {
        var i :| 0 <= i < |events| && events[i].kind.Hold? && events[i].uid == u;
        assert more[i] == events[i];
      }
      if u in Lifted(events) {
        var i :| 0 <= i < |events| && events[i].kind.Release? && events[i].kind.hold == u;
        assert more[i] == events[i];
      }
    }
  }

  /** retentionRead: the first loop checks the chain, the second keeps the holds not lifted. */
  method RetentionRead(caseUid: string, events: seq<Event>) returns (r: Outcome<Retention>)
    ensures r.Ok? <==> RetentionGood(caseUid, events)
    ensures r.Ok? ==> r.value == Read(events)
  {
    hide Placed, Lifted, Period, Unlifted;
    var placed: set<string>, lifted: set<string>, until: Option<int> := {}, {}, None;
    var i: nat := 0;
    Nothing();
    while i < |events|
      invariant i <= |events|
      invariant placed == Placed(events[..i]) && lifted == Lifted(events[..i]) && until == Period(events[..i])
      invariant forall k | 0 <= k < i :: EventGood(caseUid, events, k)
      decreases |events| - i
    {
      var event := events[i];
      assert EventGood(caseUid, events, i) ==> EventKept(caseUid, events, i) && Timed(events[i]);
      if event.caseUid != caseUid || event.kind.OtherKind? {
        assert !EventGood(caseUid, events, i);
        return Refused;
      }
      OneMore(events[..i], event);
      assert events[..i + 1] == events[..i] + [event];
      if event.kind.Set? {
        if event.kind.until.None? {
          assert !EventGood(caseUid, events, i);
          return Refused;
        }
        until := event.kind.until;
      } else if event.kind.Hold? {
        placed := placed + {event.uid};
      } else {
        if event.kind.hold !in placed || event.kind.hold in lifted {
          assert !EventGood(caseUid, events, i);
          return Refused;
        }
        lifted := lifted + {event.kind.hold};
      }
      i := i + 1;
    }
    assert events[..i] == events;
    var holds := KeepHolds(events, lifted);
    return Ok(Retention(until, holds));
  }

  lemma Nothing()
    ensures Placed([]) == {} && Lifted([]) == {} && Period([]) == None
  {
  }

  method KeepHolds(events: seq<Event>, lifted: set<string>) returns (holds: seq<Event>)
    ensures holds == Unlifted(events, lifted)
  {
    holds := [];
    var i: nat := 0;
    while i < |events|
      invariant i <= |events| && holds == Unlifted(events[..i], lifted)
      decreases |events| - i
    {
      assert events[..i + 1][..i] == events[..i];
      if events[i].kind.Hold? && events[i].uid !in lifted {
        holds := holds + [events[i]];
      }
      i := i + 1;
    }
    assert events[..i] == events;
  }

  // ---------------------------------------------------------------------
  // What holds in force are
  // ---------------------------------------------------------------------

  /** A hold is in force exactly when it was placed and no release names it. */
  lemma {:induction false} InForceIff(events: seq<Event>, lifted: set<string>, e: Event)
    ensures e in Unlifted(events, lifted) <==> e in events && e.kind.Hold? && e.uid !in lifted
    decreases |events|
  {
    if events != [] {
      var n := |events| - 1;
      InForceIff(events[..n], lifted, e);
      assert events == events[..n] + [events[n]];
    }
  }

  function Uids(events: seq<Event>): set<string> {
    set i | 0 <= i < |events| :: events[i].uid
  }

  /** The uids in force are those placed less those lifted. */
  lemma HoldUids(events: seq<Event>)
    ensures Uids(HoldsInForce(events)) == Placed(events) - Lifted(events)
  {
    var lifted, holds := Lifted(events), HoldsInForce(events);
    forall u
      ensures u in Uids(holds) <==> u in Placed(events) - lifted
    {
      if u in Placed(events) - lifted {
        var i :| 0 <= i < |events| && events[i].kind.Hold? && events[i].uid == u;
        InForceIff(events, lifted, events[i]);
        var j :| 0 <= j < |holds| && holds[j] == events[i];
      }
      if u in Uids(holds) {
        var j :| 0 <= j < |holds| && holds[j].uid == u;
        InForceIff(events, lifted, holds[j]);
        var i :| 0 <= i < |events| && events[i] == holds[j];
      }
    }
  }

  predicate LiftedLater(events: seq<Event>, i: nat)
    requires i < |events|
  {
    exists j :: 0 <= j < |events| && events[j].kind == Release(events[i].uid)
  }

  /** No hold is in force exactly if every hold placed has been lifted. */
  lemma {:induction false} NoneInForceIff(events: seq<Event>)
    ensures HoldsInForce(events) == [] <==>
            forall i | 0 <= i < |events| && events[i].kind.Hold? :: LiftedLater(events, i)
  {
    hide Unlifted;
    var lifted := Lifted(events);
    if HoldsInForce(events) == [] {
      forall i | 0 <= i < |events| && events[i].kind.Hold?
        ensures LiftedLater(events, i)
      {
        InForceIff(events, lifted, events[i]);
        var j :| 0 <= j < |events| && events[j].kind.Release? && events[j].kind.hold == events[i].uid;
      }
    }
    if HoldsInForce(events) != [] {
      var e := HoldsInForce(events)[0];
      InForceIff(events, lifted, e);
      var i :| 0 <= i < |events| && events[i] == e;
      assert !LiftedLater(events, i);
    }
  }

  /** Dropping the holds a uid names out of those in force. */
  function Without(holds: seq<Event>, uid: string): seq<Event> {
    if holds == [] then []
    else
      var last := holds[|holds| - 1];
      Without(holds[..|holds| - 1], uid) + if last.uid != uid then [last] else []
  }

  lemma {:induction false} WithoutConcat(a: seq<Event>, b: seq<Event>, uid: string)
    ensures Without(a + b, uid) == Without(a, uid) + Without(b, uid)
    decreases |b|
  {
    if b == [] {
      assert a + b == a && Without(a, uid) + [] == Without(a, uid);
    } else {
      var n := |b| - 1;
      WithoutConcat(a, b[..n], uid);
      var c := a + b;
      assert c[..|c| - 1] == a + b[..n] && c[|c| - 1] == b[n];
    }
  }

  lemma {:induction false} UnliftedMore(events: seq<Event>, lifted: set<string>, uid: string)
    ensures Unlifted(events, lifted + {uid}) == Without(Unlifted(events, lifted), uid)
    decreases |events|
  {
    if events != [] {
      var n := |events| - 1;
      var last := events[n];
      UnliftedMore(events[..n], lifted, uid);
      WithoutConcat(Unlifted(events[..n], lifted), if last.kind.Hold? && last.uid !in lifted then [last] else [], uid);
    }
  }

  /** A set changes no hold; a hold joins the end, unless its uid was lifted before; a release takes its hold out. */
  lemma HoldsAfter(events: seq<Event>, e: Event)
    ensures var was, now := HoldsInForce(events), HoldsInForce(events + [e]);
            && (e.kind.Set? ==> now == was)
            && (e.kind.Hold? ==> now == if e.uid in Lifted(events) then was else was + [e])
            && (e.kind.Release? ==> now == Without(was, e.kind.hold))
  {
    hide Lifted, Placed, Period;
    OneMore(events, e);
    assert (events + [e])[..|events|] == events;
    assert Lifted(events) + {} == Lifted(events);
    if e.kind.Release? {
      UnliftedMore(events, Lifted(events), e.kind.hold);
    }
  }

  /** What the writers append keeps the chain but for its time: it reads back exactly if that reads. */
  lemma RetentionAppend(caseUid: string, events: seq<Event>, e: Event)
    requires RetentionKept(caseUid, events) && e.caseUid == caseUid && !e.kind.OtherKind?
    requires e.kind.Release? ==> e.kind.hold in Placed(events) && e.kind.hold !in Lifted(events)
    ensures RetentionKept(caseUid, events + [e])
    ensures RetentionGood(caseUid, events + [e]) <==> RetentionGood(caseUid, events) && Timed(e)
  {
    hide Lifted, Placed, Timed;
    var more := events + [e];
    forall i | 0 <= i < |more|
      ensures EventKept(caseUid, more, i)
    {
      assert more[..i] == events[..i];
      if i < |events| {
        assert EventKept(caseUid, events, i);
      } else {
        assert events[..i] == events;
      }
    }
    GoodIsKeptAndTimed(caseUid, events);
    GoodIsKeptAndTimed(caseUid, more);
    if AllTimed(more) {
      assert Timed(more[|events|]);
      forall i | 0 <= i < |events|
        ensures Timed(events[i])
      {
        assert Timed(more[i]);
      }
    }
  }
}
