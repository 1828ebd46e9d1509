// Custody: where each exhibit of a case is and who holds it, one chain of
// custody events an exhibit.
module CaseEvidence {
  import opened Common

  /** A custody.state or custody.from property. `Nowhere` is "". */
  datatype Place = Nowhere | Held | InTransit | Returned | Disposed | OtherPlace(word: string)

  datatype Kind = Intake | Release | Accept | Return | Reintake | Dispose | OtherKind(word: string)

  /** A custody.matches_intake property: "", "true", "false" or another word. */
  datatype Matches = NotCompared | Matched | Differed | OtherWord(word: string)

  datatype Event = Event(uid: string, kind: Kind, evidenceUid: string, from: Place, state: Place, holder: string,
                         recipient: string, actor: string, digest: string, matches: Matches, discrepancy: string)

  /** An EvidenceFile node and its custody chain. */
  datatype Exhibit = Exhibit(name: string, caseUid: string, digest: string, events: seq<Event>)

  datatype Movement = Movement(from: Place, to: Place, compares: bool)

  /** evidenceMoves. */
  function MoveOf(kind: Kind): Option<Movement> {
    match kind
    case Intake => Some(Movement(Nowhere, Held, false))
    case Release => Some(Movement(Held, InTransit, false))
    case Accept => Some(Movement(InTransit, Held, true))
    case Return => Some(Movement(Held, Returned, false))
    case Reintake => Some(Movement(Returned, Held, true))
    case Dispose => Some(Movement(Held, Disposed, false))
    case OtherKind(_) => None
  }

  /** evidenceHolderAfter. */
  function HolderAfter(state: Place, actor: string): string {
    if state.Held? || state.InTransit? then actor else ""
  }

  function Comparison(digest: string, intake: string): Matches {
    if digest == intake then Matched else Differed
  }

  // ---------------------------------------------------------------------
  // Reading custody back
  // ---------------------------------------------------------------------

  function StateOf(events: seq<Event>): Place {
    if events == [] then Nowhere else events[|events| - 1].state
  }

  function HolderOf(events: seq<Event>): string {
    if events == [] then "" else events[|events| - 1].holder
  }

  function RecipientOf(events: seq<Event>): string {
    if events == [] then "" else events[|events| - 1].recipient
  }

  /** evidenceCheck: event `e` follows from the events before it. */
  predicate Check(uid: string, intake: string, before: seq<Event>, e: Event) {
    && MoveOf(e.kind).Some?
    && var move := MoveOf(e.kind).value;
    && e.evidenceUid == uid
    && e.from == StateOf(before) == move.from
    && e.state == move.to
    && (before == [] ==> e.digest == intake)
    && (move.from == Held ==> e.actor == HolderOf(before))
    && (move.from == InTransit ==> e.actor == RecipientOf(before))
    && e.holder == HolderAfter(move.to, e.actor)
    && (move.compares ==> e.digest != "" && e.matches == Comparison(e.digest, intake))
    && (!move.compares ==> e.matches == NotCompared)
    && (e.matches == Differed ==> e.discrepancy != "")
  }

  /** A custody chain this program wrote. */
  predicate Accepted(uid: string, intake: string, events: seq<Event>) {
    events != [] && forall i | 0 <= i < |events| :: Check(uid, intake, events[..i], events[i])
  }

  /** evidenceReadNode. */
  method EvidenceReadNode(uid: string, intake: string, events: seq<Event>) returns (ok: bool)
    ensures ok <==> Accepted(uid, intake, events)
  {
    hide Check;
    if events == [] {
      return false;
    }
    var state, holder, recipient := Nowhere, "", "";
    var i: nat := 0;
    while i < |events|
      invariant i <= |events|
      invariant state == StateOf(events[..i]) && holder == HolderOf(events[..i])
      invariant recipient == RecipientOf(events[..i])
      invariant forall k | 0 <= k < i :: Check(uid, intake, events[..k], events[k])
      decreases |events| - i
    {
      var e := events[i];
      var good := EvidenceCheck(uid, intake, i, state, holder, recipient, e, events[..i]);
      if !good {
        return false;
      }
      assert events[..i + 1][i] == e;
      state, holder, recipient := e.state, e.holder, e.recipient;
      i := i + 1;
    }
    return true;
  }

  /** evidenceCheck, case by case as it refuses. */
  method EvidenceCheck(uid: string, intake: string, i: nat, state: Place, holder: string, recipient: string, e: Event,
                       ghost before: seq<Event>) returns (good: bool)
    requires |before| == i && state == StateOf(before) && holder == HolderOf(before)
    requires recipient == RecipientOf(before)
    ensures good <==> Check(uid, intake, before, e)
  {
    if MoveOf(e.kind).None? {
      return false;
    }
    var move := MoveOf(e.kind).value;
    if e.evidenceUid != uid { return false; }
    if e.from != state || move.from != state { return false; }
    if e.state != move.to { return false; }
    if i == 0 && e.digest != intake { return false; }
    if move.from == Held && e.actor != holder { return false; }
    if move.from == InTransit && e.actor != recipient { return false; }
    if e.holder != HolderAfter(move.to, e.actor) { return false; }
    if move.compares && (e.matches == NotCompared || e.digest == "") { return false; }
    if !move.compares && e.matches != NotCompared { return false; }
    if move.compares && e.matches != Comparison(e.digest, intake) { return false; }
    if e.matches == Differed && e.discrepancy == "" { return false; }
    return true;
  }

  // ---------------------------------------------------------------------
  // What an accepted chain says
  // ---------------------------------------------------------------------

  lemma BeforeIs(events: seq<Event>, i: nat)
    requires 0 < i < |events|
    ensures StateOf(events[..i]) == events[i - 1].state && HolderOf(events[..i]) == events[i - 1].holder
    ensures RecipientOf(events[..i]) == events[i - 1].recipient
  {
  }

  predicate Takes(e: Event) {
    e.kind.Intake? || e.kind.Accept? || e.kind.Reintake?
  }

  predicate InHand(e: Event) {
    e.state.Held? || e.state.InTransit?
  }

  /** What an event says, given the one before it. */
  lemma AcceptedMeans(uid: string, intake: string, events: seq<Event>, i: nat)
    requires Accepted(uid, intake, events) && i < |events|
    ensures events[i].kind.Intake? <==> i == 0
    ensures i == 0 ==> events[i].digest == intake
    ensures events[i].holder == if InHand(events[i]) then events[i].actor else ""
    ensures Takes(events[i]) ==> events[i].state.Held?
    ensures events[i].kind.Accept? ==>
              i > 0 && events[i - 1].kind.Release? && events[i].actor == events[i - 1].recipient
    ensures !Takes(events[i]) ==> i > 0 && events[i - 1].state.Held? && events[i].actor == events[i - 1].holder
    ensures events[i].kind.Reintake? ==> i > 0 && events[i - 1].kind.Return?
    ensures events[i].kind.Accept? || events[i].kind.Reintake? ==>
              && (events[i].matches == Matched <==> events[i].digest == intake)
              && (events[i].matches == Differed <==> events[i].digest != intake)
              && (events[i].digest != intake ==> events[i].discrepancy != "")
    ensures !events[i].kind.Accept? && !events[i].kind.Reintake? ==> events[i].matches == NotCompared
  {
    assert Check(uid, intake, events[..i], events[i]);
    if i > 0 {
      assert Check(uid, intake, events[..i - 1], events[i - 1]);
      BeforeIs(events, i);
    }
  }

  /** In an accepted chain nothing follows a disposal. */
  lemma NothingAfterDisposal(uid: string, intake: string, events: seq<Event>, i: nat)
    requires Accepted(uid, intake, events) && i + 1 < |events|
    ensures !events[i].kind.Dispose? && !events[i].state.Disposed?
  {
    assert Check(uid, intake, events[..i + 1], events[i + 1]);
    assert Check(uid, intake, events[..i], events[i]);
    BeforeIs(events, i + 1);
  }

  /** The last event at or before `i` that took the exhibit into somebody's hands. */
  function LastTaken(events: seq<Event>, i: nat): (k: nat)
    requires i < |events|
    ensures k <= i && forall j | k < j <= i :: !Takes(events[j])
  {
    if i == 0 || Takes(events[i]) then i else LastTaken(events, i - 1)
  }

  /**
   * Custody is unbroken. At every event of an accepted chain there is somebody who last took the exhibit; every event
   * from that taking on is theirs; they hold it exactly while it is held or in transit; and unless they took it in, or
   * back, they were named by whoever had it before them, in the event just before.
   */
  lemma {:induction false} CustodyUnbroken(uid: string, intake: string, events: seq<Event>, i: nat)
    requires Accepted(uid, intake, events) && i < |events|
    ensures var k := LastTaken(events, i);
            && Takes(events[k])
            && (forall j | k <= j <= i :: events[j].actor == events[k].actor)
            && (forall j | k <= j < i :: events[j].holder == events[k].actor)
            && events[i].holder == (if InHand(events[i]) then events[k].actor else "")
            && (events[k].kind.Accept? ==>
                  && k > 0 && events[k - 1].kind.Release? && events[k].actor == events[k - 1].recipient
                  && events[k - 1].actor == events[LastTaken(events, k - 1)].actor)
  {
    hide Accepted, Takes, HolderAfter;
    AcceptedMeans(uid, intake, events, i);
    var k := LastTaken(events, i);
    if Takes(events[i]) {
      if i > 0 {
        CustodyUnbroken(uid, intake, events, i - 1);
      }
    } else {
      CustodyUnbroken(uid, intake, events, i - 1);
      assert k == LastTaken(events, i - 1);
    }
  }

  /** Somebody is named as holding the exhibit exactly while it is held or in transit. */
  predicate HolderNamed(events: seq<Event>) {
    forall i | 0 <= i < |events| :: events[i].holder != "" <==> InHand(events[i])
  }

  predicate TakersNamed(events: seq<Event>) {
    forall i | 0 <= i < |events| && Takes(events[i]) :: events[i].actor != ""
  }

  /** The reader does not ask that anybody be named: in a chain it accepts a holder is named exactly while there is one
      if and only if everybody who took the exhibit is. */
  lemma {:induction false} HolderNamedIff(uid: string, intake: string, events: seq<Event>)
    requires Accepted(uid, intake, events)
    ensures HolderNamed(events) <==> TakersNamed(events)
  {
    hide Accepted, Takes, LastTaken;
    forall i | 0 <= i < |events|
      ensures Takes(events[i]) ==> InHand(events[i]) && events[i].holder == events[i].actor
      ensures TakersNamed(events) ==> (events[i].holder != "" <==> InHand(events[i]))
    {
      AcceptedMeans(uid, intake, events, i);
      CustodyUnbroken(uid, intake, events, i);
    }
  }

  /** It accepts a chain in which nobody is: an intake by "". */
  lemma NobodyAccepted(uid: string)
    ensures var e := Custody("", Intake, uid, "", "", "", NotCompared, "");
            Accepted(uid, "", [e]) && !HolderNamed([e])
  {
    var e := Custody("", Intake, uid, "", "", "", NotCompared, "");
    assert [e][..0] == [];
    assert InHand([e][0]);
  }

  // ---------------------------------------------------------------------
  // Writing custody
  // ---------------------------------------------------------------------

  /** custody: the event every custody writer appends, with what its kind records beside. */
  function Custody(eventUid: string, kind: Kind, uid: string, actor: string, recipient: string, digest: string,
                   matches: Matches, discrepancy: string): Event
    requires MoveOf(kind).Some?
  {
    var move := MoveOf(kind).value;
    Event(eventUid, kind, uid, move.from, move.to, HolderAfter(move.to, actor), recipient, actor, digest, matches,
          discrepancy)
  }

  lemma AcceptedAppend(uid: string, intake: string, events: seq<Event>, e: Event)
    requires events != [] ==> Accepted(uid, intake, events)
    requires Check(uid, intake, events, e)
    ensures Accepted(uid, intake, events + [e])
  {
    hide Check;
    var more := events + [e];
    forall i | 0 <= i < |more|
      ensures Check(uid, intake, more[..i], more[i])
    {
      assert more[..i] == events[..i];
      if i < |events| {
        assert Check(uid, intake, events[..i], events[i]);
      } else {
        assert events[..i] == events;
      }
    }
  }
}
