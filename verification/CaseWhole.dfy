// A whole case on the chains, for every digest function: registered, worked,
// reviewed, retained, its key erased, and disposed of. So what is proved of
// runs is proved of runs that go all the way.
module CaseWhole {
  import opened Common
  import opened Digest
  import opened CaseChain
  import opened CaseLedger
  import opened CaseBooks
  import opened CaseWrites
  import opened CaseReads
  import Times
  import L = CaseLifecycle
  import V = CaseReview
  import T = CaseRetention
  import E = CaseErasure

  const OWNER := Actor("owner", CaseOwner)
  const REVIEWER := Actor("reviewer", Reviewer)
  const KEY := E.CaseKey(E.EveryGeneration, "1")

  // ---------------------------------------------------------------------
  // The stages of it, as the readers see them
  // ---------------------------------------------------------------------

  predicate At(s: State, state: L.State) {
    s.attached.Some? && L.LifecycleGood(s.lifecycle) && LifeOf(s) == state && s.exhibits == map[]
  }

  predicate Started(s: State) {
    At(s, L.Registered) && s.requests == [] && s.decisions == map[] && s.retention == [] && s.erasures == []
  }

  predicate Worked(s: State) {
    At(s, L.Active) && s.requests == [] && s.decisions == map[] && s.retention == [] && s.erasures == []
  }

  predicate Reviewing(s: State) {
    && At(s, L.InReview) && s.decisions == map[] && s.retention == [] && s.erasures == []
    && s.requests == [V.Request(Head(s.lifecycle).reviewUid, s.caseUid, V.Case, s.caseUid, OWNER.name)]
  }

  predicate Reviewed(s: State) {
    At(s, L.Concluded) && s.retention == [] && s.erasures == []
  }

  predicate Kept(s: State) {
    && At(s, L.Retained) && s.erasures == []
    && T.RetentionGood(s.caseUid, s.retention) && T.HoldsInForce(s.retention) == [] && T.Period(s.retention) == Some(0)
  }

  predicate KeyGone(s: State) {
    && At(s, L.Retained) && E.ErasuresGood(s.caseUid, s.erasures) && E.KeyErased(s.erasures)
    && T.RetentionGood(s.caseUid, s.retention) && T.HoldsInForce(s.retention) == [] && T.Period(s.retention) == Some(0)
  }

  lemma Starts(caseUid: string, uid: string)
    ensures var r := Attach(Initial(caseUid), OWNER, true, uid); r.Ok? && Started(r.value)
  {
    L.LifecycleAppend([], L.Move(uid, L.Unregistered, L.Registered, "", "", ""));
  }

  lemma Works(h: Hash, s: State, uid: string)
    requires Started(s)
    ensures var r := Transition(h, s, OWNER, L.Active, 0, uid); r.Ok? && Worked(r.value)
  {
    L.LifecycleAppend(s.lifecycle, L.Move(uid, L.Registered, L.Active, "", "", ""));
  }

  lemma IsReviewed(s: State, uid: string, moveUid: string)
    requires Worked(s)
    ensures var r := RequestReview(s, OWNER, V.Case, "", false, Head(s.lifecycle).uid, uid, moveUid);
            r.Ok? && Reviewing(r.value) && Head(r.value.lifecycle).reviewUid == uid
  {
    L.LifecycleAppend(s.lifecycle, L.Move(moveUid, L.Active, L.InReview, uid, "", ""));
  }

  lemma IsApproved(s: State, moveUid: string)
    requires Reviewing(s)
    ensures var r := DecideReview(s, REVIEWER, Head(s.lifecycle).reviewUid, V.Approved, moveUid);
            r.Ok? && Reviewed(r.value)
  {
    var uid := Head(s.lifecycle).reviewUid;
    assert V.Find(s.requests, uid) == Some(0);
    L.LifecycleAppend(s.lifecycle, L.Move(moveUid, L.InReview, L.Concluded, uid, "", ""));
  }

  /** The first second of year nought is a time that reads back. */
  lemma FirstSecond(t: int)
    requires 0 <= t < Times.NANO
    ensures Times.Parse(Times.Render(t)) == Some(t)
  {
    hide Times.Parse, Times.Render, Times.YearOf, Times.MonthOf;
    Times.ReadsBackIff(t);
    Times.YearIsOne(t / Times.NANO / Times.DAY, 0);
  }

  lemma IsKept(s: State, uid: string, moveUid: string)
    requires Reviewed(s)
    ensures var r := SetRetention(s, 0, uid, moveUid); r.Ok? && Kept(r.value)
  {
    hide Times.Parse, Times.Render;
    FirstSecond(0);
    L.LifecycleAppend(s.lifecycle, L.Move(moveUid, L.Concluded, L.Retained, "", uid, ""));
    var e := T.Event(uid, s.caseUid, T.Set(Some(0)));
    assert [] + [e] == [e];
    assert T.RetentionGood(s.caseUid, [e]) && T.Period([e]) == Some(0);
    assert [e][..0] == [];
    assert T.Unlifted([e], T.Lifted([e])) == [];
  }

  lemma OneGeneration()
    ensures E.ParseGenerations("1") == Some([1])
  {
    E.GenerationsRoundTrip([1]);
  }

  lemma IsErased(s: State, uid: string)
    requires Kept(s)
    ensures var r := RecordErasure(s, OWNER, KEY, uid); r.Ok? && KeyGone(r.value)
  {
    hide T.RetentionGood, T.HoldsInForce, T.Period, L.LifecycleGood, E.ParseGenerations;
    OneGeneration();
    var e := E.Event(uid, s.caseUid, KEY);
    assert [] + [e] == [e];
    E.ErasuresAppend(s.caseUid, [], e);
    assert E.ErasesEveryGeneration([e][0]);
  }

  lemma IsDisposed(h: Hash, s: State, uid: string)
    requires KeyGone(s)
    ensures var r := Transition(h, s, OWNER, L.Disposed, 0, uid); r.Ok? && LifeOf(r.value).Disposed?
  {
    hide T.RetentionGood, T.HoldsInForce, T.Period, E.ErasuresGood, L.LifecycleGood;
  }

  // ---------------------------------------------------------------------
  // On the chains
  // ---------------------------------------------------------------------

  const PLAIN := Note(map[], 0)

  function Plain(a: Action): Call {
    Call(a, PLAIN, PLAIN)
  }

  /** One more call, made because the case as it is read takes it. */
  lemma Goes(h: Hash, ledgers: seq<Ledger>, calls: seq<Call>, a: Action)
    returns (more: seq<Ledger>, made: seq<Call>, s: State)
    requires Runs(h, ledgers, calls) && Proper(a)
    requires var l := ledgers[|calls|]; Step(h, View(l), Filled(h, l, Plain(a))).Ok?
    ensures Runs(h, more, made) && |more| == |ledgers| + 1 && |made| == |calls| + 1 && s == View(more[|made|])
    ensures more[0] == ledgers[0]
    ensures var l := ledgers[|calls|]; Step(h, View(l), Filled(h, l, Plain(a))) == Ok(s)
  {
    hide Step, Write, View, Filled, Empty, Extends;
    var l, x := ledgers[|calls|], Plain(a);
    WriteRefines(h, l, x);
    var l' := Write(h, l, x).value;
    more, made, s := ledgers + [l'], calls + [x], View(l');
  }

  predicate Finished(s: State) {
    LifeOf(s).Disposed?
  }

  lemma StartOn(h: Hash, caseUid: string) returns (more: seq<Ledger>, made: seq<Call>)
    ensures Runs(h, more, made) && Started(View(more[|made|])) && more[0] == Empty(caseUid)
  {
    hide View, Write, LifeEvent, UidOf, Started, Attach;
    var ledgers, calls := [Empty(caseUid)], [];
    var a := DoAttach(OWNER, true, "");
    ViewOfEmpty(caseUid);
    Starts(caseUid, Filled(h, ledgers[0], Plain(a)).uid);
    var s: State;
    more, made, s := Goes(h, ledgers, calls, a);
  }

  lemma WorksOn(h: Hash, ledgers: seq<Ledger>, calls: seq<Call>) returns (more: seq<Ledger>, made: seq<Call>)
    requires Runs(h, ledgers, calls) && Started(View(ledgers[|calls|]))
    ensures Runs(h, more, made) && Worked(View(more[|made|])) && more[0] == ledgers[0]
  {
    hide View, Write, Empty, LifeEvent, RequestEvent, KeepingEvent, ErasureEvent, UidOf, MoveTo, At;
    hide Started, Worked, Transition;
    var l := ledgers[|calls|];
    var a := DoTransition(OWNER, L.Active, 0, "");
    var b := Filled(h, l, Plain(a));
    Works(h, View(l), b.uid);
    var s: State;
    more, made, s := Goes(h, ledgers, calls, a);
  }

  lemma ReviewOn(h: Hash, ledgers: seq<Ledger>, calls: seq<Call>) returns (more: seq<Ledger>, made: seq<Call>)
    requires Runs(h, ledgers, calls) && Worked(View(ledgers[|calls|]))
    ensures Runs(h, more, made) && Reviewing(View(more[|made|])) && more[0] == ledgers[0]
  {
    hide View, Write, Empty, LifeEvent, RequestEvent, KeepingEvent, ErasureEvent, UidOf, MoveTo, At;
    hide Worked, Reviewing, RequestReview;
    var l := ledgers[|calls|];
    var a := DoRequest(OWNER, V.Case, "", false, Head(View(l).lifecycle).uid, "", "");
    var b := Filled(h, l, Plain(a));
    IsReviewed(View(l), b.uid, b.moveUid);
    var s: State;
    more, made, s := Goes(h, ledgers, calls, a);
  }

  lemma ApproveOn(h: Hash, ledgers: seq<Ledger>, calls: seq<Call>) returns (more: seq<Ledger>, made: seq<Call>)
    requires Runs(h, ledgers, calls) && Reviewing(View(ledgers[|calls|]))
    ensures Runs(h, more, made) && Reviewed(View(more[|made|])) && more[0] == ledgers[0]
  {
    hide View, Write, Empty, LifeEvent, RequestEvent, KeepingEvent, ErasureEvent, UidOf, MoveTo, At;
    hide Reviewing, Reviewed, DecideReview;
    var l := ledgers[|calls|];
    var a := DoDecide(REVIEWER, Head(View(l).lifecycle).reviewUid, V.Approved, "");
    var b := Filled(h, l, Plain(a));
    IsApproved(View(l), b.moveUid);
    var s: State;
    more, made, s := Goes(h, ledgers, calls, a);
  }

  lemma KeepOn(h: Hash, ledgers: seq<Ledger>, calls: seq<Call>) returns (more: seq<Ledger>, made: seq<Call>)
    requires Runs(h, ledgers, calls) && Reviewed(View(ledgers[|calls|]))
    ensures Runs(h, more, made) && Kept(View(more[|made|])) && more[0] == ledgers[0]
  {
    hide View, Write, Empty, LifeEvent, RequestEvent, KeepingEvent, ErasureEvent, UidOf, MoveTo, At;
    hide Reviewed, Kept, SetRetention;
    var l := ledgers[|calls|];
    var a := DoSetRetention(0, "", "");
    var b := Filled(h, l, Plain(a));
    IsKept(View(l), b.uid, b.moveUid);
    var s: State;
    more, made, s := Goes(h, ledgers, calls, a);
  }

  lemma EraseOn(h: Hash, ledgers: seq<Ledger>, calls: seq<Call>) returns (more: seq<Ledger>, made: seq<Call>)
    requires Runs(h, ledgers, calls) && Kept(View(ledgers[|calls|]))
    ensures Runs(h, more, made) && KeyGone(View(more[|made|])) && more[0] == ledgers[0]
  {
    hide View, Write, Empty, LifeEvent, RequestEvent, KeepingEvent, ErasureEvent, UidOf, MoveTo, At;
    hide Kept, KeyGone, RecordErasure;
    var l := ledgers[|calls|];
    var a := DoErase(OWNER, KEY, "");
    var b := Filled(h, l, Plain(a));
    IsErased(View(l), b.uid);
    var s: State;
    more, made, s := Goes(h, ledgers, calls, a);
  }

  lemma DisposeOn(h: Hash, ledgers: seq<Ledger>, calls: seq<Call>) returns (more: seq<Ledger>, made: seq<Call>)
    requires Runs(h, ledgers, calls) && KeyGone(View(ledgers[|calls|]))
    ensures Runs(h, more, made) && Finished(View(more[|made|])) && more[0] == ledgers[0]
  {
    hide View, Write, Empty, LifeEvent, RequestEvent, KeepingEvent, ErasureEvent, UidOf, MoveTo, At;
    hide KeyGone, Transition;
    var l := ledgers[|calls|];
    var a := DoTransition(OWNER, L.Disposed, 0, "");
    var b := Filled(h, l, Plain(a));
    IsDisposed(h, View(l), b.uid);
    var s: State;
    more, made, s := Goes(h, ledgers, calls, a);
  }

  /** For every digest function and case there are calls that take it, on the chains, from nothing to its disposal. */
  lemma WholeCase(h: Hash, caseUid: string) returns (ledgers: seq<Ledger>, calls: seq<Call>)
    ensures Runs(h, ledgers, calls) && ledgers[0].caseUid == caseUid
    ensures LifeOf(View(ledgers[|calls|])).Disposed?
  {
    hide Runs, View, Started, Worked, Reviewing, Reviewed, Kept, KeyGone;
    ledgers, calls := StartOn(h, caseUid);
    ledgers, calls := WorksOn(h, ledgers, calls);
    ledgers, calls := ReviewOn(h, ledgers, calls);
    ledgers, calls := ApproveOn(h, ledgers, calls);
    ledgers, calls := KeepOn(h, ledgers, calls);
    ledgers, calls := EraseOn(h, ledgers, calls);
    ledgers, calls := DisposeOn(h, ledgers, calls);
  }
}
