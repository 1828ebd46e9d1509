// What each builtin takes of a case whose chains are in order, said outright:
// who may make the call, in which states of the case, and what the chains must
// show, by the events in them.
module CaseTaken {
  import opened Common
  import opened Digest
  import opened CaseLedger
  import opened CaseRuns
  import L = CaseLifecycle
  import V = CaseReview
  import T = CaseRetention
  import E = CaseErasure
  import C = CaseEvidence

  // ---------------------------------------------------------------------
  // The disposal of a case
  // ---------------------------------------------------------------------

  /** Every exhibit was last returned or disposed of. */
  predicate ExhibitsAway(exhibits: map<string, C.Exhibit>) {
    forall u | u in exhibits ::
      var events := exhibits[u].events;
      events != [] && (events[|events| - 1].state == C.Returned || events[|events| - 1].state == C.Disposed)
  }

  /** The last period set can be read, and ends at `now` or before. */
  predicate PeriodOver(retention: seq<T.Event>, now: int) {
    exists i :: 0 <= i < |retention| && T.LastSet(retention, i)
                && retention[i].kind.until.Some? && retention[i].kind.until.value <= now
  }

  predicate EveryHoldLifted(retention: seq<T.Event>) {
    forall i | 0 <= i < |retention| && retention[i].kind.Hold? ::
      exists j :: 0 <= j < |retention| && retention[j].kind == T.Release(retention[i].uid)
  }

  predicate EveryTimeRead(retention: seq<T.Event>) {
    forall i | 0 <= i < |retention| && retention[i].kind.Set? :: retention[i].kind.until.Some?
  }

  /** Some erasure is of every generation of the case key. */
  predicate WholeKeyErased(erasures: seq<E.Event>) {
    exists i :: 0 <= i < |erasures| && erasures[i].erased.CaseKey? && erasures[i].erased.scope == E.EveryGeneration
  }

  lemma PeriodOverIff(retention: seq<T.Event>, now: int)
    ensures Lapsed(retention, now) <==> PeriodOver(retention, now)
  {
    hide T.Period;
    T.PeriodIs(retention, 0);
    if T.PeriodSet(retention) {
      var k :| T.LastSet(retention, k);
      T.PeriodIs(retention, k);
    }
    if i :| 0 <= i < |retention| && T.LastSet(retention, i)
            && retention[i].kind.until.Some? && retention[i].kind.until.value <= now {
      T.PeriodIs(retention, i);
    }
  }

  lemma KeyErasedIff(erasures: seq<E.Event>)
    ensures E.KeyErased(erasures) <==> WholeKeyErased(erasures)
  {
    hide E.KeyErasure;
    var k := E.KeyErasure(erasures);
  }

  lemma TimesReadIff(retention: seq<T.Event>)
    ensures T.AllTimed(retention) <==> EveryTimeRead(retention)
  {
    if EveryTimeRead(retention) {
      forall i | 0 <= i < |retention|
        ensures T.Timed(retention[i])
      {
      }
    }
    if T.AllTimed(retention) {
      forall i | 0 <= i < |retention| && retention[i].kind.Set?
        ensures retention[i].kind.until.Some?
      {
        assert T.Timed(retention[i]);
      }
    }
  }

  lemma AwayIff(h: Hash, s: State)
    requires Inv(h, s)
    ensures AllGone(s.caseUid, s.exhibits) <==> ExhibitsAway(s.exhibits)
  {
    hide C.Accepted, EvidenceUid, Agree, L.LifecycleGood, V.ReviewsGood, T.RetentionKept, E.ErasuresGood, RolesGood;
    forall u | u in s.exhibits
      ensures s.exhibits[u].events != [] && s.exhibits[u].caseUid == s.caseUid
    {
      assert ExhibitGood(h, s.caseUid, u, s.exhibits[u]);
      AcceptedSome(u, s.exhibits[u]);
    }
  }

  lemma AcceptedSome(u: string, x: C.Exhibit)
    requires C.Accepted(u, x.digest, x.events)
    ensures x.events != []
  {
  }

  /** A case may be disposed of, and on which erasure of its key: every hold has been lifted, the last period set is over,
      every exhibit is away and every generation of the key is erased. */
  lemma GroundsIff(h: Hash, s: State, now: int)
    requires Inv(h, s)
    ensures var r := DisposalGrounds(h, s, now);
            && (r.Ok? <==>
                  && EveryTimeRead(s.retention) && EveryHoldLifted(s.retention) && PeriodOver(s.retention, now)
                  && ExhibitsAway(s.exhibits) && WholeKeyErased(s.erasures))
            && (r.Ok? ==> exists i :: 0 <= i < |s.erasures| && s.erasures[i].uid == r.value
                                      && s.erasures[i].erased.CaseKey? && s.erasures[i].erased.scope == E.EveryGeneration)
  {
    hide T.HoldsInForce, T.Period, T.AllTimed, T.RetentionKept, T.RetentionGood, AllGone, ExhibitsAway, PeriodOver, Lapsed;
    hide EveryTimeRead, WholeKeyErased, E.KeyErasure, ExhibitsGood, L.LifecycleGood, V.ReviewsGood, E.ErasuresGood, Agree;
    hide EveryHoldLifted;
    PeriodOverIff(s.retention, now);
    KeyErasedIff(s.erasures);
    TimesReadIff(s.retention);
    AwayIff(h, s);
    T.GoodIsKeptAndTimed(s.caseUid, s.retention);
    HoldsIff(s.retention);
  }

  /** A retained case is disposed of exactly if there are grounds, and its owner or an administrator asks. */
  lemma DisposalIff(h: Hash, s: State, who: Actor, now: int, uid: string)
    requires Inv(h, s) && s.attached.Some?
    ensures Transition(h, s, who, L.Disposed, now, uid).Ok? <==>
            && (who.role == CaseOwner || who.role == Administrator)
            && s.lifecycle != [] && s.lifecycle[|s.lifecycle| - 1].to == L.Retained
            && EveryTimeRead(s.retention) && EveryHoldLifted(s.retention) && PeriodOver(s.retention, now)
            && ExhibitsAway(s.exhibits) && WholeKeyErased(s.erasures)
  {
    hide ExhibitsAway, PeriodOver, EveryTimeRead, WholeKeyErased, EveryHoldLifted, DisposalGrounds;
    hide T.RetentionKept, ExhibitsGood, L.LifecycleGood, V.ReviewsGood, E.ErasuresGood, Agree;
    GroundsIff(h, s, now);
  }

  lemma HoldsIff(retention: seq<T.Event>)
    ensures T.HoldsInForce(retention) == [] <==> EveryHoldLifted(retention)
  {
    hide T.HoldsInForce;
    T.NoneInForceIff(retention);
    if EveryHoldLifted(retention) {
      forall i | 0 <= i < |retention| && retention[i].kind.Hold?
        ensures T.LiftedLater(retention, i)
      {
      }
    }
    if forall i | 0 <= i < |retention| && retention[i].kind.Hold? :: T.LiftedLater(retention, i) {
      forall i | 0 <= i < |retention| && retention[i].kind.Hold?
        ensures exists j :: 0 <= j < |retention| && retention[j].kind == T.Release(retention[i].uid)
      {
        assert T.LiftedLater(retention, i);
      }
    }
  }

  /** A disposal granted at one time is granted at every later one. */
  lemma DisposalStays(h: Hash, s: State, who: Actor, now: int, later: int, uid: string)
    requires Transition(h, s, who, L.Disposed, now, uid).Ok? && now <= later
    ensures Transition(h, s, who, L.Disposed, later, uid) == Transition(h, s, who, L.Disposed, now, uid)
  {
    hide T.HoldsInForce, T.Period, T.RetentionGood, AllGone, ExhibitsGood, L.LifecycleGood, E.ErasuresGood, E.KeyErasure;
  }

  // ---------------------------------------------------------------------
  // Attaching, moving and assigning
  // ---------------------------------------------------------------------

  lemma AttachIff(h: Hash, s: State, who: Actor, asserted: bool, uid: string)
    requires Inv(h, s)
    ensures Attach(s, who, asserted, uid).Ok? <==>
            s.attached.None? && asserted && (s.lifecycle == [] || RoleOf(s.roles, who.name) == Some(who.role))
  {
    hide ReviewAgrees, RetentionAgrees, DisposalAgrees, ExhibitsGood, V.ReviewsGood, L.LifecycleGood, DecisionsAnswer;
  }

  /** The moves case_transition makes, the disposal apart. */
  lemma MoveIff(h: Hash, s: State, who: Actor, to: L.State, now: int, uid: string)
    requires Inv(h, s) && s.attached.Some? && to != L.Disposed
    ensures Transition(h, s, who, to, now, uid).Ok? <==>
            to == L.Active && (LifeOf(s) == L.Registered || LifeOf(s) == L.Concluded)
  {
    hide Agree, ExhibitsGood, V.ReviewsGood, L.LifecycleGood, DisposalGrounds;
  }

  lemma AssignIff(h: Hash, s: State, subject: string, role: Assignment)
    requires Inv(h, s) && s.attached.Some?
    ensures Assign(s, subject, role).Ok? <==> LifeOf(s) != L.Disposed && RoleOf(s.roles, subject) != role
  {
    hide Agree, ExhibitsGood, V.ReviewsGood, L.LifecycleGood, RoleOf;
  }

  // ---------------------------------------------------------------------
  // Reviews
  // ---------------------------------------------------------------------

  /** No request for this subject is waiting for its decision. */
  predicate NoneWaiting(s: State, kind: V.SubjectKind, subject: string) {
    forall i | 0 <= i < |s.requests| && s.requests[i].kind == kind && s.requests[i].subject == subject ::
      s.requests[i].uid in s.decisions && s.decisions[s.requests[i].uid] != []
  }

  lemma WaitingIff(s: State, kind: V.SubjectKind, subject: string)
    ensures V.HasOpen(s.requests, s.decisions, kind, subject) <==> !NoneWaiting(s, kind, subject)
  {
  }

  /** A review of the case is asked for while it is active, with a manifest that names the head of its lifecycle; one of a
      record or of a redaction version of the case in any state but disposed; and one at a time of each. */
  lemma RequestIff(h: Hash, s: State, who: Actor, kind: V.SubjectKind, key: string, found: bool, head: string, uid: string,
                   moveUid: string)
    requires Inv(h, s) && s.attached.Some?
    ensures RequestReview(s, who, kind, key, found, head, uid, moveUid).Ok? <==>
            || (kind == V.Case && LifeOf(s) == L.Active && head == Head(s.lifecycle).uid
                && NoneWaiting(s, V.Case, s.caseUid))
            || ((kind == V.Record || kind == V.RedactionVersion) && LifeOf(s) != L.Disposed && found
                && NoneWaiting(s, kind, key))
  {
    hide Agree, ExhibitsGood, V.ReviewsGood, L.LifecycleGood, V.HasOpen, NoneWaiting, Head;
    WaitingIff(s, kind, if kind == V.Case then s.caseUid else key);
  }

  /** The request was made, by somebody else, and is waiting for its decision. */
  predicate Waiting(s: State, who: Actor, request: string, i: nat) {
    && i < |s.requests| && s.requests[i].uid == request && s.requests[i].actor != who.name
    && (request !in s.decisions || s.decisions[request] == [])
  }

  /** A reviewer decides a waiting request of somebody else's; that for the case itself while it is in review. */
  lemma DecideIff(h: Hash, s: State, who: Actor, request: string, decision: V.Decision, moveUid: string)
    requires Inv(h, s) && s.attached.Some? && V.DistinctUids(s.requests)
    ensures DecideReview(s, who, request, decision, moveUid).Ok? <==>
            && who.role == Reviewer && LifeOf(s) != L.Disposed
            && decision in {V.Approved, V.ChangesRequested, V.Rejected}
            && exists i: nat :: Waiting(s, who, request, i)
  {
    hide ExhibitsGood, V.ReviewsGood, L.LifecycleGood, Head, V.LatestCase, T.HoldsInForce, T.PeriodSet, E.KeyErasure;
    var k := V.Find(s.requests, request);
    if i: nat :| Waiting(s, who, request, i) {
      assert k == Some(i);
    }
    if k.Some? && !Waiting(s, who, request, k.value) {
      assert forall i: nat :: !Waiting(s, who, request, i);
    }
  }

  // ---------------------------------------------------------------------
  // Retention and erasures
  // ---------------------------------------------------------------------

  /** A period is set on a case that is concluded or retained, another than the one in force. */
  lemma SetIff(h: Hash, s: State, until: int, uid: string, moveUid: string)
    requires Inv(h, s) && s.attached.Some?
    ensures SetRetention(s, until, uid, moveUid).Ok? <==>
            && (LifeOf(s) == L.Concluded || LifeOf(s) == L.Retained)
            && EveryTimeRead(s.retention)
            && !exists i :: 0 <= i < |s.retention| && T.LastSet(s.retention, i) && s.retention[i].kind == T.Set(Some(until))
  {
    hide Agree, ExhibitsGood, V.ReviewsGood, L.LifecycleGood, T.Period, T.RetentionGood, T.RetentionKept, T.AllTimed, Written;
    hide EveryTimeRead;
    TimesReadIff(s.retention);
    T.GoodIsKeptAndTimed(s.caseUid, s.retention);
    SameUntil(s.retention, until);
  }

  lemma {:induction false} SameUntil(retention: seq<T.Event>, until: int)
    ensures T.Period(retention) == Some(until) <==>
            exists i :: 0 <= i < |retention| && T.LastSet(retention, i) && retention[i].kind == T.Set(Some(until))
  {
    hide T.Period;
    T.PeriodIs(retention, 0);
    if T.PeriodSet(retention) {
      var k :| T.LastSet(retention, k);
      T.PeriodIs(retention, k);
    }
    if i :| 0 <= i < |retention| && T.LastSet(retention, i) && retention[i].kind == T.Set(Some(until)) {
      T.PeriodIs(retention, i);
    }
  }

  lemma HoldIff(h: Hash, s: State, uid: string)
    requires Inv(h, s) && s.attached.Some?
    ensures PlaceHold(s, uid).Ok? <==> LifeOf(s) != L.Disposed && EveryTimeRead(s.retention)
  {
    hide Agree, ExhibitsGood, V.ReviewsGood, L.LifecycleGood, T.RetentionGood, T.RetentionKept, T.AllTimed, EveryTimeRead;
    TimesReadIff(s.retention);
    T.GoodIsKeptAndTimed(s.caseUid, s.retention);
  }

  /** A hold is lifted once, after it was placed. */
  lemma LiftIff(h: Hash, s: State, hold: string, uid: string)
    requires Inv(h, s) && s.attached.Some?
    ensures LiftHold(s, hold, uid).Ok? <==>
            && LifeOf(s) != L.Disposed && EveryTimeRead(s.retention)
            && (exists i :: 0 <= i < |s.retention| && s.retention[i].kind == T.Hold && s.retention[i].uid == hold)
            && !exists j :: 0 <= j < |s.retention| && s.retention[j].kind == T.Release(hold)
  {
    hide Agree, ExhibitsGood, V.ReviewsGood, L.LifecycleGood, T.RetentionGood, T.RetentionKept, T.AllTimed, EveryTimeRead;
    hide T.HoldsInForce, InForce;
    TimesReadIff(s.retention);
    T.GoodIsKeptAndTimed(s.caseUid, s.retention);
    InForceIs(s.retention, hold);
  }

  lemma InForceIs(retention: seq<T.Event>, hold: string)
    ensures InForce(retention, hold) <==>
            && (exists i :: 0 <= i < |retention| && retention[i].kind == T.Hold && retention[i].uid == hold)
            && !exists j :: 0 <= j < |retention| && retention[j].kind == T.Release(hold)
  {
    hide T.HoldsInForce;
    T.HoldUids(retention);
    assert InForce(retention, hold) <==> hold in T.Uids(T.HoldsInForce(retention));
    if j :| 0 <= j < |retention| && retention[j].kind == T.Release(hold) {
      assert hold in T.Lifted(retention);
    }
  }

  /** What an erasure names: a record by its uid, or one generation or more of the key. */
  lemma ErasureIff(h: Hash, s: State, who: Actor, erased: E.Erased, uid: string)
    requires Inv(h, s) && s.attached.Some?
    ensures RecordErasure(s, who, erased, uid).Ok? <==>
            && (who.role == CaseOwner || who.role == Administrator) && LifeOf(s) != L.Disposed
            && EveryTimeRead(s.retention) && EveryHoldLifted(s.retention) && !WholeKeyErased(s.erasures)
            && E.Check(s.caseUid, E.Event(uid, s.caseUid, erased))
  {
    hide Agree, ExhibitsGood, V.ReviewsGood, L.LifecycleGood, T.RetentionGood, T.RetentionKept, T.AllTimed, EveryTimeRead;
    hide E.ErasuresGood, E.Check, E.KeyErasure, T.HoldsInForce, EveryHoldLifted, WholeKeyErased;
    TimesReadIff(s.retention);
    T.GoodIsKeptAndTimed(s.caseUid, s.retention);
    HoldsIff(s.retention);
    KeyErasedIff(s.erasures);
  }

  // ---------------------------------------------------------------------
  // Custody
  // ---------------------------------------------------------------------

  /** The exhibit by that name, and where it was last and with whom. */
  predicate LastSays(h: Hash, s: State, exhibit: string, state: C.Place) {
    var u := EvidenceUid(h, s.caseUid, exhibit);
    && u in s.exhibits && s.exhibits[u].events != []
    && s.exhibits[u].events[|s.exhibits[u].events| - 1].state == state
  }

  function LastOf(h: Hash, s: State, exhibit: string): C.Event
    requires LastSays(h, s, exhibit, C.Held) || LastSays(h, s, exhibit, C.InTransit) || LastSays(h, s, exhibit, C.Returned)
  {
    var events := s.exhibits[EvidenceUid(h, s.caseUid, exhibit)].events;
    events[|events| - 1]
  }

  /** In a case whose exhibits read back, the one by a name is the one under its uid, unless two names clash. */
  lemma ExhibitIs(h: Hash, s: State, exhibit: string)
    requires Inv(h, s)
    ensures var u := EvidenceUid(h, s.caseUid, exhibit);
            && (u !in s.exhibits ==> Exhibit(h, s, exhibit) == Ok(None))
            && (u in s.exhibits && s.exhibits[u].name == exhibit ==>
                  Exhibit(h, s, exhibit) == Ok(Some(s.exhibits[u])) && s.exhibits[u].events != [])
  {
    hide C.Accepted, EvidenceUid, Agree, L.LifecycleGood, V.ReviewsGood, T.RetentionKept, E.ErasuresGood, RolesGood;
    var u := EvidenceUid(h, s.caseUid, exhibit);
    if u in s.exhibits {
      assert ExhibitGood(h, s.caseUid, u, s.exhibits[u]);
      AcceptedSome(u, s.exhibits[u]);
    }
  }

  /** The uid is that of an exhibit of this very name, if it is one's at all. */
  predicate NameIsOwn(h: Hash, s: State, exhibit: string) {
    var u := EvidenceUid(h, s.caseUid, exhibit);
    u in s.exhibits ==> s.exhibits[u].name == exhibit
  }

  /** A new exhibit is taken in while the case is neither in review nor concluded, retained or disposed; a returned one
      always; by somebody assigned, with a discrepancy if the digest is another. */
  lemma TakeInIff(h: Hash, s: State, who: Actor, exhibit: string, digest: string, described: bool, discrepancy: string,
                  uid: string)
    requires Inv(h, s) && s.attached.Some? && NameIsOwn(h, s, exhibit)
    ensures var u := EvidenceUid(h, s.caseUid, exhibit);
            TakeIn(h, s, who, exhibit, digest, described, discrepancy, uid).Ok? <==>
            && digest != "" && RoleOf(s.roles, who.name).Some?
            && if u in s.exhibits
               then LastSays(h, s, exhibit, C.Returned) && !described && (digest == s.exhibits[u].digest || discrepancy != "")
               else LifeOf(s) !in {L.InReview, L.Concluded, L.Retained, L.Disposed} && discrepancy == ""
  {
    hide Agree, ReadsBack, RoleOf, Exhibit, EvidenceUid, L.LifecycleGood;
    ExhibitIs(h, s, exhibit);
    LifecycleOf(h, s);
  }

  lemma LifecycleOf(h: Hash, s: State)
    requires Inv(h, s)
    ensures L.LifecycleGood(s.lifecycle)
  {
    hide Agree;
  }

  /** Whoever holds an exhibit releases it to somebody else who is assigned, returns it, or, being a case owner or an
      administrator and every hold being lifted, disposes of it. */
  lemma HandOnIff(h: Hash, s: State, who: Actor, exhibit: string, kind: C.Kind, recipient: string, uid: string)
    requires Inv(h, s) && s.attached.Some? && NameIsOwn(h, s, exhibit)
    requires kind.Release? || kind.Return? || kind.Dispose?
    ensures HandOn(h, s, who, exhibit, kind, recipient, uid).Ok? <==>
            && LastSays(h, s, exhibit, C.Held) && LastOf(h, s, exhibit).holder == who.name
            && (kind == C.Release ==> recipient != who.name && RoleOf(s.roles, recipient).Some?)
            && (kind == C.Dispose ==>
                  && (who.role == CaseOwner || who.role == Administrator)
                  && EveryTimeRead(s.retention) && EveryHoldLifted(s.retention))
  {
    hide Agree, RoleOf, Exhibit, EvidenceUid, ExhibitsGood, V.ReviewsGood, L.LifecycleGood, T.RetentionGood, T.RetentionKept;
    hide T.AllTimed, T.HoldsInForce, EveryTimeRead, EveryHoldLifted, E.ErasuresGood;
    ExhibitIs(h, s, exhibit);
    TimesReadIff(s.retention);
    T.GoodIsKeptAndTimed(s.caseUid, s.retention);
    HoldsIff(s.retention);
  }

  /** Whoever an exhibit was released to accepts it, with a discrepancy if the digest is another than the intake's. */
  lemma TakeOverIff(h: Hash, s: State, who: Actor, exhibit: string, digest: string, discrepancy: string, uid: string)
    requires Inv(h, s) && s.attached.Some? && NameIsOwn(h, s, exhibit)
    ensures TakeOver(h, s, who, exhibit, digest, discrepancy, uid).Ok? <==>
            && digest != ""
            && LastSays(h, s, exhibit, C.InTransit) && LastOf(h, s, exhibit).recipient == who.name
            && (digest == s.exhibits[EvidenceUid(h, s.caseUid, exhibit)].digest || discrepancy != "")
  {
    hide Agree, ReadsBack, Exhibit, EvidenceUid;
    ExhibitIs(h, s, exhibit);
  }
}
