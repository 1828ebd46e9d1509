// What every run of the case builtins keeps, by whatever actors, in whatever
// order: the chains read back, and the chains agree with each other.
module CaseRuns {
  import opened Common
  import opened Digest
  import opened CaseLedger
  import L = CaseLifecycle
  import V = CaseReview
  import T = CaseRetention
  import E = CaseErasure
  import C = CaseEvidence

  // ---------------------------------------------------------------------
  // Reviews and the lifecycle
  // ---------------------------------------------------------------------

  predicate AfterConclusion(state: L.State) {
    state.Concluded? || state.Retained? || state.Disposed?
  }

  /** The request was decided, by a reviewer who is not whoever asked. */
  predicate DecidedByAnother(decisions: V.Decisions, r: V.Request) {
    var ds := V.DecisionsOf(decisions, r.uid);
    |ds| == 1 && ds[0].role.Reviewer? && ds[0].actor != r.actor
  }

  predicate ApprovedByAnother(decisions: V.Decisions, r: V.Request) {
    DecidedByAnother(decisions, r) && V.DecisionsOf(decisions, r.uid)[0].decision == V.Approved
  }

  predicate Has(requests: seq<V.Request>, uid: string) {
    exists i :: 0 <= i < |requests| && requests[i].uid == uid
  }

  /** Decisions answer requests of the case, each by somebody other than whoever asked. */
  predicate DecisionsAnswer(requests: seq<V.Request>, decisions: V.Decisions) {
    && (forall u | u in decisions :: Has(requests, u))
    && (forall i | 0 <= i < |requests| ::
          V.Undecided(decisions, requests[i]) || DecidedByAnother(decisions, requests[i]))
  }

  /** How the lifecycle state and the latest request of the case itself agree. */
  predicate ReviewAgrees(state: L.State, named: string, requests: seq<V.Request>, decisions: V.Decisions) {
    var latest := V.LatestCase(requests);
    && (forall i | 0 <= i < |requests| && requests[i].kind == V.Case && V.Undecided(decisions, requests[i]) ::
          state.InReview? && latest == Some(i))
    && (state.InReview? ==>
          latest.Some? && V.Undecided(decisions, requests[latest.value]) && requests[latest.value].uid == named)
    && (AfterConclusion(state) ==> latest.Some? && ApprovedByAnother(decisions, requests[latest.value]))
  }

  lemma {:induction false} LatestAppend(requests: seq<V.Request>, r: V.Request)
    ensures V.LatestCase(requests + [r]) == if r.kind == V.Case then Some(|requests|) else V.LatestCase(requests)
  {
  }

  /** A new request takes no part in what was decided before. */
  lemma FreshUndecided(requests: seq<V.Request>, decisions: V.Decisions, r: V.Request)
    requires DecisionsAnswer(requests, decisions) && V.DistinctUids(requests + [r])
    ensures r.uid !in decisions && DecisionsAnswer(requests + [r], decisions)
  {
    var more := requests + [r];
    forall u | u in decisions
      ensures u != r.uid && Has(more, u)
    {
      var i :| 0 <= i < |requests| && requests[i].uid == u;
      assert more[i] == requests[i] && more[|requests|] == r;
    }
  }

  lemma RequestKeeps(state: L.State, named: string, requests: seq<V.Request>, decisions: V.Decisions, r: V.Request)
    requires DecisionsAnswer(requests, decisions) && ReviewAgrees(state, named, requests, decisions)
    requires V.DistinctUids(requests + [r])
    requires r.kind == V.Case ==> state.Active?
    ensures DecisionsAnswer(requests + [r], decisions)
    ensures if r.kind == V.Case then ReviewAgrees(L.InReview, r.uid, requests + [r], decisions)
            else ReviewAgrees(state, named, requests + [r], decisions)
  {
    FreshUndecided(requests, decisions, r);
    LatestAppend(requests, r);
    var more := requests + [r];
    assert forall i | 0 <= i < |requests| :: more[i] == requests[i];
  }

  /** A decision answers one request and no other. */
  lemma DecisionIsOfOne(requests: seq<V.Request>, decisions: V.Decisions, k: nat, d: V.Decided, i: nat)
    requires V.DistinctUids(requests) && k < |requests| && i < |requests|
    ensures V.DecisionsOf(decisions[requests[k].uid := [d]], requests[i].uid) ==
            if i == k then [d] else V.DecisionsOf(decisions, requests[i].uid)
  {
  }

  lemma DecideKeeps(state: L.State, named: string, requests: seq<V.Request>, decisions: V.Decisions, k: nat,
                    d: V.Decided)
    requires DecisionsAnswer(requests, decisions) && ReviewAgrees(state, named, requests, decisions)
    requires V.DistinctUids(requests) && k < |requests| && V.Undecided(decisions, requests[k])
    requires d.role.Reviewer? && d.actor != requests[k].actor
    requires requests[k].kind == V.Case ==> state.InReview? && named == requests[k].uid
    ensures var after := decisions[requests[k].uid := [d]];
            && DecisionsAnswer(requests, after)
            && (requests[k].kind == V.Case ==>
                  ReviewAgrees(if d.decision == V.Approved then L.Concluded else L.Active, named, requests, after))
            && (requests[k].kind != V.Case ==> ReviewAgrees(state, named, requests, after))
  {
    var after := decisions[requests[k].uid := [d]];
    forall i | 0 <= i < |requests|
      ensures V.DecisionsOf(after, requests[i].uid) ==
              if i == k then [d] else V.DecisionsOf(decisions, requests[i].uid)
    {
      DecisionIsOfOne(requests, decisions, k, d, i);
    }
    assert Has(requests, requests[k].uid);
  }

  // ---------------------------------------------------------------------
  // The invariant
  // ---------------------------------------------------------------------

  predicate HasPeriod(state: L.State) {
    state.Retained? || state.Disposed?
  }

  predicate RetentionAgrees(state: L.State, retention: seq<T.Event>) {
    T.PeriodSet(retention) <==> HasPeriod(state)
  }

  /** What a disposed case's chains show, from the disposal on. */
  predicate DisposalAgrees(lifecycle: seq<L.Move>, retention: seq<T.Event>, erasures: seq<E.Event>) {
    L.StateOf(lifecycle).Disposed? ==>
      && T.HoldsInForce(retention) == [] && T.AllTimed(retention)
      && E.KeyErased(erasures) && Head(lifecycle).erasureUid == erasures[E.KeyErasure(erasures).value].uid
  }

  predicate AttachmentAgrees(attached: Option<Attachment>, lifecycle: seq<L.Move>) {
    attached.Some? ==> lifecycle != [] && attached.value == Attachment(L.StateOf(lifecycle), Head(lifecycle).uid)
  }

  /** Every assignment changes the one before it, the first from none. */
  predicate Changes(chain: seq<Assignment>) {
    (chain != [] ==> chain[0] != None) && forall i | 0 < i < |chain| :: chain[i] != chain[i - 1]
  }

  predicate RolesGood(roles: map<string, seq<Assignment>>) {
    forall n | n in roles :: Changes(roles[n])
  }

  predicate OwnExhibits(caseUid: string, exhibits: map<string, C.Exhibit>) {
    forall u | u in exhibits :: exhibits[u].caseUid == caseUid
  }

  /** Every reader accepts what the ledger holds, but for a period whose time cannot be read. */
  predicate ReadsBack(h: Hash, s: State) {
    && L.LifecycleGood(s.lifecycle)
    && V.ReviewsGood(s.caseUid, s.requests, s.decisions)
    && T.RetentionKept(s.caseUid, s.retention)
    && E.ErasuresGood(s.caseUid, s.erasures)
    && ExhibitsGood(h, s.caseUid, s.exhibits) && OwnExhibits(s.caseUid, s.exhibits)
    && RolesGood(s.roles)
  }

  /** The chains agree with each other and with the attached run. */
  predicate Agree(s: State) {
    && DecisionsAnswer(s.requests, s.decisions)
    && ReviewAgrees(LifeOf(s), Head(s.lifecycle).reviewUid, s.requests, s.decisions)
    && RetentionAgrees(LifeOf(s), s.retention)
    && DisposalAgrees(s.lifecycle, s.retention, s.erasures)
    && AttachmentAgrees(s.attached, s.lifecycle)
    && (s.lifecycle == [] ==> s.roles == map[])
  }

  predicate Inv(h: Hash, s: State) {
    ReadsBack(h, s) && Agree(s)
  }

  lemma InitialInv(h: Hash, caseUid: string)
    ensures Inv(h, Initial(caseUid))
  {
  }

  // ---------------------------------------------------------------------
  // Each builtin keeps it
  // ---------------------------------------------------------------------

  lemma AttachKeeps(h: Hash, s: State, who: Actor, asserted: bool, uid: string)
    requires Inv(h, s) && Attach(s, who, asserted, uid).Ok?
    ensures Inv(h, Attach(s, who, asserted, uid).value)
  {
    if s.lifecycle == [] {
      L.LifecycleAppend(s.lifecycle, L.Move(uid, L.Unregistered, L.Registered, "", "", ""));
    }
  }

  lemma TransitionKeeps(h: Hash, s: State, who: Actor, to: L.State, now: int, uid: string)
    requires Inv(h, s) && Transition(h, s, who, to, now, uid).Ok?
    ensures Inv(h, Transition(h, s, who, to, now, uid).value)
  {
    hide V.LatestCase, V.Undecided, DecidedByAnother, ExhibitsGood, E.KeyErasure, T.Period, T.HoldsInForce, AllGone;
    hide T.RetentionKept, T.RetentionGood, T.AllTimed, T.PeriodSet;
    T.GoodIsKeptAndTimed(s.caseUid, s.retention);
    var s' := Transition(h, s, who, to, now, uid).value;
    L.LifecycleAppend(s.lifecycle, s'.lifecycle[|s.lifecycle|]);
  }

  lemma AssignKeeps(h: Hash, s: State, subject: string, role: Assignment)
    requires Inv(h, s) && Assign(s, subject, role).Ok?
    ensures Inv(h, Assign(s, subject, role).value)
  {
    hide ExhibitsGood, T.HoldsInForce, T.Period, E.KeyErasure, ReviewAgrees, L.LifecycleGood;
    RolesAppend(s.roles, subject, role);
  }

  lemma RolesAppend(roles: map<string, seq<Assignment>>, subject: string, role: Assignment)
    requires RolesGood(roles) && RoleOf(roles, subject) != role
    ensures RolesGood(Assigned(roles, subject, role))
  {
  }

  lemma RequestStepKeeps(h: Hash, s: State, who: Actor, kind: V.SubjectKind, key: string, found: bool,
                         manifestHead: string, uid: string, moveUid: string)
    requires Inv(h, s) && RequestReview(s, who, kind, key, found, manifestHead, uid, moveUid).Ok?
    requires V.DistinctUids(RequestReview(s, who, kind, key, found, manifestHead, uid, moveUid).value.requests)
    ensures Inv(h, RequestReview(s, who, kind, key, found, manifestHead, uid, moveUid).value)
  {
    hide ExhibitsGood, T.Period, T.HoldsInForce, E.KeyErasure, ReviewAgrees, V.HasOpen;
    var s' := RequestReview(s, who, kind, key, found, manifestHead, uid, moveUid).value;
    var r := s'.requests[|s.requests|];
    assert s'.requests == s.requests + [r];
    FreshUndecided(s.requests, s.decisions, r);
    RequestKeeps(LifeOf(s), Head(s.lifecycle).reviewUid, s.requests, s.decisions, r);
    assert V.ReviewsGood(s.caseUid, s'.requests, s'.decisions);
    if kind == V.Case {
      L.LifecycleAppend(s.lifecycle, s'.lifecycle[|s.lifecycle|]);
    }
  }

  lemma DecideStepKeeps(h: Hash, s: State, who: Actor, requestUid: string, decision: V.Decision, moveUid: string)
    requires Inv(h, s) && V.DistinctUids(s.requests) && DecideReview(s, who, requestUid, decision, moveUid).Ok?
    ensures Inv(h, DecideReview(s, who, requestUid, decision, moveUid).value)
  {
    hide ExhibitsGood, T.Period, T.HoldsInForce, E.KeyErasure, ReviewAgrees, DecisionsAnswer;
    var s' := DecideReview(s, who, requestUid, decision, moveUid).value;
    var k := V.Find(s.requests, requestUid).value;
    var d := V.Decided(requestUid, s.caseUid, decision, who.name, who.role);
    DecideKeeps(LifeOf(s), Head(s.lifecycle).reviewUid, s.requests, s.decisions, k, d);
    forall i | 0 <= i < |s.requests|
      ensures V.RequestGood(s.caseUid, s'.decisions, s.requests[i])
    {
      DecisionIsOfOne(s.requests, s.decisions, k, d, i);
      assert V.RequestGood(s.caseUid, s.decisions, s.requests[i]);
    }
    if s.requests[k].kind == V.Case {
      L.LifecycleAppend(s.lifecycle, s'.lifecycle[|s.lifecycle|]);
    }
  }

  lemma SetRetentionKeeps(h: Hash, s: State, until: int, uid: string, moveUid: string)
    requires Inv(h, s) && SetRetention(s, until, uid, moveUid).Ok?
    ensures Inv(h, SetRetention(s, until, uid, moveUid).value)
  {
    hide ExhibitsGood, T.HoldsInForce, E.KeyErasure, V.LatestCase, V.Undecided, DecidedByAnother, T.Period;
    hide T.RetentionKept, T.RetentionGood, T.AllTimed, T.PeriodSet, Times.Parse, Times.Render, V.ReviewsGood;
    T.GoodIsKeptAndTimed(s.caseUid, s.retention);
    var s' := SetRetention(s, until, uid, moveUid).value;
    var e := s'.retention[|s.retention|];
    T.RetentionAppend(s.caseUid, s.retention, e);
    T.PeriodSetMore(s.retention, e);
    if LifeOf(s).Concluded? {
      L.LifecycleAppend(s.lifecycle, s'.lifecycle[|s.lifecycle|]);
    }
  }

  lemma HoldKeeps(h: Hash, s: State, uid: string)
    requires Inv(h, s) && PlaceHold(s, uid).Ok?
    ensures Inv(h, PlaceHold(s, uid).value)
  {
    hide ExhibitsGood, T.HoldsInForce, E.KeyErasure, ReviewAgrees, T.Period, L.LifecycleGood;
    hide T.RetentionKept, T.RetentionGood, T.AllTimed, T.PeriodSet;
    var e := T.Event(uid, s.caseUid, T.Hold);
    T.RetentionAppend(s.caseUid, s.retention, e);
    T.PeriodSetMore(s.retention, e);
  }

  lemma LiftKeeps(h: Hash, s: State, hold: string, uid: string)
    requires Inv(h, s) && LiftHold(s, hold, uid).Ok?
    ensures Inv(h, LiftHold(s, hold, uid).value)
  {
    hide ExhibitsGood, T.HoldsInForce, E.KeyErasure, ReviewAgrees, T.Period, L.LifecycleGood, T.Lifted, T.Placed;
    hide T.RetentionKept, T.RetentionGood, T.AllTimed, T.PeriodSet;
    var e := T.Event(uid, s.caseUid, T.Release(hold));
    T.HoldUids(s.retention);
    assert hold in T.Uids(T.HoldsInForce(s.retention));
    T.RetentionAppend(s.caseUid, s.retention, e);
    T.PeriodSetMore(s.retention, e);
  }

  lemma ErasureKeeps(h: Hash, s: State, who: Actor, erased: E.Erased, uid: string)
    requires Inv(h, s) && RecordErasure(s, who, erased, uid).Ok?
    ensures Inv(h, RecordErasure(s, who, erased, uid).value)
  {
    hide ExhibitsGood, T.HoldsInForce, E.KeyErasure, ReviewAgrees, T.Period, L.LifecycleGood, E.Check;
    E.ErasuresAppend(s.caseUid, s.erasures, E.Event(uid, s.caseUid, erased));
  }

  // ---------------------------------------------------------------------
  // Custody
  // ---------------------------------------------------------------------

  /** A custody event that follows from an exhibit's chain leaves every exhibit reading back. */
  lemma CustodyKeeps(h: Hash, s: State, x: C.Exhibit, e: C.Event)
    requires Inv(h, s) && x.caseUid == s.caseUid
    requires var uid := EvidenceUid(h, s.caseUid, x.name);
             && (x.events != [] ==> uid in s.exhibits && s.exhibits[uid] == x)
             && C.Check(uid, x.digest, x.events, e)
    ensures Inv(h, WithCustody(h, s, x, e))
  {
    hide C.Check, C.Accepted, EvidenceUid, ReviewAgrees, L.LifecycleGood, V.ReviewsGood, T.HoldsInForce, T.Period,
      E.KeyErasure;
    var uid := EvidenceUid(h, s.caseUid, x.name);
    if x.events != [] {
      assert ExhibitGood(h, s.caseUid, uid, s.exhibits[uid]);
    }
    C.AcceptedAppend(uid, x.digest, x.events, e);
    var s' := WithCustody(h, s, x, e);
    forall u | u in s'.exhibits
      ensures ExhibitGood(h, s.caseUid, u, s'.exhibits[u]) && s'.exhibits[u].caseUid == s.caseUid
    {
      if u != uid {
        assert ExhibitGood(h, s.caseUid, u, s.exhibits[u]);
      }
    }
  }

  lemma TakeInKeeps(h: Hash, s: State, who: Actor, exhibit: string, digest: string, described: bool,
                    discrepancy: string, uid: string)
    requires Inv(h, s) && TakeIn(h, s, who, exhibit, digest, described, discrepancy, uid).Ok?
    ensures Inv(h, TakeIn(h, s, who, exhibit, digest, described, discrepancy, uid).value)
  {
    hide Inv, EvidenceUid, C.Accepted;
    var evidence := EvidenceUid(h, s.caseUid, exhibit);
    match Exhibit(h, s, exhibit).value
    case Some(x) =>
      CustodyKeeps(h, s, x, C.Custody(uid, C.Reintake, evidence, who.name, "", digest,
                                      C.Comparison(digest, x.digest), discrepancy));
    case None =>
      var e := C.Custody(uid, C.Intake, evidence, who.name, "", digest, C.NotCompared, "");
      var x := C.Exhibit(exhibit, s.caseUid, digest, []);
      assert [] + [e] == [e];
      CustodyKeeps(h, s, x, e);
  }

  lemma HandOnKeeps(h: Hash, s: State, who: Actor, exhibit: string, kind: C.Kind, recipient: string, uid: string)
    requires Inv(h, s) && (kind.Release? || kind.Return? || kind.Dispose?)
    requires HandOn(h, s, who, exhibit, kind, recipient, uid).Ok?
    ensures Inv(h, HandOn(h, s, who, exhibit, kind, recipient, uid).value)
  {
    hide Inv, EvidenceUid, C.Accepted;
    var x := HeldBy(h, s, who, exhibit).value;
    var evidence := EvidenceUid(h, s.caseUid, exhibit);
    assert x.events != [];
    CustodyKeeps(h, s, x, C.Custody(uid, kind, evidence, who.name, if kind.Dispose? then "" else recipient, "",
                                    C.NotCompared, ""));
  }

  lemma TakeOverKeeps(h: Hash, s: State, who: Actor, exhibit: string, digest: string, discrepancy: string, uid: string)
    requires Inv(h, s) && TakeOver(h, s, who, exhibit, digest, discrepancy, uid).Ok?
    ensures Inv(h, TakeOver(h, s, who, exhibit, digest, discrepancy, uid).value)
  {
    hide Inv, EvidenceUid, C.Accepted;
    var x := Exhibit(h, s, exhibit).value.value;
    assert x.events != [];
    CustodyKeeps(h, s, x, C.Custody(uid, C.Accept, EvidenceUid(h, s.caseUid, exhibit), who.name, "", digest,
                                    C.Comparison(digest, x.digest), discrepancy));
  }
}
