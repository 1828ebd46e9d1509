// Whole runs of the case builtins as steps on what the readers see, from an
// empty ledger on, whatever uids the events are given. Where the uids of review
// requests must differ it is said; that the chains make them differ is CaseReads.
module CaseHistory {
  import opened Common
  import opened Digest
  import opened CaseLedger
  import opened CaseRuns
  import Times
  import L = CaseLifecycle
  import V = CaseReview
  import T = CaseRetention
  import E = CaseErasure
  import C = CaseEvidence

  /** The states steps pass through; a refused step changes nothing and is not among them. */
  predicate Goes(h: Hash, states: seq<State>, actions: seq<Action>) {
    && |states| == |actions| + 1
    && forall i | 0 <= i < |actions| :: Step(h, states[i], actions[i]) == Ok(states[i + 1])
  }

  predicate Run(h: Hash, states: seq<State>, actions: seq<Action>) {
    Goes(h, states, actions) && states[0] == Initial(states[0].caseUid)
  }

  // ---------------------------------------------------------------------
  // Chains only grow
  // ---------------------------------------------------------------------

  predicate Grows(s: State, s': State) {
    && s'.caseUid == s.caseUid
    && s.lifecycle <= s'.lifecycle && s.requests <= s'.requests
    && s.retention <= s'.retention && s.erasures <= s'.erasures
    && (forall u | u in s.exhibits :: u in s'.exhibits && s.exhibits[u].events <= s'.exhibits[u].events)
  }

  /** A custody step changes nothing but one exhibit's chain, by one event. */
  predicate OneMoreCustody(s: State, s': State) {
    && s' == s.(exhibits := s'.exhibits)
    && exists u :: u in s'.exhibits && s'.exhibits == s.exhibits[u := s'.exhibits[u]]
                   && var was := if u in s.exhibits then s.exhibits[u].events else [];
                      |s'.exhibits[u].events| == |was| + 1 && was <= s'.exhibits[u].events
  }

  predicate IsCustody(a: Action) {
    a.DoTakeIn? || a.DoRelease? || a.DoAccept? || a.DoReturn? || a.DoDispose?
  }

  lemma CustodySteps(h: Hash, s: State, a: Action)
    requires IsCustody(a)
    requires Step(h, s, a).Ok?
    ensures OneMoreCustody(s, Step(h, s, a).value)
  {
    hide C.Accepted, EvidenceUid, Takes, NoHold, RoleOf;
    var s' := Step(h, s, a).value;
    var u := EvidenceUid(h, s.caseUid, a.exhibit);
    assert u in s'.exhibits && s'.exhibits == s.exhibits[u := s'.exhibits[u]];
  }

  predicate LedgerStep(s: State, s': State, a: Action) {
    && s'.exhibits == s.exhibits && s'.caseUid == s.caseUid
    && s.lifecycle <= s'.lifecycle && s.requests <= s'.requests
    && s.retention <= s'.retention && s.erasures <= s'.erasures
    && (s'.erasures != s.erasures ==>
          a.DoErase? && Disposer(a.who.role) && NoHold(s) && !E.KeyErased(s.erasures))
  }

  predicate IsReview(a: Action) {
    a.DoRequest? || a.DoDecide?
  }

  lemma ReviewSteps(h: Hash, s: State, a: Action)
    requires IsReview(a) && Step(h, s, a).Ok?
    ensures LedgerStep(s, Step(h, s, a).value, a)
  {
    hide V.ReviewsGood, V.HasOpen, Takes, V.Find, NoHold, E.KeyErased;
  }

  predicate IsRetention(a: Action) {
    a.DoSetRetention? || a.DoHold? || a.DoLift?
  }

  lemma RetentionSteps(h: Hash, s: State, a: Action)
    requires IsRetention(a) && Step(h, s, a).Ok?
    ensures LedgerStep(s, Step(h, s, a).value, a)
  {
    hide T.RetentionGood, T.Period, Takes, InForce, NoHold, E.KeyErased, Written, LifeOf;
  }

  lemma LedgerSteps(h: Hash, s: State, a: Action)
    requires !IsCustody(a) && Step(h, s, a).Ok?
    ensures LedgerStep(s, Step(h, s, a).value, a)
  {
    hide L.LifecycleGood, E.ErasuresGood, E.Check, E.KeyErased, RequestReview, DecideReview, DisposalGrounds, Takes, RoleOf,
      NoHold, TakeIn, HandOn, TakeOver, SetRetention, PlaceHold, LiftHold;
    if IsReview(a) {
      ReviewSteps(h, s, a);
    } else if IsRetention(a) {
      RetentionSteps(h, s, a);
    }
  }

  lemma StepGrows(h: Hash, s: State, a: Action)
    requires Step(h, s, a).Ok?
    ensures Grows(s, Step(h, s, a).value)
  {
    hide Step;
    if IsCustody(a) {
      CustodySteps(h, s, a);
    } else {
      LedgerSteps(h, s, a);
    }
  }

  lemma {:induction false} RunGrows(h: Hash, states: seq<State>, actions: seq<Action>, i: nat, j: nat)
    requires Run(h, states, actions) && i <= j < |states|
    ensures states[i].requests <= states[j].requests && states[j].caseUid == states[0].caseUid
    decreases j
  {
    hide Step, Grows;
    if j > 0 {
      assert Step(h, states[j - 1], actions[j - 1]) == Ok(states[j]);
      StepGrows(h, states[j - 1], actions[j - 1]);
      GrowsMeans(states[j - 1], states[j]);
      if i < j {
        RunGrows(h, states, actions, i, j - 1);
      } else {
        RunGrows(h, states, actions, j - 1, j - 1);
      }
    }
  }

  lemma GrowsMeans(s: State, s': State)
    requires Grows(s, s')
    ensures s.requests <= s'.requests && s'.caseUid == s.caseUid
  {
  }

  // ---------------------------------------------------------------------
  // The invariant of every run
  // ---------------------------------------------------------------------

  lemma StepKeepsInv(h: Hash, s: State, a: Action)
    requires Inv(h, s) && Step(h, s, a).Ok? && V.DistinctUids(Step(h, s, a).value.requests)
    ensures Inv(h, Step(h, s, a).value)
  {
    hide Inv, Attach, Transition, Assign, RequestReview, DecideReview, SetRetention, PlaceHold, LiftHold,
      RecordErasure, TakeIn, HandOn, TakeOver, Grows;
    StepGrows(h, s, a);
    GrowsMeans(s, Step(h, s, a).value);
    EarlierDistinct(s.requests, Step(h, s, a).value.requests);
    match a
    case DoAttach(who, asserted, uid) => AttachKeeps(h, s, who, asserted, uid);
    case DoDetach => DetachKeeps(h, s);
    case DoTransition(who, to, now, uid) => TransitionKeeps(h, s, who, to, now, uid);
    case DoAssign(subject, role) => AssignKeeps(h, s, subject, role);
    case DoRequest(who, kind, key, found, manifestHead, uid, moveUid) =>
      RequestStepKeeps(h, s, who, kind, key, found, manifestHead, uid, moveUid);
    case DoDecide(who, requestUid, decision, moveUid) => DecideStepKeeps(h, s, who, requestUid, decision, moveUid);
    case DoSetRetention(until, uid, moveUid) => SetRetentionKeeps(h, s, until, uid, moveUid);
    case DoHold(uid) => HoldKeeps(h, s, uid);
    case DoLift(hold, uid) => LiftKeeps(h, s, hold, uid);
    case DoErase(who, erased, uid) => ErasureKeeps(h, s, who, erased, uid);
    case DoTakeIn(who, exhibit, digest, described, discrepancy, uid) =>
      TakeInKeeps(h, s, who, exhibit, digest, described, discrepancy, uid);
    case DoRelease(who, exhibit, recipient, uid) => HandOnKeeps(h, s, who, exhibit, C.Release, recipient, uid);
    case DoAccept(who, exhibit, digest, discrepancy, uid) =>
      TakeOverKeeps(h, s, who, exhibit, digest, discrepancy, uid);
    case DoReturn(who, exhibit, recipient, uid) => HandOnKeeps(h, s, who, exhibit, C.Return, recipient, uid);
    case DoDispose(who, exhibit, uid) => HandOnKeeps(h, s, who, exhibit, C.Dispose, "", uid);
  }

  lemma DetachKeeps(h: Hash, s: State)
    requires Inv(h, s)
    ensures Inv(h, s.(attached := None))
  {
  }

  lemma EarlierDistinct(a: seq<V.Request>, b: seq<V.Request>)
    requires a <= b && V.DistinctUids(b)
    ensures V.DistinctUids(a)
  {
  }

  /** In every state of every run every chain is in order and the chains agree; what the retention reader makes of its
      chain is RetentionReadsIff. */
  lemma {:induction false} RunKeepsInv(h: Hash, states: seq<State>, actions: seq<Action>, i: nat)
    requires Run(h, states, actions) && i < |states| && V.DistinctUids(states[i].requests)
    ensures Inv(h, states[i])
  {
    hide Inv, Step, V.DistinctUids;
    if i == 0 {
      InitialInv(h, states[0].caseUid);
    } else {
      assert Step(h, states[i - 1], actions[i - 1]) == Ok(states[i]);
      RunGrows(h, states, actions, i - 1, i);
      EarlierDistinct(states[i - 1].requests, states[i].requests);
      RunKeepsInv(h, states, actions, i - 1);
      StepKeepsInv(h, states[i - 1], actions[i - 1]);
    }
  }

  // ---------------------------------------------------------------------
  // What the invariant says of a case
  // ---------------------------------------------------------------------

  /** The undecided requests for a review of the case itself. */
  function OpenCaseRequests(s: State): set<nat> {
    set i: nat | 0 <= i < |s.requests| && s.requests[i].kind == V.Case && V.Undecided(s.decisions, s.requests[i])
  }

  /** A case is in review exactly while one request of it is open, and it is the request its lifecycle head names. */
  lemma InReviewIff(h: Hash, s: State)
    requires Inv(h, s)
    ensures LifeOf(s).InReview? <==> |OpenCaseRequests(s)| == 1
    ensures LifeOf(s).InReview? <==> OpenCaseRequests(s) != {}
    ensures forall k | k in OpenCaseRequests(s) :: s.requests[k].uid == Head(s.lifecycle).reviewUid
  {
    hide ReadsBack;
    var open := OpenCaseRequests(s);
    if LifeOf(s).InReview? {
      var k := V.LatestCase(s.requests).value;
      assert open == {k};
    } else {
      assert open == {};
    }
  }

  /** A concluded, retained or disposed case was last reviewed, and approved, by a reviewer who did not ask for it. */
  lemma ConclusionWasReviewed(h: Hash, s: State)
    requires Inv(h, s) && AfterConclusion(LifeOf(s))
    ensures V.LatestCase(s.requests).Some?
    ensures var r := s.requests[V.LatestCase(s.requests).value];
            |V.DecisionsOf(s.decisions, r.uid)| == 1 &&
            var d := V.DecisionsOf(s.decisions, r.uid)[0];
            d.decision == V.Approved && d.role.Reviewer? && d.actor != r.actor
  {
    hide ReadsBack;
    assert ReviewAgrees(LifeOf(s), Head(s.lifecycle).reviewUid, s.requests, s.decisions);
  }

  /** A period is set exactly while the case is retained or disposed of, and is read while every time can be. */
  lemma PeriodIff(h: Hash, s: State)
    requires Inv(h, s)
    ensures T.PeriodSet(s.retention) <==> LifeOf(s).Retained? || LifeOf(s).Disposed?
    ensures T.AllTimed(s.retention) ==> (T.Period(s.retention).Some? <==> T.PeriodSet(s.retention))
  {
    hide ReadsBack;
    assert RetentionAgrees(LifeOf(s), s.retention);
    if T.AllTimed(s.retention) {
      T.PeriodOfTimed(s.retention);
    }
  }

  // ---------------------------------------------------------------------
  // Disposal
  // ---------------------------------------------------------------------

  /** What the ledger shows at the commit that disposes of a case. */
  lemma DisposalCommit(h: Hash, s: State, a: Action)
    requires Step(h, s, a).Ok? && !LifeOf(s).Disposed? && LifeOf(Step(h, s, a).value).Disposed?
    ensures a.DoTransition? && (a.who.role == CaseOwner || a.who.role == Administrator) && LifeOf(s).Retained?
    ensures NoHold(s) && T.Period(s.retention).Some? && T.Period(s.retention).value <= a.now
    ensures AllGone(s.caseUid, s.exhibits) && E.KeyErased(s.erasures)
    ensures Head(Step(h, s, a).value.lifecycle).erasureUid == s.erasures[E.KeyErasure(s.erasures).value].uid
  {
    hide L.LifecycleGood, V.ReviewsGood, V.HasOpen, V.Find, T.RetentionGood, T.Period, T.HoldsInForce, E.ErasuresGood,
      E.Check, C.Accepted, EvidenceUid, AllGone, E.KeyErasure;
  }

  /** What no step changes once a case is disposed of. */
  predicate Frozen(s: State, s': State) {
    && s'.lifecycle == s.lifecycle && s'.roles == s.roles && s'.requests == s.requests
    && s'.decisions == s.decisions && s'.retention == s.retention && s'.erasures == s.erasures
  }

  lemma DisposedIsFinal(h: Hash, s: State, a: Action)
    requires LifeOf(s).Disposed? && Step(h, s, a).Ok?
    ensures Frozen(s, Step(h, s, a).value)
  {
    hide L.LifecycleGood, V.ReviewsGood, V.HasOpen, V.Find, T.RetentionGood, T.Period, T.HoldsInForce, E.ErasuresGood,
      E.Check, C.Accepted, EvidenceUid, DisposalGrounds;
    assert forall to :: L.MoveOf(L.Disposed, to).None?;
  }

  /** From a disposal on, only custody changes; so no hold comes back, the period stays and the key stays erased. */
  lemma {:induction false} DisposedForGood(h: Hash, states: seq<State>, actions: seq<Action>, i: nat, j: nat)
    requires Run(h, states, actions) && i <= j < |states| && LifeOf(states[i]).Disposed?
    ensures Frozen(states[i], states[j]) && LifeOf(states[j]).Disposed?
  {
    hide Step;
    if i < j {
      DisposedForGood(h, states, actions, i, j - 1);
      assert Step(h, states[j - 1], actions[j - 1]) == Ok(states[j]);
      DisposedIsFinal(h, states[j - 1], actions[j - 1]);
    }
  }

  /** In every disposed state: no hold, a period, and every generation of the key erased. */
  lemma DisposedMeans(h: Hash, s: State)
    requires Inv(h, s) && LifeOf(s).Disposed?
    ensures T.HoldsInForce(s.retention) == [] && T.Period(s.retention).Some? && E.KeyErased(s.erasures)
    ensures Head(s.lifecycle).erasureUid == s.erasures[E.KeyErasure(s.erasures).value].uid
  {
    hide ReadsBack, T.AllTimed, T.PeriodSet, T.HoldsInForce, T.Period;
    assert RetentionAgrees(LifeOf(s), s.retention);
    assert DisposalAgrees(s.lifecycle, s.retention, s.erasures);
    T.PeriodOfTimed(s.retention);
  }

  predicate HasReturned(s: State) {
    exists u :: u in s.exhibits && C.StateOf(s.exhibits[u].events).Returned?
  }

  predicate HasAssigned(s: State) {
    exists n :: n in s.roles && RoleOf(s.roles, n).Some?
  }

  /** With every exhibit gone from a disposed case, the one step that touches an exhibit takes a returned one in again. */
  lemma GoneStep(h: Hash, s: State, a: Action)
    requires LifeOf(s).Disposed? && OwnExhibits(s.caseUid, s.exhibits) && AllGone(s.caseUid, s.exhibits)
    requires Step(h, s, a).Ok?
    ensures Step(h, s, a).value.exhibits == s.exhibits || (HasReturned(s) && HasAssigned(s))
  {
    hide EvidenceUid, C.Accepted, Step;
    if IsCustody(a) {
      GoneCustody(h, s, a);
    } else {
      LedgerSteps(h, s, a);
    }
  }

  lemma GoneCustody(h: Hash, s: State, a: Action)
    requires LifeOf(s).Disposed? && OwnExhibits(s.caseUid, s.exhibits) && AllGone(s.caseUid, s.exhibits)
    requires IsCustody(a) && Step(h, s, a).Ok?
    ensures HasReturned(s) && HasAssigned(s)
  {
    hide EvidenceUid, C.Accepted, NoHold, L.LifecycleGood;
    var u := EvidenceUid(h, s.caseUid, a.exhibit);
    assert u in s.exhibits && Gone(s.exhibits[u]);
    assert a.DoTakeIn? && RoleOf(s.roles, a.who.name).Some?;
  }

  /** A returned exhibit is taken in again even by a disposed case, by anybody the case assigns. */
  lemma ComesBack(h: Hash, s: State, u: string, name: string) returns (states: seq<State>, actions: seq<Action>)
    requires Inv(h, s) && LifeOf(s).Disposed?
    requires u in s.exhibits && C.StateOf(s.exhibits[u].events).Returned? && RoleOf(s.roles, name).Some?
    ensures Goes(h, states, actions) && states[0] == s && !AllGone(s.caseUid, states[|actions|].exhibits)
  {
    hide Inv, EvidenceUid, C.Accepted, Step;
    var who := Actor(name, RoleOf(s.roles, name).value);
    var attach, take := DoAttach(who, true, ""), DoTakeIn(who, s.exhibits[u].name, "a", false, "b", "");
    if s.attached.Some? {
      TakesBack(h, s, u, take);
      states, actions := [s, Step(h, s, take).value], [take];
    } else {
      AttachesAgain(h, s, attach);
      var s1 := Step(h, s, attach).value;
      TakesBack(h, s1, u, take);
      states, actions := [s, s1, Step(h, s1, take).value], [attach, take];
    }
  }

  lemma AttachesAgain(h: Hash, s: State, a: Action)
    requires Inv(h, s) && LifeOf(s).Disposed? && s.attached.None?
    requires a.DoAttach? && a.asserted && RoleOf(s.roles, a.who.name) == Some(a.who.role)
    ensures Step(h, s, a).Ok? && Step(h, s, a).value.attached.Some?
    ensures Step(h, s, a).value == s.(attached := Step(h, s, a).value.attached)
    ensures Inv(h, Step(h, s, a).value)
  {
    hide Inv, ReadsBack, Agree, L.LifecycleGood;
    assert L.LifecycleGood(s.lifecycle) by {
      LifecycleReads(h, s);
    }
    AttachKeeps(h, s, a.who, a.asserted, a.uid);
  }

  lemma LifecycleReads(h: Hash, s: State)
    requires Inv(h, s)
    ensures L.LifecycleGood(s.lifecycle)
  {
    hide Agree;
  }

  lemma TakesBack(h: Hash, s: State, u: string, a: Action)
    requires Inv(h, s) && s.attached.Some?
    requires u in s.exhibits && C.StateOf(s.exhibits[u].events).Returned?
    requires a.DoTakeIn? && a.exhibit == s.exhibits[u].name && a.digest != "" && a.discrepancy != "" && !a.described
    requires RoleOf(s.roles, a.who.name).Some?
    ensures Step(h, s, a).Ok? && !AllGone(s.caseUid, Step(h, s, a).value.exhibits)
  {
    hide EvidenceUid, C.Accepted, Agree, L.LifecycleGood, V.ReviewsGood, T.RetentionKept, E.ErasuresGood, RolesGood;
    assert ExhibitGood(h, s.caseUid, u, s.exhibits[u]);
    var y := Step(h, s, a).value.exhibits[u];
    assert C.StateOf(y.events).Held?;
    assert !Gone(y);
  }

  /** The exhibits of a disposed case stay as they are along steps that find none returned, or nobody assigned. */
  lemma {:induction false} StaysGone(h: Hash, states: seq<State>, actions: seq<Action>, i: nat)
    requires Goes(h, states, actions) && i < |states|
    requires var s := states[0];
             && LifeOf(s).Disposed? && OwnExhibits(s.caseUid, s.exhibits) && AllGone(s.caseUid, s.exhibits)
             && !(HasReturned(s) && HasAssigned(s))
    ensures states[i].exhibits == states[0].exhibits && states[i].caseUid == states[0].caseUid
    ensures Frozen(states[0], states[i])
  {
    hide Step, HasReturned, HasAssigned, AllGone, OwnExhibits;
    if i > 0 {
      StaysGone(h, states, actions, i - 1);
      var s := states[i - 1];
      assert Step(h, s, actions[i - 1]) == Ok(states[i]);
      SameOwners(states[0], s);
      GoneStep(h, s, actions[i - 1]);
      DisposedIsFinal(h, s, actions[i - 1]);
      StepGrows(h, s, actions[i - 1]);
    }
  }

  lemma SameOwners(s: State, t: State)
    requires t.exhibits == s.exhibits && t.roles == s.roles
    ensures HasReturned(s) == HasReturned(t) && HasAssigned(s) == HasAssigned(t)
  {
  }

  /** Whatever follows a state in which every exhibit is gone, they stay gone. */
  ghost predicate GoneForEver(h: Hash, s: State) {
    forall states: seq<State>, actions: seq<Action> | Goes(h, states, actions) && states[0] == s ::
      AllGone(s.caseUid, states[|actions|].exhibits)
  }

  /**
   * "Every exhibit is gone" holds at the disposing commit and not always after it: it stays true exactly if no
   * exhibit was returned (each was disposed of), or the case assigns nobody.
   */
  lemma GoneForEverIff(h: Hash, s: State)
    requires Inv(h, s) && LifeOf(s).Disposed? && AllGone(s.caseUid, s.exhibits)
    ensures GoneForEver(h, s) <==> !HasReturned(s) || !HasAssigned(s)
  {
    hide Step, Inv, AllGone;
    if HasReturned(s) && HasAssigned(s) {
      var u :| u in s.exhibits && C.StateOf(s.exhibits[u].events).Returned?;
      var n :| n in s.roles && RoleOf(s.roles, n).Some?;
      var states, actions := ComesBack(h, s, u, n);
    } else {
      OwnOf(h, s);
      forall states: seq<State>, actions: seq<Action> | Goes(h, states, actions) && states[0] == s
        ensures AllGone(s.caseUid, states[|actions|].exhibits)
      {
          StaysGone(h, states, actions, |actions|);
      }
    }
  }

  lemma OwnOf(h: Hash, s: State)
    requires Inv(h, s)
    ensures OwnExhibits(s.caseUid, s.exhibits)
  {
    hide Agree;
  }

  // ---------------------------------------------------------------------
  // Who holds an exhibit
  // ---------------------------------------------------------------------

  predicate AllTakersNamed(s: State) {
    forall u | u in s.exhibits :: C.TakersNamed(s.exhibits[u].events)
  }

  predicate AllHoldersNamed(s: State) {
    forall u | u in s.exhibits :: C.HolderNamed(s.exhibits[u].events)
  }

  /** A custody step appends one event, in the name of whoever makes it. */
  lemma CustodyInOwnName(h: Hash, s: State, a: Action)
    requires IsCustody(a) && Step(h, s, a).Ok?
    ensures var s', u := Step(h, s, a).value, EvidenceUid(h, s.caseUid, a.exhibit);
            var was := if u in s.exhibits then s.exhibits[u].events else [];
            && u in s'.exhibits && s'.exhibits == s.exhibits[u := s'.exhibits[u]]
            && |s'.exhibits[u].events| == |was| + 1 && s'.exhibits[u].events[..|was|] == was
            && s'.exhibits[u].events[|was|].actor == a.who.name
  {
    hide C.Accepted, EvidenceUid, Takes, NoHold, RoleOf;
  }

  lemma TakersStep(h: Hash, s: State, a: Action)
    requires AllTakersNamed(s) && Step(h, s, a).Ok? && (IsCustody(a) ==> a.who.name != "")
    ensures AllTakersNamed(Step(h, s, a).value)
  {
    hide Step, EvidenceUid, C.Takes;
    if IsCustody(a) {
      CustodyInOwnName(h, s, a);
      var s', u := Step(h, s, a).value, EvidenceUid(h, s.caseUid, a.exhibit);
      var was, now := if u in s.exhibits then s.exhibits[u].events else [], s'.exhibits[u].events;
      forall i | 0 <= i < |now| && C.Takes(now[i])
        ensures now[i].actor != ""
      {
        assert i < |was| ==> now[..|was|][i] == now[i];
      }
    } else {
      LedgerSteps(h, s, a);
    }
  }

  lemma HoldersNamed(h: Hash, s: State)
    requires Inv(h, s) && AllTakersNamed(s)
    ensures AllHoldersNamed(s)
  {
    hide C.Accepted, EvidenceUid, Agree, C.TakersNamed, C.HolderNamed, L.LifecycleGood, V.ReviewsGood, RolesGood;
    forall u | u in s.exhibits
      ensures C.HolderNamed(s.exhibits[u].events)
    {
      assert ExhibitGood(h, s.caseUid, u, s.exhibits[u]);
      C.HolderNamedIff(u, s.exhibits[u].digest, s.exhibits[u].events);
    }
  }

  // ---------------------------------------------------------------------
  // Holds
  // ---------------------------------------------------------------------

  predicate NewlyDisposed(s: State, s': State) {
    exists u :: u in s'.exhibits && C.StateOf(s'.exhibits[u].events).Disposed?
                && !(u in s.exhibits && C.StateOf(s.exhibits[u].events).Disposed?)
  }

  /** The step records an erasure, the disposal of an exhibit or the disposal of the case. */
  predicate Destroys(s: State, s': State) {
    s'.erasures != s.erasures || NewlyDisposed(s, s') || (LifeOf(s').Disposed? && !LifeOf(s).Disposed?)
  }

  lemma CustodyLeaves(h: Hash, s: State, a: Action)
    requires IsCustody(a) && Step(h, s, a).Ok?
    ensures var s', u := Step(h, s, a).value, EvidenceUid(h, s.caseUid, a.exhibit);
            && u in s'.exhibits && s'.exhibits == s.exhibits[u := s'.exhibits[u]]
            && C.StateOf(s'.exhibits[u].events) == if a.DoRelease? then C.InTransit else if a.DoReturn? then C.Returned
                                                   else if a.DoDispose? then C.Disposed else C.Held
    ensures a.DoDispose? ==> NoHold(s) && Disposer(a.who.role)
  {
    hide C.Accepted, EvidenceUid, Takes, NoHold, RoleOf;
  }

  /** Of the custody steps only a disposal disposes, and it asks for holds first. */
  lemma CustodyDestroys(h: Hash, s: State, a: Action)
    requires IsCustody(a) && Step(h, s, a).Ok? && NewlyDisposed(s, Step(h, s, a).value)
    ensures a.DoDispose? && NoHold(s) && Disposer(a.who.role)
  {
    hide Step, EvidenceUid, NoHold;
    CustodyLeaves(h, s, a);
  }

  /** Nothing is destroyed while a hold is in force, and every destruction is a case owner's or an administrator's. */
  lemma NothingDestroyedUnderHold(h: Hash, s: State, a: Action)
    requires Step(h, s, a).Ok? && Destroys(s, Step(h, s, a).value)
    ensures NoHold(s)
    ensures a.DoErase? || a.DoDispose? || a.DoTransition?
    ensures a.who.role == CaseOwner || a.who.role == Administrator
  {
    hide Step, NoHold;
    if IsCustody(a) {
      CustodySteps(h, s, a);
      CustodyDestroys(h, s, a);
    } else {
      LedgerSteps(h, s, a);
      assert !NewlyDisposed(s, Step(h, s, a).value);
      if LifeOf(Step(h, s, a).value).Disposed? && !LifeOf(s).Disposed? {
        DisposalCommit(h, s, a);
      }
    }
  }

  /** No erasure is recorded once every generation of the key is erased. */
  lemma NoErasureAfterKey(h: Hash, s: State, a: Action)
    requires Step(h, s, a).Ok? && E.KeyErased(s.erasures)
    ensures Step(h, s, a).value.erasures == s.erasures
  {
    hide Step;
    if IsCustody(a) {
      CustodySteps(h, s, a);
    } else {
      LedgerSteps(h, s, a);
    }
  }

  // ---------------------------------------------------------------------
  // Periods whose time cannot be read
  // ---------------------------------------------------------------------

  /** A period reads back exactly if its UTC year is one a text of four digits can say. */
  lemma SetReadsIff(s: State, until: int, uid: string, moveUid: string)
    requires SetRetention(s, until, uid, moveUid).Ok?
    ensures T.RetentionGood(s.caseUid, SetRetention(s, until, uid, moveUid).value.retention) <==> Times.Sayable(until)
    ensures T.RetentionKept(s.caseUid, SetRetention(s, until, uid, moveUid).value.retention)
    ensures Times.Sayable(until) ==> T.Period(SetRetention(s, until, uid, moveUid).value.retention) == Some(until)
  {
    hide Takes, T.Period, T.RetentionKept, T.RetentionGood, T.AllTimed, T.EventKept;
    hide Times.Parse, Times.Render, Times.Sayable;
    T.OneMore(s.retention, T.Event(uid, s.caseUid, Written(until)));
    T.GoodIsKeptAndTimed(s.caseUid, s.retention);
    Times.ReadsBackIff(until);
    T.RetentionAppend(s.caseUid, s.retention, T.Event(uid, s.caseUid, Written(until)));
  }

  /** There is a time retention_set takes and retentionRead never reads again. */
  lemma LateIsTakenAndNotRead(s: State, uid: string, moveUid: string)
    requires s.attached.Some? && Takes(s, L.Retain) && (LifeOf(s).Concluded? || LifeOf(s).Retained?)
    requires T.RetentionGood(s.caseUid, s.retention) && T.Period(s.retention) != Times.Given(Times.LATE)
    ensures Times.Given(Times.LATE).Some?
    ensures var r := SetRetention(s, Times.Given(Times.LATE).value, uid, moveUid);
            r.Ok? && !T.RetentionGood(s.caseUid, r.value.retention)
  {
    hide Takes, T.Period, T.RetentionGood, Times.Given, Times.Sayable, Written;
    Times.TakenButNotSayable();
    SetReadsIff(s, Times.Given(Times.LATE).value, uid, moveUid);
  }

  /** What a step makes of the retention chain. */
  lemma RetentionStep(h: Hash, s: State, a: Action)
    requires Step(h, s, a).Ok? && T.RetentionKept(s.caseUid, s.retention)
    ensures var s' := Step(h, s, a).value;
            && T.RetentionKept(s.caseUid, s'.retention)
            && (T.RetentionGood(s.caseUid, s'.retention) <==>
                  T.RetentionGood(s.caseUid, s.retention) && (a.DoSetRetention? ==> Times.Sayable(a.until)))
            && (!T.RetentionGood(s.caseUid, s.retention) ==> s'.retention == s.retention)
  {
    hide Step, Times.Sayable, T.RetentionKept, T.RetentionGood;
    if a.DoSetRetention? {
      SetIsStep(h, s, a);
      SetReadsIff(s, a.until, a.uid, a.moveUid);
    } else if a.DoHold? || a.DoLift? {
      HoldStep(h, s, a);
    } else {
      OtherKeepRetention(h, s, a);
    }
  }

  lemma SetIsStep(h: Hash, s: State, a: Action)
    requires a.DoSetRetention?
    ensures Step(h, s, a) == SetRetention(s, a.until, a.uid, a.moveUid)
    ensures Step(h, s, a).Ok? ==> T.RetentionGood(s.caseUid, s.retention)
  {
    hide Takes, T.Period, T.RetentionGood, Written;
  }

  lemma HoldStep(h: Hash, s: State, a: Action)
    requires (a.DoHold? || a.DoLift?) && Step(h, s, a).Ok?
    ensures T.RetentionKept(s.caseUid, Step(h, s, a).value.retention)
    ensures T.RetentionGood(s.caseUid, s.retention) && T.RetentionGood(s.caseUid, Step(h, s, a).value.retention)
  {
    hide Takes, T.HoldsInForce, T.RetentionKept, T.RetentionGood, T.Lifted, T.Placed;
    T.GoodIsKeptAndTimed(s.caseUid, s.retention);
    if a.DoHold? {
      T.RetentionAppend(s.caseUid, s.retention, T.Event(a.uid, s.caseUid, T.Hold));
    } else {
      T.HoldUids(s.retention);
      assert a.hold in T.Uids(T.HoldsInForce(s.retention));
      T.RetentionAppend(s.caseUid, s.retention, T.Event(a.uid, s.caseUid, T.Release(a.hold)));
    }
  }

  lemma OtherKeepRetention(h: Hash, s: State, a: Action)
    requires Step(h, s, a).Ok? && !a.DoSetRetention? && !a.DoHold? && !a.DoLift?
    ensures Step(h, s, a).value.retention == s.retention
  {
    hide L.LifecycleGood, E.ErasuresGood, E.Check, E.KeyErased, DisposalGrounds, Takes, RoleOf, NoHold, EvidenceUid;
    hide V.ReviewsGood, V.HasOpen, V.Find, C.Accepted;
  }

  /** In every run the retention chain is kept in order, and reads back exactly if every period set so far does. */
  lemma {:induction false} RetentionReadsIff(h: Hash, states: seq<State>, actions: seq<Action>, i: nat)
    requires Run(h, states, actions) && i < |states|
    ensures states[i].caseUid == states[0].caseUid && T.RetentionKept(states[0].caseUid, states[i].retention)
    ensures T.RetentionGood(states[0].caseUid, states[i].retention) <==>
            forall j | 0 <= j < i && actions[j].DoSetRetention? :: Times.Sayable(actions[j].until)
  {
    hide Step, Times.Sayable;
    if i > 0 {
      RetentionReadsIff(h, states, actions, i - 1);
      assert Step(h, states[i - 1], actions[i - 1]) == Ok(states[i]);
      StepGrows(h, states[i - 1], actions[i - 1]);
      RetentionStep(h, states[i - 1], actions[i - 1]);
    }
  }

  /** Of the first `i` calls, `j` is the last that set a period. */
  predicate LastSetCall(actions: seq<Action>, i: nat, j: nat)
    requires i <= |actions|
  {
    j < i && actions[j].DoSetRetention? && forall k | j < k < i :: !actions[k].DoSetRetention?
  }

  lemma PeriodStep(h: Hash, s: State, a: Action)
    requires Step(h, s, a).Ok?
    ensures a.DoSetRetention? && Times.Sayable(a.until) ==> T.Period(Step(h, s, a).value.retention) == Some(a.until)
    ensures !a.DoSetRetention? ==> T.Period(Step(h, s, a).value.retention) == T.Period(s.retention)
  {
    hide Step, Times.Sayable, T.Period;
    if a.DoSetRetention? {
      SetIsStep(h, s, a);
      SetReadsIff(s, a.until, a.uid, a.moveUid);
    } else if a.DoHold? || a.DoLift? {
      HoldLeavesPeriod(h, s, a);
    } else {
      OtherKeepRetention(h, s, a);
    }
  }

  lemma HoldLeavesPeriod(h: Hash, s: State, a: Action)
    requires (a.DoHold? || a.DoLift?) && Step(h, s, a).Ok?
    ensures T.Period(Step(h, s, a).value.retention) == T.Period(s.retention)
  {
    hide Takes, T.HoldsInForce, T.RetentionGood, T.Period;
    T.OneMore(s.retention, T.Event(a.uid, s.caseUid, if a.DoHold? then T.Hold else T.Release(a.hold)));
  }

  /** In every run, while the retention chain reads back, the period in force is the instant given to the last
      retention_set, and there is none before the first. */
  lemma {:induction false} PeriodIsLastSet(h: Hash, states: seq<State>, actions: seq<Action>, i: nat, j: nat)
    requires Run(h, states, actions) && i < |states| && T.RetentionGood(states[0].caseUid, states[i].retention)
    ensures LastSetCall(actions, i, j) ==> T.Period(states[i].retention) == Some(actions[j].until)
    ensures (forall k | 0 <= k < i :: !actions[k].DoSetRetention?) ==> T.Period(states[i].retention) == None
  {
    hide Step, Times.Sayable, T.RetentionGood, T.RetentionKept;
    if i > 0 {
      var s, a := states[i - 1], actions[i - 1];
      assert Step(h, s, a) == Ok(states[i]);
      RetentionReadsIff(h, states, actions, i - 1);
      RetentionReadsIff(h, states, actions, i);
      PeriodStep(h, s, a);
      PeriodIsLastSet(h, states, actions, i - 1, if j < i - 1 then j else 0);
    }
  }

  lemma {:induction false} SomeSetCall(actions: seq<Action>, i: nat) returns (j: nat)
    requires i <= |actions| && exists k :: 0 <= k < i && actions[k].DoSetRetention?
    ensures LastSetCall(actions, i, j)
  {
    if actions[i - 1].DoSetRetention? {
      j := i - 1;
    } else {
      j := SomeSetCall(actions, i - 1);
    }
  }

  /** A case is disposed of at or after the instant given to the last retention_set. */
  lemma DisposedAfterPeriod(h: Hash, states: seq<State>, actions: seq<Action>, i: nat) returns (j: nat)
    requires Run(h, states, actions) && i < |actions|
    requires LifeOf(states[i + 1]).Disposed? && !LifeOf(states[i]).Disposed?
    ensures LastSetCall(actions, i, j) && actions[i].DoTransition? && actions[j].until <= actions[i].now
  {
    hide Step, T.Period, T.RetentionGood, NoHold, AllGone;
    assert Step(h, states[i], actions[i]) == Ok(states[i + 1]);
    DisposalCommit(h, states[i], actions[i]);
    HoldsAreRead(states[i]);
    RetentionReadsIff(h, states, actions, i);
    PeriodIsLastSet(h, states, actions, i, 0);
    j := SomeSetCall(actions, i);
    PeriodIsLastSet(h, states, actions, i, j);
  }

  // ---------------------------------------------------------------------
  // Which call makes which move, and when exhibits come in
  // ---------------------------------------------------------------------

  /** The eight moves of a case and the builtin that makes each. */
  predicate MadeBy(a: Action, from: L.State, to: L.State) {
    || (a.DoAttach? && from == L.Unregistered && to == L.Registered)
    || (a.DoTransition? && from == L.Registered && to == L.Active)
    || (a.DoRequest? && a.kind == V.Case && from == L.Active && to == L.InReview)
    || (a.DoDecide? && a.decision == V.Approved && from == L.InReview && to == L.Concluded)
    || (a.DoDecide? && a.decision in {V.ChangesRequested, V.Rejected} && from == L.InReview && to == L.Active)
    || (a.DoTransition? && from == L.Concluded && to == L.Active)
    || (a.DoSetRetention? && from == L.Concluded && to == L.Retained)
    || (a.DoTransition? && from == L.Retained && to == L.Disposed)
  }

  /** The lifecycle is longer by the move the call makes, and the attached run is told. */
  predicate MovesBy(s: State, s': State, a: Action) {
    && |s'.lifecycle| == |s.lifecycle| + 1 && s'.lifecycle[..|s.lifecycle|] == s.lifecycle
    && MadeBy(a, LifeOf(s), LifeOf(s')) && Head(s'.lifecycle).from == LifeOf(s)
    && s'.attached == Some(Attachment(LifeOf(s'), Head(s'.lifecycle).uid))
  }

  lemma ReviewMoves(h: Hash, s: State, a: Action)
    requires IsReview(a) && Step(h, s, a).Ok? && Step(h, s, a).value.lifecycle != s.lifecycle
    ensures MovesBy(s, Step(h, s, a).value, a)
  {
    hide V.ReviewsGood, V.HasOpen, Takes, V.Find;
  }

  /** A step that moves the case makes one of its moves, and records it. */
  lemma MovesAre(h: Hash, s: State, a: Action)
    requires Step(h, s, a).Ok? && Step(h, s, a).value.lifecycle != s.lifecycle
    ensures MovesBy(s, Step(h, s, a).value, a)
  {
    hide L.LifecycleGood, T.RetentionGood, T.Period, DisposalGrounds, RoleOf, Takes, Written;
    hide RequestReview, DecideReview, TakeIn, HandOn, TakeOver, Assign, PlaceHold, LiftHold, RecordErasure;
    if IsCustody(a) {
      CustodySteps(h, s, a);
    } else if IsReview(a) {
      ReviewMoves(h, s, a);
    } else if !(a.DoAttach? || a.DoTransition? || a.DoSetRetention?) {
      OthersStay(h, s, a);
    }
  }

  lemma OthersStay(h: Hash, s: State, a: Action)
    requires a.DoDetach? || a.DoAssign? || a.DoHold? || a.DoLift? || a.DoErase?
    requires Step(h, s, a).Ok?
    ensures Step(h, s, a).value.lifecycle == s.lifecycle
  {
    hide Takes, T.RetentionGood, InForce, NoHold, E.ErasuresGood, E.Check, E.KeyErased, RoleOf;
  }

  /** A new exhibit comes in by evidence_intake, and not in review, concluded, retained or disposed. */
  lemma NewExhibits(h: Hash, s: State, a: Action, u: string)
    requires Step(h, s, a).Ok? && u in Step(h, s, a).value.exhibits && u !in s.exhibits
    ensures a.DoTakeIn? && RoleOf(s.roles, a.who.name).Some?
    ensures LifeOf(s) !in {L.InReview, L.Concluded, L.Retained, L.Disposed}
  {
    hide L.LifecycleGood, C.Accepted, EvidenceUid, NoHold, RoleOf;
    if !IsCustody(a) {
      LedgerSteps(h, s, a);
    }
  }

  /** Once the retention chain does not read back it never changes, nothing is erased, and neither the case nor any
      exhibit of it is disposed of. */
  lemma {:induction false} UnreadForGood(h: Hash, states: seq<State>, actions: seq<Action>, i: nat, j: nat)
    requires Run(h, states, actions) && i <= j < |states|
    requires !T.RetentionGood(states[0].caseUid, states[i].retention)
    ensures states[j].retention == states[i].retention && states[j].erasures == states[i].erasures
    ensures LifeOf(states[j]).Disposed? ==> LifeOf(states[i]).Disposed?
    ensures !NewlyDisposed(states[i], states[j])
  {
    hide Step, T.RetentionGood, T.RetentionKept, NoHold;
    if i < j {
      UnreadForGood(h, states, actions, i, j - 1);
      var s, s', a := states[j - 1], states[j], actions[j - 1];
      assert Step(h, s, a) == Ok(s');
      RetentionReadsIff(h, states, actions, j - 1);
      RetentionStep(h, s, a);
      assert !Destroys(s, s') by {
        if Destroys(s, s') {
          NothingDestroyedUnderHold(h, s, a);
          HoldsAreRead(s);
          assert false;
        }
      }
    }
  }

  lemma HoldsAreRead(s: State)
    requires NoHold(s)
    ensures T.RetentionGood(s.caseUid, s.retention)
  {
  }

  // ---------------------------------------------------------------------
  // Of every run, and every step of it
  // ---------------------------------------------------------------------

  /** One undecided request of the case exactly in review, a period exactly once retained, an independent approval
      from the conclusion on, and no hold, a period and an erased key for ever after a disposal. */
  predicate InOrder(h: Hash, s: State) {
    && Inv(h, s)
    && (LifeOf(s).InReview? <==> |OpenCaseRequests(s)| == 1)
    && (LifeOf(s).InReview? <==> OpenCaseRequests(s) != {})
    && (forall k | k in OpenCaseRequests(s) :: s.requests[k].uid == Head(s.lifecycle).reviewUid)
    && (T.PeriodSet(s.retention) <==> LifeOf(s).Retained? || LifeOf(s).Disposed?)
    && (AfterConclusion(LifeOf(s)) ==>
          V.LatestCase(s.requests).Some?
          && ApprovedByAnother(s.decisions, s.requests[V.LatestCase(s.requests).value]))
    && (LifeOf(s).Disposed? ==>
          T.HoldsInForce(s.retention) == [] && T.Period(s.retention).Some? && E.KeyErased(s.erasures))
  }

  lemma InvInOrder(h: Hash, s: State)
    requires Inv(h, s)
    ensures InOrder(h, s)
  {
    hide ReadsBack, OpenCaseRequests, T.HoldsInForce, T.Period, T.PeriodSet, T.AllTimed;
    InReviewIff(h, s);
    PeriodIff(h, s);
    if AfterConclusion(LifeOf(s)) {
      ConclusionWasReviewed(h, s);
    }
    if LifeOf(s).Disposed? {
      DisposedMeans(h, s);
    }
  }

  /** At no step of any run is anything destroyed under a hold, or an erasure recorded once the key is erased, and only a
      case owner or an administrator destroys; a step that moves the case makes one of its moves; no new exhibit comes in
      once the case is in review, concluded, retained or disposed; and the step that disposes of the case is made at or
      after the instant given to the last retention_set, with every exhibit gone and the key erased. */
  lemma EveryStep(h: Hash, states: seq<State>, actions: seq<Action>, i: nat)
    requires Run(h, states, actions) && i < |actions|
    ensures var s, s', a := states[i], states[i + 1], actions[i];
            && Grows(s, s')
            && (Destroys(s, s') ==>
                  && NoHold(s) && (a.DoErase? || a.DoDispose? || a.DoTransition?)
                  && (a.who.role == CaseOwner || a.who.role == Administrator))
            && (E.KeyErased(s.erasures) ==> s'.erasures == s.erasures)
            && (s'.lifecycle != s.lifecycle ==> MadeBy(a, LifeOf(s), LifeOf(s')))
            && (forall u | u in s'.exhibits && u !in s.exhibits ::
                  a.DoTakeIn? && LifeOf(s) !in {L.InReview, L.Concluded, L.Retained, L.Disposed})
            && (LifeOf(s').Disposed? && !LifeOf(s).Disposed? ==>
                  && a.DoTransition? && AllGone(s.caseUid, s.exhibits) && E.KeyErased(s.erasures)
                  && exists j: nat :: LastSetCall(actions, i, j) && actions[j].until <= a.now)
  {
    hide Step, Grows, Destroys, NoHold, AllGone, MadeBy, LifeOf, LastSetCall;
    var s, s', a := states[i], states[i + 1], actions[i];
    assert Step(h, s, a) == Ok(s');
    StepGrows(h, s, a);
    if Destroys(s, s') {
      NothingDestroyedUnderHold(h, s, a);
    }
    if E.KeyErased(s.erasures) {
      NoErasureAfterKey(h, s, a);
    }
    if s'.lifecycle != s.lifecycle {
      MovesAre(h, s, a);
    }
    forall u | u in s'.exhibits && u !in s.exhibits
      ensures a.DoTakeIn? && LifeOf(s) !in {L.InReview, L.Concluded, L.Retained, L.Disposed}
    {
      NewExhibits(h, s, a, u);
    }
    if LifeOf(s').Disposed? && !LifeOf(s).Disposed? {
      DisposalCommit(h, s, a);
      var j := DisposedAfterPeriod(h, states, actions, i);
    }
  }
}
