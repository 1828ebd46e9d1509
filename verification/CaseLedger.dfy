// The case in its ledger: every chain of the case and the run attached to it,
// and each builtin as one atomic step. Both locks are held over a step, and a
// step that refuses, or whose commit fails, changes nothing.
module CaseLedger {
  import opened Common
  import opened Digest
  import Times
  import L = CaseLifecycle
  import V = CaseReview
  import T = CaseRetention
  import E = CaseErasure
  import C = CaseEvidence

  /** What this run read of the case it is attached to. */
  datatype Attachment = Attachment(state: L.State, head: string)

  /** A role assigned, or the end of an assignment. */
  type Assignment = Option<Role>

  datatype State = State(caseUid: string, attached: Option<Attachment>, lifecycle: seq<L.Move>,
                         roles: map<string, seq<Assignment>>, requests: seq<V.Request>, decisions: V.Decisions,
                         retention: seq<T.Event>, erasures: seq<E.Event>, exhibits: map<string, C.Exhibit>)

  function Initial(caseUid: string): State {
    State(caseUid, None, [], map[], [], map[], [], [], map[])
  }

  predicate Disposer(role: Role) {
    role.CaseOwner? || role.Administrator?
  }

  function LifeOf(s: State): L.State {
    L.StateOf(s.lifecycle)
  }

  function Head(lifecycle: seq<L.Move>): L.Move {
    if lifecycle == [] then L.Move("", L.Unregistered, L.Unregistered, "", "", "") else lifecycle[|lifecycle| - 1]
  }

  /** caseLedgerStateRefusal: the lifecycle reads back and its state takes the action. */
  predicate Takes(s: State, action: L.Action) {
    L.LifecycleGood(s.lifecycle) && !L.Blocks(LifeOf(s), action)
  }

  /** lifecycleFor, and the attached run's copy of the state after the commit. */
  function Moved(s: State, m: L.Move): State {
    s.(lifecycle := s.lifecycle + [m], attached := Some(Attachment(m.to, m.uid)))
  }

  // ---------------------------------------------------------------------
  // case_attach, case_transition and case_assign
  // ---------------------------------------------------------------------

  function RoleOf(roles: map<string, seq<Assignment>>, name: string): Assignment {
    if name in roles && roles[name] != [] then roles[name][|roles[name]| - 1] else None
  }

  function Assigned(roles: map<string, seq<Assignment>>, name: string, role: Assignment): map<string, seq<Assignment>> {
    roles[name := (if name in roles then roles[name] else []) + [role]]
  }

  /** `asserted` says that whoever opened the ledger asserted a role. */
  function Attach(s: State, who: Actor, asserted: bool, uid: string): Outcome<State> {
    if s.attached.Some? || !asserted || !L.LifecycleGood(s.lifecycle) then Refused
    else if s.lifecycle == [] then
      if s.roles != map[] then Refused
      else Ok(Moved(s, L.Move(uid, L.Unregistered, L.Registered, "", "", ""))
              .(roles := Assigned(s.roles, who.name, Some(who.role))))
    else if RoleOf(s.roles, who.name) != Some(who.role) then Refused
    else Ok(s.(attached := Some(Attachment(LifeOf(s), Head(s.lifecycle).uid))))
  }

  /** The run ends, or its ledger handle is closed. */
  function Detach(s: State): Outcome<State> {
    Ok(s.(attached := None))
  }

  predicate ExhibitGood(h: Hash, caseUid: string, uid: string, x: C.Exhibit) {
    uid == EvidenceUid(h, caseUid, x.name) && C.Accepted(uid, x.digest, x.events)
  }

  /** evidenceReadAll of one case: every exhibit under its own uid, with a chain that reads back. */
  predicate ExhibitsGood(h: Hash, caseUid: string, exhibits: map<string, C.Exhibit>) {
    forall u | u in exhibits && exhibits[u].caseUid == caseUid :: ExhibitGood(h, caseUid, u, exhibits[u])
  }

  function EvidenceUid(h: Hash, caseUid: string, exhibit: string): string {
    Sum(h, "mutant-evidence-v1|" + caseUid + "|" + exhibit)
  }

  predicate Gone(x: C.Exhibit) {
    var state := C.StateOf(x.events);
    state.Returned? || state.Disposed?
  }

  predicate AllGone(caseUid: string, exhibits: map<string, C.Exhibit>) {
    forall u | u in exhibits && exhibits[u].caseUid == caseUid :: Gone(exhibits[u])
  }

  predicate Lapsed(retention: seq<T.Event>, now: int) {
    T.Period(retention).Some? && T.Period(retention).value <= now
  }

  /** caseDisposalRefusal: the erasure a disposal rests on, when the ledger shows everything it needs. */
  function DisposalGrounds(h: Hash, s: State, now: int): Outcome<string> {
    if || !T.RetentionGood(s.caseUid, s.retention)
       || !ExhibitsGood(h, s.caseUid, s.exhibits)
       || !E.ErasuresGood(s.caseUid, s.erasures)
    then Refused
    else match E.KeyErasure(s.erasures)
      case None => Refused
      case Some(k) =>
        if T.HoldsInForce(s.retention) == [] && Lapsed(s.retention, now) && AllGone(s.caseUid, s.exhibits)
        then Ok(s.erasures[k].uid) else Refused
  }

  function Transition(h: Hash, s: State, who: Actor, to: L.State, now: int, uid: string): Outcome<State> {
    if s.attached.None? || !L.LifecycleGood(s.lifecycle) then Refused
    else if L.MoveOf(LifeOf(s), to) != Some(L.CaseTransition) then Refused
    else if to != L.Disposed then Ok(Moved(s, L.Move(uid, LifeOf(s), to, "", "", "")))
    else if !Disposer(who.role) then Refused
    else match DisposalGrounds(h, s, now)
      case Refused => Refused
      case Ok(erasure) => Ok(Moved(s, L.Move(uid, LifeOf(s), to, "", "", erasure)))
  }

  function Assign(s: State, subject: string, role: Assignment): Outcome<State> {
    if s.attached.None? || !Takes(s, L.Assign) || RoleOf(s.roles, subject) == role then Refused
    else Ok(s.(roles := Assigned(s.roles, subject, role)))
  }

  // ---------------------------------------------------------------------
  // review_request and review_decide
  // ---------------------------------------------------------------------

  /** `found` says the record or redaction version is the case's; `manifestHead` is the lifecycle head the manifest of a case names. */
  function RequestReview(s: State, who: Actor, kind: V.SubjectKind, key: string, found: bool, manifestHead: string,
                         uid: string, moveUid: string): Outcome<State> {
    if s.attached.None? || kind.OtherKind? || !Takes(s, L.Review) then Refused
    else if kind == V.Case && (LifeOf(s) != L.Active || manifestHead != Head(s.lifecycle).uid) then Refused
    else if kind != V.Case && !found then Refused
    else if !V.ReviewsGood(s.caseUid, s.requests, s.decisions) then Refused
    else
      var subject := if kind == V.Case then s.caseUid else key;
      if V.HasOpen(s.requests, s.decisions, kind, subject) then Refused
      else
        var more := s.(requests := s.requests + [V.Request(uid, s.caseUid, kind, subject, who.name)]);
        if kind == V.Case then Ok(Moved(more, L.Move(moveUid, L.Active, L.InReview, uid, "", ""))) else Ok(more)
  }

  /** The request a decision answers, when it may be decided so by whoever decides it. */
  function Decidable(s: State, who: Actor, requestUid: string, decision: V.Decision): Outcome<V.Request> {
    if s.attached.None? || decision.OtherDecision? || !who.role.Reviewer? || !Takes(s, L.Review) then Refused
    else if !V.ReviewsGood(s.caseUid, s.requests, s.decisions) then Refused
    else match V.Find(s.requests, requestUid)
      case None => Refused
      case Some(i) =>
        var r := s.requests[i];
        if !V.Undecided(s.decisions, r) || r.actor == who.name then Refused
        else if r.kind == V.Case && (LifeOf(s) != L.InReview || Head(s.lifecycle).reviewUid != requestUid) then Refused
        else Ok(r)
  }

  function DecideReview(s: State, who: Actor, requestUid: string, decision: V.Decision, moveUid: string): Outcome<State> {
    match Decidable(s, who, requestUid, decision)
    case Refused => Refused
    case Ok(r) =>
      var d := V.Decided(requestUid, s.caseUid, decision, who.name, who.role);
      var more := s.(decisions := s.decisions[requestUid := [d]]);
      if r.kind != V.Case then Ok(more)
      else
        var to := if decision == V.Approved then L.Concluded else L.Active;
        Ok(Moved(more, L.Move(moveUid, L.InReview, to, requestUid, "", "")))
  }

  // ---------------------------------------------------------------------
  // retention_set, retention_hold and retention_release
  // ---------------------------------------------------------------------

  /** What is written of a period, as the reader takes it. */
  function Written(until: int): T.Kind {
    T.Set(Times.Parse(Times.Render(until)))
  }

  function SetRetention(s: State, until: int, uid: string, moveUid: string): Outcome<State> {
    if s.attached.None? || !Takes(s, L.Retain) || !(LifeOf(s).Concluded? || LifeOf(s).Retained?) then Refused
    else if !T.RetentionGood(s.caseUid, s.retention) || T.Period(s.retention) == Some(until) then Refused
    else
      var more := s.(retention := s.retention + [T.Event(uid, s.caseUid, Written(until))]);
      if LifeOf(s).Concluded? then Ok(Moved(more, L.Move(moveUid, L.Concluded, L.Retained, "", uid, ""))) else Ok(more)
  }

  function PlaceHold(s: State, uid: string): Outcome<State> {
    if s.attached.None? || !Takes(s, L.Retain) || !T.RetentionGood(s.caseUid, s.retention) then Refused
    else Ok(s.(retention := s.retention + [T.Event(uid, s.caseUid, T.Hold)]))
  }

  predicate InForce(retention: seq<T.Event>, hold: string) {
    exists i :: 0 <= i < |T.HoldsInForce(retention)| && T.HoldsInForce(retention)[i].uid == hold
  }

  function LiftHold(s: State, hold: string, uid: string): Outcome<State> {
    if s.attached.None? || !Takes(s, L.Retain) || !T.RetentionGood(s.caseUid, s.retention) then Refused
    else if !InForce(s.retention, hold) then Refused
    else Ok(s.(retention := s.retention + [T.Event(uid, s.caseUid, T.Release(hold))]))
  }

  // ---------------------------------------------------------------------
  // record_erase and case_key_erase, as what they record
  // ---------------------------------------------------------------------

  /** What every destruction asks: retentionHoldRefusal. */
  predicate NoHold(s: State) {
    T.RetentionGood(s.caseUid, s.retention) && T.HoldsInForce(s.retention) == []
  }

  /** `erased` names a record by the uid its header carries, or the generations a key file holds. */
  function RecordErasure(s: State, who: Actor, erased: E.Erased, uid: string): Outcome<State> {
    var e := E.Event(uid, s.caseUid, erased);
    if s.attached.None? || !Disposer(who.role) || !Takes(s, L.Erase) || !NoHold(s) then Refused
    else if !E.ErasuresGood(s.caseUid, s.erasures) || E.KeyErased(s.erasures) || !E.Check(s.caseUid, e) then Refused
    else Ok(s.(erasures := s.erasures + [e]))
  }

  // ---------------------------------------------------------------------
  // evidence_intake, _release, _accept, _return and _dispose
  // ---------------------------------------------------------------------

  /** evidenceRead: the exhibit by that name, a refusal of one that does not read back, or none. */
  function Exhibit(h: Hash, s: State, exhibit: string): Outcome<Option<C.Exhibit>> {
    var uid := EvidenceUid(h, s.caseUid, exhibit);
    if uid !in s.exhibits then Ok(None)
    else
      var x := s.exhibits[uid];
      if x.caseUid != s.caseUid || x.name != exhibit || !C.Accepted(uid, x.digest, x.events) then Refused
      else Ok(Some(x))
  }

  /** evidenceAppend. */
  function WithCustody(h: Hash, s: State, x: C.Exhibit, e: C.Event): State {
    var uid := EvidenceUid(h, s.caseUid, x.name);
    s.(exhibits := s.exhibits[uid := x.(events := x.events + [e])])
  }

  function TakeIn(h: Hash, s: State, who: Actor, exhibit: string, digest: string, described: bool, discrepancy: string,
                  uid: string): Outcome<State> {
    var evidence := EvidenceUid(h, s.caseUid, exhibit);
    if s.attached.None? || digest == "" || RoleOf(s.roles, who.name).None? then Refused
    else match Exhibit(h, s, exhibit)
      case Refused => Refused
      case Ok(Some(x)) =>
        if !C.StateOf(x.events).Returned? || described || (digest != x.digest && discrepancy == "") then Refused
        else Ok(WithCustody(h, s, x, C.Custody(uid, C.Reintake, evidence, who.name, "", digest,
                                               C.Comparison(digest, x.digest), discrepancy)))
      case Ok(None) =>
        if !Takes(s, L.Intake) || discrepancy != "" then Refused
        else
          var e := C.Custody(uid, C.Intake, evidence, who.name, "", digest, C.NotCompared, "");
          Ok(s.(exhibits := s.exhibits[evidence := C.Exhibit(exhibit, s.caseUid, digest, [e])]))
  }

  /** evidenceHeldBy. */
  function HeldBy(h: Hash, s: State, who: Actor, exhibit: string): Outcome<C.Exhibit> {
    match Exhibit(h, s, exhibit)
    case Ok(Some(x)) => if C.StateOf(x.events).Held? && C.HolderOf(x.events) == who.name then Ok(x) else Refused
    case _ => Refused
  }

  /** A release, a return or a disposal by the holder. */
  function HandOn(h: Hash, s: State, who: Actor, exhibit: string, kind: C.Kind, recipient: string, uid: string): Outcome<State>
    requires kind.Release? || kind.Return? || kind.Dispose?
  {
    if s.attached.None? || (kind.Dispose? && !Disposer(who.role)) then Refused
    else match HeldBy(h, s, who, exhibit)
      case Refused => Refused
      case Ok(x) =>
        if kind.Release? && (recipient == who.name || RoleOf(s.roles, recipient).None?) then Refused
        else if kind.Dispose? && !NoHold(s) then Refused
        else
          var evidence := EvidenceUid(h, s.caseUid, exhibit);
          Ok(WithCustody(h, s, x, C.Custody(uid, kind, evidence, who.name, if kind.Dispose? then "" else recipient,
                                            "", C.NotCompared, "")))
  }

  function TakeOver(h: Hash, s: State, who: Actor, exhibit: string, digest: string, discrepancy: string,
                    uid: string): Outcome<State> {
    if s.attached.None? || digest == "" then Refused
    else match Exhibit(h, s, exhibit)
      case Refused => Refused
      case Ok(None) => Refused
      case Ok(Some(x)) =>
        if !C.StateOf(x.events).InTransit? || C.RecipientOf(x.events) != who.name then Refused
        else if digest != x.digest && discrepancy == "" then Refused
        else Ok(WithCustody(h, s, x, C.Custody(uid, C.Accept, EvidenceUid(h, s.caseUid, exhibit), who.name, "", digest,
                                               C.Comparison(digest, x.digest), discrepancy)))
  }

  // ---------------------------------------------------------------------
  // Steps
  // ---------------------------------------------------------------------

  datatype Action =
    | DoAttach(who: Actor, asserted: bool, uid: string)
    | DoDetach
    | DoTransition(who: Actor, to: L.State, now: int, uid: string)
    | DoAssign(subject: string, role: Assignment)
    | DoRequest(who: Actor, kind: V.SubjectKind, key: string, found: bool, manifestHead: string, uid: string,
                moveUid: string)
    | DoDecide(who: Actor, requestUid: string, decision: V.Decision, moveUid: string)
    | DoSetRetention(until: int, uid: string, moveUid: string)
    | DoHold(uid: string)
    | DoLift(hold: string, uid: string)
    | DoErase(who: Actor, erased: E.Erased, uid: string)
    | DoTakeIn(who: Actor, exhibit: string, digest: string, described: bool, discrepancy: string, uid: string)
    | DoRelease(who: Actor, exhibit: string, recipient: string, uid: string)
    | DoAccept(who: Actor, exhibit: string, digest: string, discrepancy: string, uid: string)
    | DoReturn(who: Actor, exhibit: string, recipient: string, uid: string)
    | DoDispose(who: Actor, exhibit: string, uid: string)

  function Step(h: Hash, s: State, a: Action): Outcome<State> {
    match a
    case DoAttach(who, asserted, uid) => Attach(s, who, asserted, uid)
    case DoDetach => Detach(s)
    case DoTransition(who, to, now, uid) => Transition(h, s, who, to, now, uid)
    case DoAssign(subject, role) => Assign(s, subject, role)
    case DoRequest(who, kind, key, found, manifestHead, uid, moveUid) =>
      RequestReview(s, who, kind, key, found, manifestHead, uid, moveUid)
    case DoDecide(who, requestUid, decision, moveUid) => DecideReview(s, who, requestUid, decision, moveUid)
    case DoSetRetention(until, uid, moveUid) => SetRetention(s, until, uid, moveUid)
    case DoHold(uid) => PlaceHold(s, uid)
    case DoLift(hold, uid) => LiftHold(s, hold, uid)
    case DoErase(who, erased, uid) => RecordErasure(s, who, erased, uid)
    case DoTakeIn(who, exhibit, digest, described, discrepancy, uid) =>
      TakeIn(h, s, who, exhibit, digest, described, discrepancy, uid)
    case DoRelease(who, exhibit, recipient, uid) => HandOn(h, s, who, exhibit, C.Release, recipient, uid)
    case DoAccept(who, exhibit, digest, discrepancy, uid) => TakeOver(h, s, who, exhibit, digest, discrepancy, uid)
    case DoReturn(who, exhibit, recipient, uid) => HandOn(h, s, who, exhibit, C.Return, recipient, uid)
    case DoDispose(who, exhibit, uid) => HandOn(h, s, who, exhibit, C.Dispose, "", uid)
  }
}
