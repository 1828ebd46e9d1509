// The case as its ledger holds it: seven kinds of hash chain of property maps.
// Each builtin reads them, decides as CaseLedger says, and appends events whose
// uids it computes from everything they record and the chain before them.
module CaseBooks {
  import opened Common
  import opened Text
  import opened Digest
  import opened ChainUid
  import opened CaseChain
  import opened CaseProps
  import opened CaseLedger
  import L = CaseLifecycle
  import V = CaseReview
  import T = CaseRetention
  import E = CaseErasure
  import C = CaseEvidence

  /** An EvidenceFile node and the events of its custody. */
  datatype Item = Item(name: string, caseUid: string, digest: string, events: seq<Event>)

  datatype Ledger = Ledger(caseUid: string, attached: Option<Attachment>, lifecycle: seq<Event>,
                           roles: map<string, seq<Event>>, requests: seq<Event>, decisions: map<string, seq<Event>>,
                           retention: seq<Event>, erasures: seq<Event>, exhibits: map<string, Item>)

  function Empty(caseUid: string): Ledger {
    Ledger(caseUid, None, [], map[], [], map[], [], [], map[])
  }

  // ---------------------------------------------------------------------
  // The chains of a case
  // ---------------------------------------------------------------------

  datatype Chain = Lifecycle | Roles(subject: string) | Requests | Decisions(request: string) | Retention | Erasures
                 | Custody(evidence: string)

  function PrefixOf(c: Chain): string {
    match c
    case Lifecycle => "lifecycle"
    case Roles(_) => "assignment"
    case Requests => "review"
    case Decisions(_) => "decision"
    case Retention => "retention"
    case Erasures => "erasure"
    case Custody(_) => "custody"
  }

  /** The chain an event says it is in. */
  function NameOf(h: Hash, caseUid: string, c: Chain): string {
    match c
    case Roles(subject) => RoleChain(h, caseUid, subject)
    case Decisions(request) => request
    case Custody(evidence) => evidence
    case _ => caseUid
  }

  function LineAt(l: Ledger, c: Chain): seq<Event> {
    match c
    case Lifecycle => l.lifecycle
    case Roles(n) => if n in l.roles then l.roles[n] else []
    case Requests => l.requests
    case Decisions(u) => if u in l.decisions then l.decisions[u] else []
    case Retention => l.retention
    case Erasures => l.erasures
    case Custody(u) => if u in l.exhibits then l.exhibits[u].events else []
  }

  /** chainAppend, in one of the chains. */
  ghost function Next(h: Hash, l: Ledger, c: Chain, fields: Fields, id: nat): Event {
    Appended(h, PrefixOf(c), NameOf(h, l.caseUid, c), LineAt(l, c), Prefixed(PrefixOf(c), fields), id)
  }

  // ---------------------------------------------------------------------
  // What the readers make of them
  // ---------------------------------------------------------------------

  function MovesOf(line: seq<Event>): (r: seq<L.Move>)
    ensures |r| == |line| && forall i | 0 <= i < |line| :: r[i] == MoveFrom(line[i])
  {
    seq(|line|, i requires 0 <= i < |line| => MoveFrom(line[i]))
  }

  function RolesOf(line: seq<Event>): (r: seq<Assignment>)
    ensures |r| == |line| && forall i | 0 <= i < |line| :: r[i] == RoleFrom(line[i])
  {
    seq(|line|, i requires 0 <= i < |line| => RoleFrom(line[i]))
  }

  function RequestsOf(line: seq<Event>): (r: seq<V.Request>)
    ensures |r| == |line| && forall i | 0 <= i < |line| :: r[i] == RequestFrom(line[i])
  {
    seq(|line|, i requires 0 <= i < |line| => RequestFrom(line[i]))
  }

  function DecisionsOf(line: seq<Event>): (r: seq<V.Decided>)
    ensures |r| == |line| && forall i | 0 <= i < |line| :: r[i] == DecisionFrom(line[i])
  {
    seq(|line|, i requires 0 <= i < |line| => DecisionFrom(line[i]))
  }

  function RetentionOf(line: seq<Event>): (r: seq<T.Event>)
    ensures |r| == |line| && forall i | 0 <= i < |line| :: r[i] == RetentionFrom(line[i])
  {
    seq(|line|, i requires 0 <= i < |line| => RetentionFrom(line[i]))
  }

  function ErasuresOf(line: seq<Event>): (r: seq<E.Event>)
    ensures |r| == |line| && forall i | 0 <= i < |line| :: r[i] == ErasureFrom(line[i])
  {
    seq(|line|, i requires 0 <= i < |line| => ErasureFrom(line[i]))
  }

  function CustodyOf(line: seq<Event>): (r: seq<C.Event>)
    ensures |r| == |line| && forall i | 0 <= i < |line| :: r[i] == CustodyFrom(line[i])
  {
    seq(|line|, i requires 0 <= i < |line| => CustodyFrom(line[i]))
  }

  function ExhibitOf(x: Item): C.Exhibit {
    C.Exhibit(x.name, x.caseUid, x.digest, CustodyOf(x.events))
  }

  /** The case as its readers see it. */
  function View(l: Ledger): State {
    State(l.caseUid, l.attached, MovesOf(l.lifecycle), map n | n in l.roles :: RolesOf(l.roles[n]),
          RequestsOf(l.requests), map u | u in l.decisions :: DecisionsOf(l.decisions[u]), RetentionOf(l.retention),
          ErasuresOf(l.erasures), map u | u in l.exhibits :: ExhibitOf(l.exhibits[u]))
  }

  lemma ViewOfEmpty(caseUid: string)
    ensures View(Empty(caseUid)) == Initial(caseUid)
  {
  }

  // ---------------------------------------------------------------------
  // The builtins
  // ---------------------------------------------------------------------

  /** What an event carries that no reader asks for, and the node it becomes. */
  datatype Note = Note(fields: Fields, id: nat)

  /** A call: its uids are computed and not given, so those in the action take no part. */
  datatype Call = Call(action: Action, own: Note, move: Note)

  ghost function LifeEvent(h: Hash, l: Ledger, m: L.Move, note: Note): Event {
    Next(h, l, Lifecycle, MoveFields(m, note.fields), note.id)
  }

  ghost function RoleEvent(h: Hash, l: Ledger, name: string, role: Assignment, note: Note): Event {
    Next(h, l, Roles(name), RoleFields(l.caseUid, name, role, note.fields), note.id)
  }

  function WithRole(l: Ledger, name: string, e: Event): Ledger {
    l.(roles := l.roles[name := LineAt(l, Roles(name)) + [e]])
  }

  function WithMove(l: Ledger, e: Event, attached: Option<Attachment>): Ledger {
    l.(lifecycle := l.lifecycle + [e], attached := attached)
  }

  const REGISTERS := L.Move("", L.Unregistered, L.Registered, "", "", "")

  ghost function WriteAttach(h: Hash, l: Ledger, who: Actor, asserted: bool, own: Note, move: Note): Outcome<Ledger> {
    var e := LifeEvent(h, l, REGISTERS, move);
    match Attach(View(l), who, asserted, UidOf("lifecycle", e))
    case Refused => Refused
    case Ok(s) =>
      if l.lifecycle != [] then Ok(l.(attached := s.attached))
      else Ok(WithMove(WithRole(l, who.name, RoleEvent(h, l, who.name, Some(who.role), own)), e, s.attached))
  }

  /** The move a transition makes, its uid left open. */
  ghost function MoveTo(h: Hash, s: State, to: L.State, now: int): L.Move {
    var grounds := DisposalGrounds(h, s, now);
    L.Move("", LifeOf(s), to, "", "", if to == L.Disposed && grounds.Ok? then grounds.value else "")
  }

  ghost function WriteTransition(h: Hash, l: Ledger, who: Actor, to: L.State, now: int, move: Note): Outcome<Ledger> {
    var e := LifeEvent(h, l, MoveTo(h, View(l), to, now), move);
    match Transition(h, View(l), who, to, now, UidOf("lifecycle", e))
    case Refused => Refused
    case Ok(s) => Ok(WithMove(l, e, s.attached))
  }

  ghost function WriteAssign(h: Hash, l: Ledger, subject: string, role: Assignment, own: Note): Outcome<Ledger> {
    match Assign(View(l), subject, role)
    case Refused => Refused
    case Ok(_) => Ok(WithRole(l, subject, RoleEvent(h, l, subject, role, own)))
  }

  function Asked(l: Ledger, who: Actor, kind: V.SubjectKind, key: string): V.Request {
    V.Request("", l.caseUid, kind, if kind == V.Case then l.caseUid else key, who.name)
  }

  ghost function RequestEvent(h: Hash, l: Ledger, who: Actor, kind: V.SubjectKind, key: string, own: Note): Event {
    Next(h, l, Requests, RequestFields(Asked(l, who, kind, key), own.fields), own.id)
  }

  ghost function WriteRequest(h: Hash, l: Ledger, who: Actor, kind: V.SubjectKind, key: string, found: bool,
                              manifestHead: string, own: Note, move: Note): Outcome<Ledger> {
    var e := RequestEvent(h, l, who, kind, key, own);
    var uid := UidOf("review", e);
    var m := LifeEvent(h, l, L.Move("", L.Active, L.InReview, uid, "", ""), move);
    match RequestReview(View(l), who, kind, key, found, manifestHead, uid, UidOf("lifecycle", m))
    case Refused => Refused
    case Ok(s) =>
      var more := l.(requests := l.requests + [e]);
      if kind == V.Case then Ok(WithMove(more, m, s.attached)) else Ok(more)
  }

  function DecidedMove(request: string, decision: V.Decision): L.Move {
    L.Move("", L.InReview, if decision == V.Approved then L.Concluded else L.Active, request, "", "")
  }

  ghost function WriteDecide(h: Hash, l: Ledger, who: Actor, requestUid: string, decision: V.Decision, own: Note,
                             move: Note): Outcome<Ledger> {
    var d := V.Decided(requestUid, l.caseUid, decision, who.name, who.role);
    var e := Next(h, l, Decisions(requestUid), DecisionFields(d, own.fields), own.id);
    var m := LifeEvent(h, l, DecidedMove(requestUid, decision), move);
    match Decidable(View(l), who, requestUid, decision)
    case Refused => Refused
    case Ok(r) =>
      var more := l.(decisions := l.decisions[requestUid := LineAt(l, Decisions(requestUid)) + [e]]);
      if r.kind != V.Case then Ok(more)
      else Ok(WithMove(more, m, Some(Attachment(DecidedMove(requestUid, decision).to, UidOf("lifecycle", m)))))
  }

  ghost function KeepingEvent(h: Hash, l: Ledger, k: Keeping, own: Note): Event {
    Next(h, l, Retention, RetentionFields(l.caseUid, k, own.fields), own.id)
  }

  ghost function WriteRetention(h: Hash, l: Ledger, until: int, own: Note, move: Note): Outcome<Ledger> {
    var e := KeepingEvent(h, l, Until(until), own);
    var uid := UidOf("retention", e);
    var m := LifeEvent(h, l, L.Move("", L.Concluded, L.Retained, "", uid, ""), move);
    match SetRetention(View(l), until, uid, UidOf("lifecycle", m))
    case Refused => Refused
    case Ok(s) =>
      var more := l.(retention := l.retention + [e]);
      if LifeOf(View(l)).Concluded? then Ok(WithMove(more, m, s.attached)) else Ok(more)
  }

  ghost function WriteHold(h: Hash, l: Ledger, own: Note): Outcome<Ledger> {
    var e := KeepingEvent(h, l, Holding, own);
    match PlaceHold(View(l), UidOf("retention", e))
    case Refused => Refused
    case Ok(_) => Ok(l.(retention := l.retention + [e]))
  }

  ghost function WriteLift(h: Hash, l: Ledger, hold: string, own: Note): Outcome<Ledger> {
    var e := KeepingEvent(h, l, Lifting(hold), own);
    match LiftHold(View(l), hold, UidOf("retention", e))
    case Refused => Refused
    case Ok(_) => Ok(l.(retention := l.retention + [e]))
  }

  ghost function ErasureEvent(h: Hash, l: Ledger, erased: E.Erased, own: Note): Event {
    Next(h, l, Erasures, ErasureFields(l.caseUid, erased, own.fields), own.id)
  }

  ghost function WriteErasure(h: Hash, l: Ledger, who: Actor, erased: E.Erased, own: Note): Outcome<Ledger> {
    var e := ErasureEvent(h, l, erased, own);
    match RecordErasure(View(l), who, erased, UidOf("erasure", e))
    case Refused => Refused
    case Ok(_) => Ok(l.(erasures := l.erasures + [e]))
  }

  // ---------------------------------------------------------------------
  // Custody
  // ---------------------------------------------------------------------

  ghost function CustodyEvent(h: Hash, l: Ledger, x: C.Event, own: Note): Event {
    Next(h, l, Custody(x.evidenceUid), CustodyFields(x, own.fields), own.id)
  }

  ghost function CustodyUid(h: Hash, l: Ledger, x: C.Event, own: Note): string {
    UidOf("custody", CustodyEvent(h, l, x, own))
  }

  function WithCustodyEvent(l: Ledger, u: string, x: Item, e: Event): Ledger {
    l.(exhibits := l.exhibits[u := x.(events := x.events + [e])])
  }

  /** The event an intake or a re-intake records, its uid left open. */
  function TakenIn(h: Hash, s: State, who: Actor, exhibit: string, digest: string, discrepancy: string): C.Event {
    var u := EvidenceUid(h, s.caseUid, exhibit);
    if u in s.exhibits
    then C.Custody("", C.Reintake, u, who.name, "", digest, C.Comparison(digest, s.exhibits[u].digest), discrepancy)
    else C.Custody("", C.Intake, u, who.name, "", digest, C.NotCompared, "")
  }

  ghost function WriteTakeIn(h: Hash, l: Ledger, who: Actor, exhibit: string, digest: string, described: bool,
                             discrepancy: string, own: Note): Outcome<Ledger> {
    var u := EvidenceUid(h, l.caseUid, exhibit);
    var e := CustodyEvent(h, l, TakenIn(h, View(l), who, exhibit, digest, discrepancy), own);
    match TakeIn(h, View(l), who, exhibit, digest, described, discrepancy, UidOf("custody", e))
    case Refused => Refused
    case Ok(_) =>
      var x := if u in l.exhibits then l.exhibits[u] else Item(exhibit, l.caseUid, digest, []);
      Ok(WithCustodyEvent(l, u, x, e))
  }

  function HandedOn(h: Hash, s: State, who: Actor, exhibit: string, kind: C.Kind, recipient: string): C.Event
    requires kind.Release? || kind.Return? || kind.Dispose?
  {
    C.Custody("", kind, EvidenceUid(h, s.caseUid, exhibit), who.name, if kind.Dispose? then "" else recipient, "",
              C.NotCompared, "")
  }

  ghost function WriteHandOn(h: Hash, l: Ledger, who: Actor, exhibit: string, kind: C.Kind, recipient: string,
                             own: Note): Outcome<Ledger>
    requires kind.Release? || kind.Return? || kind.Dispose?
  {
    var u := EvidenceUid(h, l.caseUid, exhibit);
    var e := CustodyEvent(h, l, HandedOn(h, View(l), who, exhibit, kind, recipient), own);
    match HandOn(h, View(l), who, exhibit, kind, recipient, UidOf("custody", e))
    case Refused => Refused
    case Ok(_) => if u in l.exhibits then Ok(WithCustodyEvent(l, u, l.exhibits[u], e)) else Refused
  }

  function TakenOver(h: Hash, s: State, who: Actor, exhibit: string, digest: string, discrepancy: string): C.Event {
    var u := EvidenceUid(h, s.caseUid, exhibit);
    C.Custody("", C.Accept, u, who.name, "", digest,
              if u in s.exhibits then C.Comparison(digest, s.exhibits[u].digest) else C.NotCompared, discrepancy)
  }

  ghost function WriteTakeOver(h: Hash, l: Ledger, who: Actor, exhibit: string, digest: string, discrepancy: string,
                               own: Note): Outcome<Ledger> {
    var u := EvidenceUid(h, l.caseUid, exhibit);
    var e := CustodyEvent(h, l, TakenOver(h, View(l), who, exhibit, digest, discrepancy), own);
    match TakeOver(h, View(l), who, exhibit, digest, discrepancy, UidOf("custody", e))
    case Refused => Refused
    case Ok(_) => if u in l.exhibits then Ok(WithCustodyEvent(l, u, l.exhibits[u], e)) else Refused
  }

  /** Whoever acts, and whoever is assigned, has a name: ledger_open and caseTextArg refuse an empty one. */
  predicate HasNames(a: Action) {
    match a
    case DoDetach => true
    case DoAssign(subject, _) => subject != ""
    case DoSetRetention(_, _, _) => true
    case DoHold(_) => true
    case DoLift(_, _) => true
    case _ => a.who.name != ""
  }

  /** Everybody has a name, and the roles given are roles this program has. */
  predicate Proper(a: Action) {
    && HasNames(a)
    && match a
       case DoAttach(who, _, _) => ProperRole(who.role)
       case DoAssign(_, role) => role.Some? ==> ProperRole(role.value)
       case _ => true
  }

  ghost function Write(h: Hash, l: Ledger, x: Call): Outcome<Ledger> {
    if !Proper(x.action) then Refused
    else match x.action
      case DoAttach(who, asserted, _) => WriteAttach(h, l, who, asserted, x.own, x.move)
      case DoDetach => Ok(l.(attached := None))
      case DoTransition(who, to, now, _) => WriteTransition(h, l, who, to, now, x.move)
      case DoAssign(subject, role) => WriteAssign(h, l, subject, role, x.own)
      case DoRequest(who, kind, key, found, head, _, _) => WriteRequest(h, l, who, kind, key, found, head, x.own, x.move)
      case DoDecide(who, request, decision, _) => WriteDecide(h, l, who, request, decision, x.own, x.move)
      case DoSetRetention(until, _, _) => WriteRetention(h, l, until, x.own, x.move)
      case DoHold(_) => WriteHold(h, l, x.own)
      case DoLift(hold, _) => WriteLift(h, l, hold, x.own)
      case DoErase(who, erased, _) => WriteErasure(h, l, who, erased, x.own)
      case DoTakeIn(who, exhibit, digest, described, discrepancy, _) =>
        WriteTakeIn(h, l, who, exhibit, digest, described, discrepancy, x.own)
      case DoRelease(who, exhibit, recipient, _) => WriteHandOn(h, l, who, exhibit, C.Release, recipient, x.own)
      case DoAccept(who, exhibit, digest, discrepancy, _) =>
        WriteTakeOver(h, l, who, exhibit, digest, discrepancy, x.own)
      case DoReturn(who, exhibit, recipient, _) => WriteHandOn(h, l, who, exhibit, C.Return, recipient, x.own)
      case DoDispose(who, exhibit, _) => WriteHandOn(h, l, who, exhibit, C.Dispose, "", x.own)
  }

  /** The action with the uids its events get. */
  ghost function Filled(h: Hash, l: Ledger, x: Call): Action {
    match x.action
    case DoAttach(who, asserted, _) => DoAttach(who, asserted, UidOf("lifecycle", LifeEvent(h, l, REGISTERS, x.move)))
    case DoDetach => DoDetach
    case DoTransition(who, to, now, _) =>
      DoTransition(who, to, now, UidOf("lifecycle", LifeEvent(h, l, MoveTo(h, View(l), to, now), x.move)))
    case DoAssign(subject, role) => DoAssign(subject, role)
    case DoRequest(who, kind, key, found, head, _, _) =>
      var uid := UidOf("review", RequestEvent(h, l, who, kind, key, x.own));
      DoRequest(who, kind, key, found, head, uid,
                UidOf("lifecycle", LifeEvent(h, l, L.Move("", L.Active, L.InReview, uid, "", ""), x.move)))
    case DoDecide(who, request, decision, _) =>
      DoDecide(who, request, decision, UidOf("lifecycle", LifeEvent(h, l, DecidedMove(request, decision), x.move)))
    case DoSetRetention(until, _, _) =>
      var uid := UidOf("retention", KeepingEvent(h, l, Until(until), x.own));
      DoSetRetention(until, uid,
                     UidOf("lifecycle", LifeEvent(h, l, L.Move("", L.Concluded, L.Retained, "", uid, ""), x.move)))
    case DoHold(_) => DoHold(UidOf("retention", KeepingEvent(h, l, Holding, x.own)))
    case DoLift(hold, _) => DoLift(hold, UidOf("retention", KeepingEvent(h, l, Lifting(hold), x.own)))
    case DoErase(who, erased, _) => DoErase(who, erased, UidOf("erasure", ErasureEvent(h, l, erased, x.own)))
    case DoTakeIn(who, exhibit, digest, described, discrepancy, _) =>
      DoTakeIn(who, exhibit, digest, described, discrepancy,
               CustodyUid(h, l, TakenIn(h, View(l), who, exhibit, digest, discrepancy), x.own))
    case DoRelease(who, exhibit, recipient, _) =>
      DoRelease(who, exhibit, recipient, CustodyUid(h, l, HandedOn(h, View(l), who, exhibit, C.Release, recipient), x.own))
    case DoAccept(who, exhibit, digest, discrepancy, _) =>
      DoAccept(who, exhibit, digest, discrepancy,
               CustodyUid(h, l, TakenOver(h, View(l), who, exhibit, digest, discrepancy), x.own))
    case DoReturn(who, exhibit, recipient, _) =>
      DoReturn(who, exhibit, recipient, CustodyUid(h, l, HandedOn(h, View(l), who, exhibit, C.Return, recipient), x.own))
    case DoDispose(who, exhibit, _) =>
      DoDispose(who, exhibit, CustodyUid(h, l, HandedOn(h, View(l), who, exhibit, C.Dispose, ""), x.own))
  }

  // ---------------------------------------------------------------------
  // Each builtin makes the step CaseLedger says, and appends what it writes
  // ---------------------------------------------------------------------

  ghost predicate WasAppended(h: Hash, prefix: string, chain: string, line: seq<Event>, e: Event) {
    exists props, id :: e == Appended(h, prefix, chain, line, props, id)
  }

  ghost predicate OneMore(h: Hash, caseUid: string, c: Chain, line: seq<Event>, more: seq<Event>) {
    && |more| == |line| + 1 && more[..|line|] == line
    && WasAppended(h, PrefixOf(c), NameOf(h, caseUid, c), line, more[|line|])
  }

  /** No chain changes but by appending to it. */
  ghost predicate Extends(h: Hash, l: Ledger, l': Ledger) {
    && l'.caseUid == l.caseUid
    && forall c :: LineAt(l', c) == LineAt(l, c) || OneMore(h, l.caseUid, c, LineAt(l, c), LineAt(l', c))
  }

  /** What Write makes of a call is what Step makes of the view. */
  ghost predicate Refines(h: Hash, l: Ledger, step: Outcome<State>, r: Outcome<Ledger>) {
    match r
    case Refused => step.Refused?
    case Ok(l') => step == Ok(View(l')) && Extends(h, l, l')
  }

  lemma NextExtends(h: Hash, l: Ledger, c: Chain, fields: Fields, id: nat)
    ensures OneMore(h, l.caseUid, c, LineAt(l, c), LineAt(l, c) + [Next(h, l, c, fields, id)])
  {
    hide Appended, Prefixed, LineAt;
    var line, e := LineAt(l, c), Next(h, l, c, fields, id);
    assert e == Appended(h, PrefixOf(c), NameOf(h, l.caseUid, c), line, Prefixed(PrefixOf(c), fields), id);
    assert (line + [e])[..|line|] == line;
  }
}
