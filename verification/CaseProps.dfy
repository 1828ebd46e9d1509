// The events of a case as property maps: what each kind of event writes under
// its prefix, and what its reader makes of the properties it finds.
module CaseProps {
  import opened Common
  import opened Digest
  import opened ChainUid
  import opened CaseChain
  import Times
  import L = CaseLifecycle
  import V = CaseReview
  import T = CaseRetention
  import E = CaseErasure
  import C = CaseEvidence

  /** Properties by the name each has behind its prefix. */
  type Fields = map<string, string>

  function Value(fields: Fields, name: string): string {
    if name in fields then fields[name] else ""
  }

  /** A property that is written only when there is something to write. */
  function Opt(name: string, value: string): Fields {
    if value == "" then map[] else map[name := value]
  }

  /** What the event says of itself, beside whatever else is noted in it. */
  function Beside(note: Fields, names: set<string>, own: Fields): Fields {
    (note - names) + own
  }

  function KeysOf(prefix: string, names: set<string>): set<string> {
    set n | n in names :: Key(prefix, n)
  }

  function Prefixed(prefix: string, fields: Fields): Props {
    map k | k in KeysOf(prefix, fields.Keys) :: Value(fields, k[|prefix| + 1..])
  }

  /** caseChainEvent.get. */
  function Field(prefix: string, e: Event, name: string): string {
    Get(e.props, Key(prefix, name))
  }

  const CHAIN_NAMES := {"chain", "seq", "prev_uid", "uid"}

  lemma KeyIs(prefix: string, name: string)
    ensures Key(prefix, name)[|prefix| + 1..] == name
  {
  }

  lemma PrefixedField(prefix: string, fields: Fields, name: string)
    ensures Get(Prefixed(prefix, fields), Key(prefix, name)) == Value(fields, name)
  {
    hide Key;
    KeyIs(prefix, name);
    if name in fields {
      assert Key(prefix, name) in KeysOf(prefix, fields.Keys);
    } else if Key(prefix, name) in KeysOf(prefix, fields.Keys) {
      var n :| n in fields && Key(prefix, n) == Key(prefix, name);
      KeyIs(prefix, n);
    }
  }

  /** An appended event says what was written in it. */
  lemma AppendedField(h: Hash, prefix: string, chain: string, line: seq<Event>, fields: Fields, id: nat, name: string)
    requires name !in CHAIN_NAMES
    ensures Field(prefix, Appended(h, prefix, chain, line, Prefixed(prefix, fields), id), name) == Value(fields, name)
  {
    hide Key, UidText, Prefixed, Value;
    PrefixedField(prefix, fields, name);
    KeyIs(prefix, name);
    KeyIs(prefix, "chain");
    KeyIs(prefix, "seq");
    KeyIs(prefix, "prev_uid");
    KeyIs(prefix, "uid");
  }

  lemma BesideValue(note: Fields, names: set<string>, own: Fields, name: string)
    requires name in names
    ensures Value(Beside(note, names, own), name) == Value(own, name)
  {
  }

  lemma OptValue(own: Fields, n: string, v: string, name: string)
    ensures Value(own + Opt(n, v), name) == if name == n && v != "" then v else Value(own, name)
  {
  }

  // ---------------------------------------------------------------------
  // Words
  // ---------------------------------------------------------------------

  function StateWord(s: L.State): string {
    match s
    case Unregistered => ""
    case Registered => "registered"
    case Active => "active"
    case InReview => "in_review"
    case Concluded => "concluded"
    case Retained => "retained"
    case Disposed => "disposed"
    case OtherState(word) => word
  }

  function StateOfWord(w: string): L.State {
    if w == "" then L.Unregistered else if w == "registered" then L.Registered else if w == "active" then L.Active
    else if w == "in_review" then L.InReview else if w == "concluded" then L.Concluded
    else if w == "retained" then L.Retained else if w == "disposed" then L.Disposed else L.OtherState(w)
  }

  function SubjectWord(k: V.SubjectKind): string {
    match k
    case Case => "case"
    case Record => "record"
    case RedactionVersion => "redaction_version"
    case OtherKind(word) => word
  }

  function SubjectOfWord(w: string): V.SubjectKind {
    if w == "case" then V.Case else if w == "record" then V.Record
    else if w == "redaction_version" then V.RedactionVersion else V.OtherKind(w)
  }

  function DecisionWord(d: V.Decision): string {
    match d
    case Approved => "approved"
    case ChangesRequested => "changes_requested"
    case Rejected => "rejected"
    case OtherDecision(word) => word
  }

  function DecisionOfWord(w: string): V.Decision {
    if w == "approved" then V.Approved else if w == "changes_requested" then V.ChangesRequested
    else if w == "rejected" then V.Rejected else V.OtherDecision(w)
  }

  function RoleWord(r: Role): string {
    match r
    case CaseOwner => "case_owner"
    case Administrator => "administrator"
    case Reviewer => "reviewer"
    case OtherRole(word) => word
  }

  function RoleOfWord(w: string): Role {
    if w == "case_owner" then CaseOwner else if w == "administrator" then Administrator
    else if w == "reviewer" then Reviewer else OtherRole(w)
  }

  /** A role of another name has another name, and is no end of an assignment. */
  predicate ProperRole(r: Role) {
    r.OtherRole? ==> r.word !in ["case_owner", "administrator", "reviewer", "none"]
  }

  /** The end of an assignment is the role "none". */
  function AssignmentWord(a: Option<Role>): string {
    match a case None => "none" case Some(r) => RoleWord(r)
  }

  function AssignmentOfWord(w: string): Option<Role> {
    if w == "none" then None else Some(RoleOfWord(w))
  }

  function ScopeWord(s: E.Scope): string {
    match s case EveryGeneration => "all" case OneGeneration => "generation" case OtherScope(word) => word
  }

  function ScopeOfWord(w: string): E.Scope {
    if w == "all" then E.EveryGeneration else if w == "generation" then E.OneGeneration else E.OtherScope(w)
  }

  function PlaceWord(p: C.Place): string {
    match p
    case Nowhere => ""
    case Held => "held"
    case InTransit => "in_transit"
    case Returned => "returned"
    case Disposed => "disposed"
    case OtherPlace(word) => word
  }

  function PlaceOfWord(w: string): C.Place {
    if w == "" then C.Nowhere else if w == "held" then C.Held else if w == "in_transit" then C.InTransit
    else if w == "returned" then C.Returned else if w == "disposed" then C.Disposed else C.OtherPlace(w)
  }

  function CustodyWord(k: C.Kind): string {
    match k
    case Intake => "intake"
    case Release => "release"
    case Accept => "accept"
    case Return => "return"
    case Reintake => "reintake"
    case Dispose => "dispose"
    case OtherKind(word) => word
  }

  function CustodyOfWord(w: string): C.Kind {
    if w == "intake" then C.Intake else if w == "release" then C.Release else if w == "accept" then C.Accept
    else if w == "return" then C.Return else if w == "reintake" then C.Reintake else if w == "dispose" then C.Dispose
    else C.OtherKind(w)
  }

  function MatchesWord(m: C.Matches): string {
    match m case NotCompared => "" case Matched => "true" case Differed => "false" case OtherWord(word) => word
  }

  function MatchesOfWord(w: string): C.Matches {
    if w == "" then C.NotCompared else if w == "true" then C.Matched else if w == "false" then C.Differed
    else C.OtherWord(w)
  }

  // ---------------------------------------------------------------------
  // Lifecycle
  // ---------------------------------------------------------------------

  const MOVE_NAMES := {"from", "state", "review_uid", "retention_uid", "erasure_uid"}

  function MoveOwn(m: L.Move): Fields {
    map["from" := StateWord(m.from), "state" := StateWord(m.to)] + Opt("review_uid", m.reviewUid)
    + Opt("retention_uid", m.retentionUid) + Opt("erasure_uid", m.erasureUid)
  }

  function MoveFields(m: L.Move, note: Fields): Fields {
    Beside(note, MOVE_NAMES, MoveOwn(m))
  }

  lemma MoveValue(m: L.Move, name: string)
    ensures var base := map["from" := StateWord(m.from), "state" := StateWord(m.to)];
            Value(MoveOwn(m), name) ==
              if name == "erasure_uid" && m.erasureUid != "" then m.erasureUid
              else if name == "retention_uid" && m.retentionUid != "" then m.retentionUid
              else if name == "review_uid" && m.reviewUid != "" then m.reviewUid
              else Value(base, name)
  {
    hide Value, Opt, StateWord;
    var base := map["from" := StateWord(m.from), "state" := StateWord(m.to)];
    OptValue(base, "review_uid", m.reviewUid, name);
    OptValue(base + Opt("review_uid", m.reviewUid), "retention_uid", m.retentionUid, name);
    OptValue(base + Opt("review_uid", m.reviewUid) + Opt("retention_uid", m.retentionUid), "erasure_uid", m.erasureUid,
             name);
  }

  lemma StateReadsBack(s: L.State)
    requires !s.OtherState?
    ensures StateOfWord(StateWord(s)) == s
  {
  }

  function MoveFrom(e: Event): L.Move {
    L.Move(UidOf("lifecycle", e), StateOfWord(Field("lifecycle", e, "from")), StateOfWord(Field("lifecycle", e, "state")),
           Field("lifecycle", e, "review_uid"), Field("lifecycle", e, "retention_uid"),
           Field("lifecycle", e, "erasure_uid"))
  }

  lemma MoveSays(h: Hash, chain: string, line: seq<Event>, m: L.Move, note: Fields, id: nat, name: string)
    requires name in MOVE_NAMES
    ensures Field("lifecycle", Appended(h, "lifecycle", chain, line, Prefixed("lifecycle", MoveFields(m, note)), id), name)
         == Value(MoveOwn(m), name)
  {
    hide Appended, Prefixed, UidOf, Field, MoveOwn, Beside, Value;
    AppendedField(h, "lifecycle", chain, line, MoveFields(m, note), id, name);
    BesideValue(note, MOVE_NAMES, MoveOwn(m), name);
  }

  lemma MoveReadsBack(h: Hash, chain: string, line: seq<Event>, m: L.Move, note: Fields, id: nat)
    requires !m.from.OtherState? && !m.to.OtherState?
    ensures var e := Appended(h, "lifecycle", chain, line, Prefixed("lifecycle", MoveFields(m, note)), id);
            MoveFrom(e) == m.(uid := UidOf("lifecycle", e))
  {
    hide Appended, Prefixed, UidOf, Field, MoveFields, MoveOwn, StateWord, StateOfWord;
    forall name | name in MOVE_NAMES
      ensures Field("lifecycle", Appended(h, "lifecycle", chain, line, Prefixed("lifecycle", MoveFields(m, note)), id), name)
           == Value(MoveOwn(m), name)
    {
      MoveSays(h, chain, line, m, note, id, name);
    }
    MoveValue(m, "from");
    MoveValue(m, "state");
    MoveValue(m, "review_uid");
    MoveValue(m, "retention_uid");
    MoveValue(m, "erasure_uid");
    StateReadsBack(m.from);
    StateReadsBack(m.to);
  }

  // ---------------------------------------------------------------------
  // Assignments
  // ---------------------------------------------------------------------

  const ROLE_NAMES := {"case_uid", "side", "subject", "role"}

  /** caseAssignmentChainKey. */
  function RoleChain(h: Hash, caseUid: string, subject: string): string {
    caseUid + "|" + Sum(h, "mutant-examiner-v1|" + subject)
  }

  function RoleFields(caseUid: string, subject: string, role: Option<Role>, note: Fields): Fields {
    Beside(note, ROLE_NAMES, map["case_uid" := caseUid, "side" := "examiner", "subject" := subject,
                                 "role" := AssignmentWord(role)])
  }

  function RoleFrom(e: Event): Option<Role> {
    AssignmentOfWord(Field("assignment", e, "role"))
  }

  /** What assignmentChainRead asks of an event: on this side, in this case, and at the head its own subject. */
  predicate RoleOwn(caseUid: string, subject: string, e: Event) {
    && Field("assignment", e, "side") in ["", "examiner"] && Field("assignment", e, "case_uid") == caseUid
    && Field("assignment", e, "subject") == subject
  }

  lemma RoleReadsBack(h: Hash, chain: string, line: seq<Event>, caseUid: string, subject: string, role: Option<Role>,
                      note: Fields, id: nat)
    requires role.Some? ==> ProperRole(role.value)
    ensures var e := Appended(h, "assignment", chain, line, Prefixed("assignment", RoleFields(caseUid, subject, role, note)), id);
            RoleFrom(e) == role && RoleOwn(caseUid, subject, e)
  {
    hide Appended, Prefixed, UidOf, Field;
    var f := RoleFields(caseUid, subject, role, note);
    AppendedField(h, "assignment", chain, line, f, id, "case_uid");
    AppendedField(h, "assignment", chain, line, f, id, "side");
    AppendedField(h, "assignment", chain, line, f, id, "subject");
    AppendedField(h, "assignment", chain, line, f, id, "role");
  }

  // ---------------------------------------------------------------------
  // Reviews
  // ---------------------------------------------------------------------

  const REQUEST_NAMES := {"case_uid", "subject_kind", "subject", "by"}

  function RequestFields(r: V.Request, note: Fields): Fields {
    Beside(note, REQUEST_NAMES, map["case_uid" := r.caseUid, "subject_kind" := SubjectWord(r.kind),
                                    "subject" := r.subject, "by" := r.actor])
  }

  function RequestFrom(e: Event): V.Request {
    V.Request(UidOf("review", e), Field("review", e, "case_uid"), SubjectOfWord(Field("review", e, "subject_kind")),
              Field("review", e, "subject"), Field("review", e, "by"))
  }

  lemma RequestReadsBack(h: Hash, chain: string, line: seq<Event>, r: V.Request, note: Fields, id: nat)
    requires !r.kind.OtherKind?
    ensures var e := Appended(h, "review", chain, line, Prefixed("review", RequestFields(r, note)), id);
            RequestFrom(e) == r.(uid := UidOf("review", e))
  {
    hide Appended, Prefixed, UidOf, Field;
    var f := RequestFields(r, note);
    AppendedField(h, "review", chain, line, f, id, "case_uid");
    AppendedField(h, "review", chain, line, f, id, "subject_kind");
    AppendedField(h, "review", chain, line, f, id, "subject");
    AppendedField(h, "review", chain, line, f, id, "by");
  }

  const DECISION_NAMES := {"request_uid", "case_uid", "decision", "by", "by_role"}

  function DecisionFields(d: V.Decided, note: Fields): Fields {
    Beside(note, DECISION_NAMES, map["request_uid" := d.requestUid, "case_uid" := d.caseUid,
                                     "decision" := DecisionWord(d.decision), "by" := d.actor,
                                     "by_role" := RoleWord(d.role)])
  }

  function DecisionFrom(e: Event): V.Decided {
    V.Decided(Field("decision", e, "request_uid"), Field("decision", e, "case_uid"),
              DecisionOfWord(Field("decision", e, "decision")), Field("decision", e, "by"),
              RoleOfWord(Field("decision", e, "by_role")))
  }

  lemma DecisionReadsBack(h: Hash, chain: string, line: seq<Event>, d: V.Decided, note: Fields, id: nat)
    requires !d.decision.OtherDecision? && ProperRole(d.role)
    ensures DecisionFrom(Appended(h, "decision", chain, line, Prefixed("decision", DecisionFields(d, note)), id)) == d
  {
    hide Appended, Prefixed, UidOf, Field;
    var f := DecisionFields(d, note);
    AppendedField(h, "decision", chain, line, f, id, "request_uid");
    AppendedField(h, "decision", chain, line, f, id, "case_uid");
    AppendedField(h, "decision", chain, line, f, id, "decision");
    AppendedField(h, "decision", chain, line, f, id, "by");
    AppendedField(h, "decision", chain, line, f, id, "by_role");
  }

  // ---------------------------------------------------------------------
  // Retention
  // ---------------------------------------------------------------------

  const RETENTION_NAMES := {"case_uid", "kind", "until", "hold_uid"}

  /** What the three writers write: a time as text, nothing, or the hold lifted. */
  datatype Keeping = Until(instant: int) | Holding | Lifting(hold: string)

  /** What the reader takes such an event for. */
  function KindOf(k: Keeping): T.Kind {
    match k
    case Until(t) => T.Set(Times.Parse(Times.Render(t)))
    case Holding => T.Hold
    case Lifting(hold) => T.Release(hold)
  }

  function RetentionFields(caseUid: string, k: Keeping, note: Fields): Fields {
    Beside(note, RETENTION_NAMES,
           match k
           case Until(t) => map["case_uid" := caseUid, "kind" := "set", "until" := Times.Render(t)]
           case Holding => map["case_uid" := caseUid, "kind" := "hold"]
           case Lifting(hold) => map["case_uid" := caseUid, "kind" := "release", "hold_uid" := hold])
  }

  function RetentionFrom(e: Event): T.Event {
    var kind := Field("retention", e, "kind");
    T.Event(UidOf("retention", e), Field("retention", e, "case_uid"),
            if kind == "set" then T.Set(Times.Parse(Field("retention", e, "until")))
            else if kind == "hold" then T.Hold
            else if kind == "release" then T.Release(Field("retention", e, "hold_uid"))
            else T.OtherKind(kind))
  }

  lemma RetentionReadsBack(h: Hash, chain: string, line: seq<Event>, caseUid: string, k: Keeping, note: Fields, id: nat)
    ensures var e := Appended(h, "retention", chain, line, Prefixed("retention", RetentionFields(caseUid, k, note)), id);
            RetentionFrom(e) == T.Event(UidOf("retention", e), caseUid, KindOf(k))
  {
    hide Appended, Prefixed, UidOf, Field, Times.Parse, Times.Render;
    var f := RetentionFields(caseUid, k, note);
    AppendedField(h, "retention", chain, line, f, id, "case_uid");
    AppendedField(h, "retention", chain, line, f, id, "kind");
    AppendedField(h, "retention", chain, line, f, id, "until");
    AppendedField(h, "retention", chain, line, f, id, "hold_uid");
  }

  // ---------------------------------------------------------------------
  // Erasures
  // ---------------------------------------------------------------------

  const ERASURE_NAMES := {"case_uid", "kind", "record_uid", "scope", "generations"}

  function ErasureFields(caseUid: string, erased: E.Erased, note: Fields): Fields {
    Beside(note, ERASURE_NAMES,
           match erased
           case RecordKey(uid) => map["case_uid" := caseUid, "kind" := "record", "record_uid" := uid]
           case CaseKey(scope, text) =>
             map["case_uid" := caseUid, "kind" := "case_key", "scope" := ScopeWord(scope), "generations" := text]
           case OtherErased(word) => map["case_uid" := caseUid, "kind" := word])
  }

  function ErasureFrom(e: Event): E.Event {
    var kind := Field("erasure", e, "kind");
    E.Event(UidOf("erasure", e), Field("erasure", e, "case_uid"),
            if kind == "record" then E.RecordKey(Field("erasure", e, "record_uid"))
            else if kind == "case_key"
            then E.CaseKey(ScopeOfWord(Field("erasure", e, "scope")), Field("erasure", e, "generations"))
            else E.OtherErased(kind))
  }

  lemma ErasureReadsBack(h: Hash, chain: string, line: seq<Event>, caseUid: string, erased: E.Erased, note: Fields, id: nat)
    requires !erased.OtherErased? && (erased.CaseKey? ==> !erased.scope.OtherScope?)
    ensures var e := Appended(h, "erasure", chain, line, Prefixed("erasure", ErasureFields(caseUid, erased, note)), id);
            ErasureFrom(e) == E.Event(UidOf("erasure", e), caseUid, erased)
  {
    hide Appended, Prefixed, UidOf, Field;
    var f := ErasureFields(caseUid, erased, note);
    AppendedField(h, "erasure", chain, line, f, id, "case_uid");
    AppendedField(h, "erasure", chain, line, f, id, "kind");
    AppendedField(h, "erasure", chain, line, f, id, "record_uid");
    AppendedField(h, "erasure", chain, line, f, id, "scope");
    AppendedField(h, "erasure", chain, line, f, id, "generations");
  }

  // ---------------------------------------------------------------------
  // Custody
  // ---------------------------------------------------------------------

  const CUSTODY_NAMES := {"evidence_uid", "kind", "from", "state", "holder", "by", "to", "digest", "matches_intake",
                          "discrepancy"}

  function CustodyBase(x: C.Event): Fields {
    map["evidence_uid" := x.evidenceUid, "kind" := CustodyWord(x.kind), "from" := PlaceWord(x.from),
        "state" := PlaceWord(x.state), "holder" := x.holder, "by" := x.actor]
  }

  function CustodyOwn(x: C.Event): Fields {
    CustodyBase(x) + Opt("to", x.recipient) + Opt("digest", x.digest) + Opt("matches_intake", MatchesWord(x.matches))
    + Opt("discrepancy", x.discrepancy)
  }

  function CustodyFields(x: C.Event, note: Fields): Fields {
    Beside(note, CUSTODY_NAMES, CustodyOwn(x))
  }

  lemma CustodyValue(x: C.Event, name: string)
    ensures Value(CustodyOwn(x), name) ==
              if name == "discrepancy" && x.discrepancy != "" then x.discrepancy
              else if name == "matches_intake" && MatchesWord(x.matches) != "" then MatchesWord(x.matches)
              else if name == "digest" && x.digest != "" then x.digest
              else if name == "to" && x.recipient != "" then x.recipient
              else Value(CustodyBase(x), name)
  {
    hide Value, Opt, MatchesWord, CustodyBase;
    var a := CustodyBase(x);
    var b := a + Opt("to", x.recipient);
    var c := b + Opt("digest", x.digest);
    var d := c + Opt("matches_intake", MatchesWord(x.matches));
    OptValue(a, "to", x.recipient, name);
    OptValue(b, "digest", x.digest, name);
    OptValue(c, "matches_intake", MatchesWord(x.matches), name);
    OptValue(d, "discrepancy", x.discrepancy, name);
  }

  lemma PlaceReadsBack(p: C.Place)
    requires !p.OtherPlace?
    ensures PlaceOfWord(PlaceWord(p)) == p
  {
  }

  lemma CustodyKindReadsBack(k: C.Kind)
    requires !k.OtherKind?
    ensures CustodyOfWord(CustodyWord(k)) == k
  {
  }

  lemma MatchesReadsBack(m: C.Matches)
    requires !m.OtherWord?
    ensures MatchesOfWord(MatchesWord(m)) == m && MatchesOfWord("") == C.NotCompared
  {
  }

  function CustodyFrom(e: Event): C.Event {
    C.Event(UidOf("custody", e), CustodyOfWord(Field("custody", e, "kind")), Field("custody", e, "evidence_uid"),
            PlaceOfWord(Field("custody", e, "from")), PlaceOfWord(Field("custody", e, "state")),
            Field("custody", e, "holder"), Field("custody", e, "to"), Field("custody", e, "by"),
            Field("custody", e, "digest"), MatchesOfWord(Field("custody", e, "matches_intake")),
            Field("custody", e, "discrepancy"))
  }

  /** Nothing in it is a word this program does not write. */
  predicate ProperCustody(x: C.Event) {
    !x.kind.OtherKind? && !x.from.OtherPlace? && !x.state.OtherPlace? && !x.matches.OtherWord?
  }

  lemma CustodySays(h: Hash, chain: string, line: seq<Event>, x: C.Event, note: Fields, id: nat, name: string)
    requires name in CUSTODY_NAMES
    ensures Field("custody", Appended(h, "custody", chain, line, Prefixed("custody", CustodyFields(x, note)), id), name)
         == Value(CustodyOwn(x), name)
  {
    hide Appended, Prefixed, UidOf, Field, CustodyOwn, Beside, Value;
    AppendedField(h, "custody", chain, line, CustodyFields(x, note), id, name);
    BesideValue(note, CUSTODY_NAMES, CustodyOwn(x), name);
  }

  lemma CustodyAlways(x: C.Event)
    ensures var v := CustodyOwn(x);
            && Value(v, "evidence_uid") == x.evidenceUid && Value(v, "kind") == CustodyWord(x.kind)
            && Value(v, "from") == PlaceWord(x.from) && Value(v, "state") == PlaceWord(x.state)
            && Value(v, "holder") == x.holder && Value(v, "by") == x.actor
  {
    hide CustodyOwn, CustodyWord, PlaceWord, MatchesWord;
    CustodyValue(x, "evidence_uid");
    CustodyValue(x, "kind");
    CustodyValue(x, "from");
    CustodyValue(x, "state");
    CustodyValue(x, "holder");
    CustodyValue(x, "by");
  }

  lemma CustodySometimes(x: C.Event)
    ensures var v := CustodyOwn(x);
            && Value(v, "to") == x.recipient && Value(v, "digest") == x.digest
            && Value(v, "matches_intake") == MatchesWord(x.matches) && Value(v, "discrepancy") == x.discrepancy
  {
    hide CustodyOwn, CustodyWord, PlaceWord, MatchesWord;
    CustodyValue(x, "to");
    CustodyValue(x, "digest");
    CustodyValue(x, "matches_intake");
    CustodyValue(x, "discrepancy");
  }

  lemma CustodyReadsBack(h: Hash, chain: string, line: seq<Event>, x: C.Event, note: Fields, id: nat)
    requires ProperCustody(x)
    ensures var e := Appended(h, "custody", chain, line, Prefixed("custody", CustodyFields(x, note)), id);
            CustodyFrom(e) == x.(uid := UidOf("custody", e))
  {
    hide Appended, Prefixed, UidOf, Field, CustodyFields, CustodyOwn, Value, CustodyWord, PlaceWord, MatchesWord;
    hide CustodyOfWord, PlaceOfWord, MatchesOfWord;
    forall name | name in CUSTODY_NAMES
      ensures Field("custody", Appended(h, "custody", chain, line, Prefixed("custody", CustodyFields(x, note)), id), name)
           == Value(CustodyOwn(x), name)
    {
      CustodySays(h, chain, line, x, note, id, name);
    }
    CustodyAlways(x);
    CustodySometimes(x);
    CustodyKindReadsBack(x.kind);
    PlaceReadsBack(x.from);
    PlaceReadsBack(x.state);
    MatchesReadsBack(x.matches);
  }
}
