// Each builtin, on chains of property maps, makes the step CaseLedger says of
// what its readers see, and changes no chain but by appending to it.
module CaseWrites {
  import opened Common
  import opened Digest
  import opened CaseChain
  import opened CaseProps
  import opened CaseLedger
  import opened CaseBooks
  import Times
  import L = CaseLifecycle
  import V = CaseReview
  import T = CaseRetention
  import E = CaseErasure
  import C = CaseEvidence

  // ---------------------------------------------------------------------
  // The view of a longer chain
  // ---------------------------------------------------------------------

  lemma ViewOfMove(l: Ledger, e: Event, attached: Option<Attachment>)
    ensures View(WithMove(l, e, attached)) ==
            View(l).(lifecycle := View(l).lifecycle + [MoveFrom(e)], attached := attached)
  {
    hide MoveFrom, RolesOf, RequestsOf, DecisionsOf, RetentionOf, ErasuresOf, ExhibitOf;
    assert MovesOf(l.lifecycle + [e]) == MovesOf(l.lifecycle) + [MoveFrom(e)];
  }

  lemma ViewOfRole(l: Ledger, name: string, e: Event)
    ensures View(WithRole(l, name, e)) == View(l).(roles := Assigned(View(l).roles, name, RoleFrom(e)))
  {
    hide RoleFrom, MovesOf, RequestsOf, DecisionsOf, RetentionOf, ErasuresOf, ExhibitOf;
    var line := LineAt(l, Roles(name));
    assert RolesOf(line + [e]) == RolesOf(line) + [RoleFrom(e)];
    assert RolesOf([]) == [];
  }

  lemma ViewOfRequest(l: Ledger, e: Event)
    ensures View(l.(requests := l.requests + [e])) == View(l).(requests := View(l).requests + [RequestFrom(e)])
  {
    hide RequestFrom, MovesOf, RolesOf, DecisionsOf, RetentionOf, ErasuresOf, ExhibitOf;
    assert RequestsOf(l.requests + [e]) == RequestsOf(l.requests) + [RequestFrom(e)];
  }

  lemma ViewOfDecision(l: Ledger, request: string, e: Event)
    requires LineAt(l, Decisions(request)) == []
    ensures View(l.(decisions := l.decisions[request := LineAt(l, Decisions(request)) + [e]])) ==
            View(l).(decisions := View(l).decisions[request := [DecisionFrom(e)]])
  {
    hide DecisionFrom, MovesOf, RolesOf, RequestsOf, RetentionOf, ErasuresOf, ExhibitOf;
    assert DecisionsOf([] + [e]) == [DecisionFrom(e)];
  }

  lemma ViewOfRetention(l: Ledger, e: Event)
    ensures View(l.(retention := l.retention + [e])) == View(l).(retention := View(l).retention + [RetentionFrom(e)])
  {
    hide RetentionFrom, MovesOf, RolesOf, RequestsOf, DecisionsOf, ErasuresOf, ExhibitOf;
    assert RetentionOf(l.retention + [e]) == RetentionOf(l.retention) + [RetentionFrom(e)];
  }

  lemma ViewOfErasure(l: Ledger, e: Event)
    ensures View(l.(erasures := l.erasures + [e])) == View(l).(erasures := View(l).erasures + [ErasureFrom(e)])
  {
    hide ErasureFrom, MovesOf, RolesOf, RequestsOf, DecisionsOf, RetentionOf, ExhibitOf;
    assert ErasuresOf(l.erasures + [e]) == ErasuresOf(l.erasures) + [ErasureFrom(e)];
  }

  lemma ViewOfCustody(l: Ledger, u: string, x: Item, e: Event)
    ensures View(WithCustodyEvent(l, u, x, e)) ==
            var y := ExhibitOf(x);
            View(l).(exhibits := View(l).exhibits[u := y.(events := y.events + [CustodyFrom(e)])])
  {
    hide CustodyFrom, MovesOf, RolesOf, RequestsOf, DecisionsOf, RetentionOf, ErasuresOf;
    assert CustodyOf(x.events + [e]) == CustodyOf(x.events) + [CustodyFrom(e)];
  }

  // ---------------------------------------------------------------------
  // What the events read back as
  // ---------------------------------------------------------------------

  lemma LifeEventReads(h: Hash, l: Ledger, m: L.Move, note: Note)
    requires !m.from.OtherState? && !m.to.OtherState?
    ensures var e := LifeEvent(h, l, m, note); MoveFrom(e) == m.(uid := UidOf("lifecycle", e))
    ensures OneMore(h, l.caseUid, Lifecycle, l.lifecycle, l.lifecycle + [LifeEvent(h, l, m, note)])
  {
    hide Appended, Prefixed, MoveFrom, MoveFields, UidOf, OneMore;
    MoveReadsBack(h, l.caseUid, l.lifecycle, m, note.fields, note.id);
    NextExtends(h, l, Lifecycle, MoveFields(m, note.fields), note.id);
  }

  lemma RoleEventReads(h: Hash, l: Ledger, name: string, role: Assignment, note: Note)
    requires role.Some? ==> ProperRole(role.value)
    ensures RoleFrom(RoleEvent(h, l, name, role, note)) == role
    ensures RoleOwn(l.caseUid, name, RoleEvent(h, l, name, role, note))
    ensures var line := LineAt(l, Roles(name));
            OneMore(h, l.caseUid, Roles(name), line, line + [RoleEvent(h, l, name, role, note)])
  {
    hide Appended, Prefixed, RoleFrom, RoleOwn, RoleFields, RoleChain, OneMore;
    RoleReadsBack(h, RoleChain(h, l.caseUid, name), LineAt(l, Roles(name)), l.caseUid, name, role, note.fields, note.id);
    NextExtends(h, l, Roles(name), RoleFields(l.caseUid, name, role, note.fields), note.id);
  }

  lemma ViewFields(l: Ledger)
    ensures View(l).caseUid == l.caseUid && View(l).attached == l.attached
    ensures |View(l).lifecycle| == |l.lifecycle| && |View(l).requests| == |l.requests|
    ensures View(l).roles.Keys == l.roles.Keys
    ensures forall u :: u in View(l).exhibits <==> u in l.exhibits
    ensures forall u | u in l.exhibits :: View(l).exhibits[u] == ExhibitOf(l.exhibits[u])
  {
  }

  lemma ViewOfAttached(l: Ledger, attached: Option<Attachment>)
    ensures View(l.(attached := attached)) == View(l).(attached := attached)
  {
  }

  // ---------------------------------------------------------------------
  // Which chains change
  // ---------------------------------------------------------------------

  ghost predicate ChangesOnly(l: Ledger, l': Ledger, a: Chain, b: Chain) {
    l'.caseUid == l.caseUid && forall c | c != a && c != b :: LineAt(l', c) == LineAt(l, c)
  }

  lemma MoveChanges(l: Ledger, e: Event, attached: Option<Attachment>)
    ensures ChangesOnly(l, WithMove(l, e, attached), Lifecycle, Lifecycle)
  {
  }

  lemma RoleChanges(l: Ledger, name: string, e: Event)
    ensures ChangesOnly(l, WithRole(l, name, e), Roles(name), Roles(name))
    ensures LineAt(WithRole(l, name, e), Roles(name)) == LineAt(l, Roles(name)) + [e]
  {
  }

  lemma CustodyChanges(l: Ledger, u: string, x: Item, e: Event)
    requires x.events == LineAt(l, Custody(u))
    ensures ChangesOnly(l, WithCustodyEvent(l, u, x, e), Custody(u), Custody(u))
    ensures LineAt(WithCustodyEvent(l, u, x, e), Custody(u)) == LineAt(l, Custody(u)) + [e]
  {
  }

  lemma BothExtend(h: Hash, l: Ledger, l': Ledger, a: Chain, b: Chain)
    requires ChangesOnly(l, l', a, b)
    requires OneMore(h, l.caseUid, a, LineAt(l, a), LineAt(l', a))
    requires OneMore(h, l.caseUid, b, LineAt(l, b), LineAt(l', b))
    ensures Extends(h, l, l')
  {
    hide OneMore, LineAt;
  }

  lemma TwoChange(l: Ledger, m: Ledger, l': Ledger, a: Chain, b: Chain)
    requires ChangesOnly(l, m, a, a) && ChangesOnly(m, l', b, b) && a != b
    ensures ChangesOnly(l, l', a, b) && LineAt(l', a) == LineAt(m, a) && LineAt(m, b) == LineAt(l, b)
  {
    hide LineAt;
  }

  // ---------------------------------------------------------------------
  // The builtins
  // ---------------------------------------------------------------------

  lemma AttachRefines(h: Hash, l: Ledger, who: Actor, asserted: bool, own: Note, move: Note)
    requires ProperRole(who.role)
    ensures Refines(h, l, Attach(View(l), who, asserted, UidOf("lifecycle", LifeEvent(h, l, REGISTERS, move))),
                    WriteAttach(h, l, who, asserted, own, move))
  {
    hide LifeEvent, RoleEvent, MoveFrom, UidOf, RoleFrom, L.LifecycleGood, View, OneMore, RoleOwn, Extends, ChangesOnly;
    var e, r := LifeEvent(h, l, REGISTERS, move), RoleEvent(h, l, who.name, Some(who.role), own);
    ViewFields(l);
    LifeEventReads(h, l, REGISTERS, move);
    RoleEventReads(h, l, who.name, Some(who.role), own);
    ViewOfRole(l, who.name, r);
    var m, attached := WithRole(l, who.name, r), Some(Attachment(L.Registered, UidOf("lifecycle", e)));
    RoleChanges(l, who.name, r);
    MoveAlso(h, l, m, Roles(who.name), e, attached);
    var again := Some(Attachment(LifeOf(View(l)), Head(View(l).lifecycle).uid));
    ViewOfAttached(l, again);
    AttachedExtends(h, l, again);
  }

  lemma AttachedExtends(h: Hash, l: Ledger, attached: Option<Attachment>)
    ensures Extends(h, l, l.(attached := attached))
  {
  }

  lemma TransitionRefines(h: Hash, l: Ledger, who: Actor, to: L.State, now: int, move: Note)
    ensures Refines(h, l, Transition(h, View(l), who, to, now,
                                     UidOf("lifecycle", LifeEvent(h, l, MoveTo(h, View(l), to, now), move))),
                    WriteTransition(h, l, who, to, now, move))
  {
    hide LifeEvent, MoveFrom, UidOf, View, OneMore, Extends, ChangesOnly, DisposalGrounds;
    var m := MoveTo(h, View(l), to, now);
    var e := LifeEvent(h, l, m, move);
    if Transition(h, View(l), who, to, now, UidOf("lifecycle", e)).Ok? {
      KnownStates(View(l).lifecycle);
      assert !to.OtherState?;
      LifeEventReads(h, l, m, move);
      var attached := Some(Attachment(to, UidOf("lifecycle", e)));
      ViewOfMove(l, e, attached);
      MoveChanges(l, e, attached);
      BothExtend(h, l, WithMove(l, e, attached), Lifecycle, Lifecycle);
    }
  }

  /** A lifecycle that reads back is in a state this program knows. */
  lemma KnownStates(lifecycle: seq<L.Move>)
    requires L.LifecycleGood(lifecycle)
    ensures !L.StateOf(lifecycle).OtherState?
  {
    if lifecycle != [] {
      assert L.MoveGood(lifecycle, |lifecycle| - 1);
    }
  }

  lemma AssignRefines(h: Hash, l: Ledger, subject: string, role: Assignment, own: Note)
    requires role.Some? ==> ProperRole(role.value)
    ensures Refines(h, l, Assign(View(l), subject, role), WriteAssign(h, l, subject, role, own))
  {
    hide RoleEvent, RoleFrom, View, OneMore, Extends, ChangesOnly, Takes, RoleOf, RoleOwn;
    var e := RoleEvent(h, l, subject, role, own);
    RoleEventReads(h, l, subject, role, own);
    ViewOfRole(l, subject, e);
    RoleChanges(l, subject, e);
    BothExtend(h, l, WithRole(l, subject, e), Roles(subject), Roles(subject));
  }

  // ---------------------------------------------------------------------
  // Reviews
  // ---------------------------------------------------------------------

  lemma RequestEventReads(h: Hash, l: Ledger, who: Actor, kind: V.SubjectKind, key: string, own: Note)
    requires !kind.OtherKind?
    ensures var e := RequestEvent(h, l, who, kind, key, own);
            && RequestFrom(e) == Asked(l, who, kind, key).(uid := UidOf("review", e))
            && OneMore(h, l.caseUid, Requests, l.requests, l.requests + [e])
  {
    hide Appended, Prefixed, RequestFrom, RequestFields, UidOf, OneMore;
    RequestReadsBack(h, l.caseUid, l.requests, Asked(l, who, kind, key), own.fields, own.id);
    NextExtends(h, l, Requests, RequestFields(Asked(l, who, kind, key), own.fields), own.id);
  }

  lemma RequestChanges(l: Ledger, e: Event)
    ensures ChangesOnly(l, l.(requests := l.requests + [e]), Requests, Requests)
  {
  }

  lemma RequestRefines(h: Hash, l: Ledger, who: Actor, kind: V.SubjectKind, key: string, found: bool, head: string,
                       own: Note, move: Note)
    ensures var uid := UidOf("review", RequestEvent(h, l, who, kind, key, own));
            var m := LifeEvent(h, l, L.Move("", L.Active, L.InReview, uid, "", ""), move);
            Refines(h, l, RequestReview(View(l), who, kind, key, found, head, uid, UidOf("lifecycle", m)),
                    WriteRequest(h, l, who, kind, key, found, head, own, move))
  {
    hide LifeEvent, RequestEvent, MoveFrom, RequestFrom, UidOf, View, OneMore, Extends, ChangesOnly, Takes, V.ReviewsGood,
      V.HasOpen;
    var e := RequestEvent(h, l, who, kind, key, own);
    var to := L.Move("", L.Active, L.InReview, UidOf("review", e), "", "");
    var m := LifeEvent(h, l, to, move);
    ViewFields(l);
    if !kind.OtherKind? {
      RequestEventReads(h, l, who, kind, key, own);
      LifeEventReads(h, l, to, move);
      var more, attached := l.(requests := l.requests + [e]), Some(Attachment(L.InReview, UidOf("lifecycle", m)));
      ViewOfRequest(l, e);
      RequestChanges(l, e);
      BothExtend(h, l, more, Requests, Requests);
      MoveAlso(h, l, more, Requests, m, attached);
    }
  }

  lemma DecisionChanges(l: Ledger, request: string, e: Event)
    ensures var line := LineAt(l, Decisions(request));
            var more := l.(decisions := l.decisions[request := line + [e]]);
            ChangesOnly(l, more, Decisions(request), Decisions(request)) && LineAt(more, Decisions(request)) == line + [e]
  {
  }

  lemma UndecidedLine(l: Ledger, request: string)
    requires V.DecisionsOf(View(l).decisions, request) == []
    ensures LineAt(l, Decisions(request)) == []
  {
  }

  lemma DecideRefines(h: Hash, l: Ledger, who: Actor, request: string, decision: V.Decision, own: Note, move: Note)
    ensures var m := LifeEvent(h, l, DecidedMove(request, decision), move);
            Refines(h, l, DecideReview(View(l), who, request, decision, UidOf("lifecycle", m)),
                    WriteDecide(h, l, who, request, decision, own, move))
  {
    hide LifeEvent, MoveFrom, DecisionFrom, UidOf, View, OneMore, Extends, ChangesOnly, Takes, V.ReviewsGood, V.Find, Next;
    hide LineAt, DecisionFields;
    var m := LifeEvent(h, l, DecidedMove(request, decision), move);
    ViewFields(l);
    if DecideReview(View(l), who, request, decision, UidOf("lifecycle", m)).Ok? {
      var d := V.Decided(request, l.caseUid, decision, who.name, who.role);
      var e := Next(h, l, Decisions(request), DecisionFields(d, own.fields), own.id);
      UndecidedLine(l, request);
      DecisionEventReads(h, l, d, own);
      ViewOfDecision(l, request, e);
      var more := l.(decisions := l.decisions[request := LineAt(l, Decisions(request)) + [e]]);
      DecisionChanges(l, request, e);
      BothExtend(h, l, more, Decisions(request), Decisions(request));
      LifeEventReads(h, l, DecidedMove(request, decision), move);
      var attached := Some(Attachment(DecidedMove(request, decision).to, UidOf("lifecycle", m)));
      MoveAlso(h, l, more, Decisions(request), m, attached);
    }
  }

  lemma DecisionEventReads(h: Hash, l: Ledger, d: V.Decided, own: Note)
    requires !d.decision.OtherDecision? && ProperRole(d.role)
    ensures var e := Next(h, l, Decisions(d.requestUid), DecisionFields(d, own.fields), own.id);
            var line := LineAt(l, Decisions(d.requestUid));
            DecisionFrom(e) == d && OneMore(h, l.caseUid, Decisions(d.requestUid), line, line + [e])
  {
    hide Appended, Prefixed, DecisionFrom, DecisionFields, OneMore, LineAt;
    DecisionReadsBack(h, d.requestUid, LineAt(l, Decisions(d.requestUid)), d, own.fields, own.id);
    NextExtends(h, l, Decisions(d.requestUid), DecisionFields(d, own.fields), own.id);
  }

  /** A move beside an event of another chain. */
  lemma MoveAlso(h: Hash, l: Ledger, more: Ledger, c: Chain, m: Event, attached: Option<Attachment>)
    requires c != Lifecycle && ChangesOnly(l, more, c, c) && OneMore(h, l.caseUid, c, LineAt(l, c), LineAt(more, c))
    requires OneMore(h, l.caseUid, Lifecycle, l.lifecycle, l.lifecycle + [m])
    ensures Extends(h, l, WithMove(more, m, attached))
    ensures View(WithMove(more, m, attached)) ==
            View(more).(lifecycle := View(more).lifecycle + [MoveFrom(m)], attached := attached)
  {
    hide OneMore, Extends, ChangesOnly, View, MoveFrom;
    ViewOfMove(more, m, attached);
    MoveChanges(more, m, attached);
    TwoChange(l, more, WithMove(more, m, attached), c, Lifecycle);
    BothExtend(h, l, WithMove(more, m, attached), c, Lifecycle);
  }

  // ---------------------------------------------------------------------
  // Retention and erasures
  // ---------------------------------------------------------------------

  lemma KeepingEventReads(h: Hash, l: Ledger, k: Keeping, own: Note)
    ensures var e := KeepingEvent(h, l, k, own);
            && RetentionFrom(e) == T.Event(UidOf("retention", e), l.caseUid, KindOf(k))
            && OneMore(h, l.caseUid, Retention, l.retention, l.retention + [e])
            && Extends(h, l, l.(retention := l.retention + [e]))
            && ChangesOnly(l, l.(retention := l.retention + [e]), Retention, Retention)
  {
    hide Appended, Prefixed, RetentionFrom, RetentionFields, UidOf, OneMore, KindOf;
    RetentionReadsBack(h, l.caseUid, l.retention, l.caseUid, k, own.fields, own.id);
    NextExtends(h, l, Retention, RetentionFields(l.caseUid, k, own.fields), own.id);
    RetentionChanges(l, KeepingEvent(h, l, k, own));
  }

  lemma RetentionChanges(l: Ledger, e: Event)
    ensures ChangesOnly(l, l.(retention := l.retention + [e]), Retention, Retention)
  {
  }

  lemma SetRetentionRefines(h: Hash, l: Ledger, until: int, own: Note, move: Note)
    ensures var uid := UidOf("retention", KeepingEvent(h, l, Until(until), own));
            var m := LifeEvent(h, l, L.Move("", L.Concluded, L.Retained, "", uid, ""), move);
            Refines(h, l, SetRetention(View(l), until, uid, UidOf("lifecycle", m)),
                    WriteRetention(h, l, until, own, move))
  {
    hide LifeEvent, KeepingEvent, MoveFrom, RetentionFrom, UidOf, View, OneMore, Extends, ChangesOnly, Takes;
    hide T.RetentionGood, T.Period, Times.Parse, Times.Render;
    var e := KeepingEvent(h, l, Until(until), own);
    var to := L.Move("", L.Concluded, L.Retained, "", UidOf("retention", e), "");
    var m := LifeEvent(h, l, to, move);
    ViewFields(l);
    KeepingEventReads(h, l, Until(until), own);
    LifeEventReads(h, l, to, move);
    ViewOfRetention(l, e);
    MoveAlso(h, l, l.(retention := l.retention + [e]), Retention, m, Some(Attachment(L.Retained, UidOf("lifecycle", m))));
  }

  lemma HoldRefines(h: Hash, l: Ledger, own: Note)
    ensures Refines(h, l, PlaceHold(View(l), UidOf("retention", KeepingEvent(h, l, Holding, own))), WriteHold(h, l, own))
  {
    hide KeepingEvent, RetentionFrom, UidOf, View, OneMore, Extends, ChangesOnly, Takes, T.RetentionGood;
    ViewFields(l);
    KeepingEventReads(h, l, Holding, own);
    ViewOfRetention(l, KeepingEvent(h, l, Holding, own));
  }

  lemma LiftRefines(h: Hash, l: Ledger, hold: string, own: Note)
    ensures Refines(h, l, LiftHold(View(l), hold, UidOf("retention", KeepingEvent(h, l, Lifting(hold), own))),
                    WriteLift(h, l, hold, own))
  {
    hide KeepingEvent, RetentionFrom, UidOf, View, OneMore, Extends, ChangesOnly, Takes, T.RetentionGood, InForce;
    ViewFields(l);
    KeepingEventReads(h, l, Lifting(hold), own);
    ViewOfRetention(l, KeepingEvent(h, l, Lifting(hold), own));
  }

  lemma ErasureChanges(l: Ledger, e: Event)
    ensures ChangesOnly(l, l.(erasures := l.erasures + [e]), Erasures, Erasures)
  {
  }

  lemma ErasureRefines(h: Hash, l: Ledger, who: Actor, erased: E.Erased, own: Note)
    ensures Refines(h, l, RecordErasure(View(l), who, erased, UidOf("erasure", ErasureEvent(h, l, erased, own))),
                    WriteErasure(h, l, who, erased, own))
  {
    hide ErasureFrom, UidOf, View, OneMore, Extends, ChangesOnly, Takes, NoHold, E.ErasuresGood, E.KeyErased;
    hide Appended, Prefixed, ErasureFields, E.IsRecordUid, E.ParseGenerations;
    var e := ErasureEvent(h, l, erased, own);
    ViewFields(l);
    if E.Check(l.caseUid, E.Event(UidOf("erasure", e), l.caseUid, erased)) {
      ErasureReadsBack(h, l.caseUid, l.erasures, l.caseUid, erased, own.fields, own.id);
      NextExtends(h, l, Erasures, ErasureFields(l.caseUid, erased, own.fields), own.id);
      ViewOfErasure(l, e);
      ErasureChanges(l, e);
      BothExtend(h, l, l.(erasures := l.erasures + [e]), Erasures, Erasures);
    }
  }

  // ---------------------------------------------------------------------
  // Custody
  // ---------------------------------------------------------------------

  /** An event recorded in an exhibit's custody: what it reads back as, and what changes. */
  lemma CustodyWritten(h: Hash, l: Ledger, x: Item, y: C.Event, own: Note)
    requires ProperCustody(y) && x.events == LineAt(l, Custody(y.evidenceUid))
    ensures var e := CustodyEvent(h, l, y, own);
            var l' := WithCustodyEvent(l, y.evidenceUid, x, e);
            var was := ExhibitOf(x);
            && View(l') == View(l).(exhibits := View(l).exhibits[y.evidenceUid :=
                                      was.(events := was.events + [y.(uid := CustodyUid(h, l, y, own))])])
            && Extends(h, l, l')
  {
    hide Appended, Prefixed, CustodyFrom, CustodyFields, UidOf, OneMore, View, Extends, ChangesOnly, LineAt;
    var c, e := Custody(y.evidenceUid), CustodyEvent(h, l, y, own);
    CustodyReadsBack(h, y.evidenceUid, LineAt(l, c), y, own.fields, own.id);
    NextExtends(h, l, c, CustodyFields(y, own.fields), own.id);
    ViewOfCustody(l, y.evidenceUid, x, e);
    CustodyChanges(l, y.evidenceUid, x, e);
    BothExtend(h, l, WithCustodyEvent(l, y.evidenceUid, x, e), c, c);
  }

  lemma TakeInRefines(h: Hash, l: Ledger, who: Actor, exhibit: string, digest: string, described: bool,
                      discrepancy: string, own: Note)
    ensures Refines(h, l, TakeIn(h, View(l), who, exhibit, digest, described, discrepancy,
                                 CustodyUid(h, l, TakenIn(h, View(l), who, exhibit, digest, discrepancy), own)),
                    WriteTakeIn(h, l, who, exhibit, digest, described, discrepancy, own))
  {
    hide CustodyEvent, CustodyUid, View, Extends, Takes, C.Accepted, EvidenceUid, RoleOf;
    var u := EvidenceUid(h, l.caseUid, exhibit);
    ViewFields(l);
    var y := TakenIn(h, View(l), who, exhibit, digest, discrepancy);
    var x := if u in l.exhibits then l.exhibits[u] else Item(exhibit, l.caseUid, digest, []);
    CustodyUidIs(h, l, y, own);
    CustodyWritten(h, l, x, y, own);
    assert [] + [y.(uid := CustodyUid(h, l, y, own))] == [y.(uid := CustodyUid(h, l, y, own))];
  }

  lemma CustodyUidIs(h: Hash, l: Ledger, y: C.Event, own: Note)
    ensures CustodyUid(h, l, y, own) == UidOf("custody", CustodyEvent(h, l, y, own))
  {
  }

  lemma HandOnRefines(h: Hash, l: Ledger, who: Actor, exhibit: string, kind: C.Kind, recipient: string, own: Note)
    requires kind.Release? || kind.Return? || kind.Dispose?
    ensures Refines(h, l, HandOn(h, View(l), who, exhibit, kind, recipient,
                                 CustodyUid(h, l, HandedOn(h, View(l), who, exhibit, kind, recipient), own)),
                    WriteHandOn(h, l, who, exhibit, kind, recipient, own))
  {
    hide CustodyEvent, CustodyUid, View, Extends, NoHold, C.Accepted, EvidenceUid, RoleOf;
    var u := EvidenceUid(h, l.caseUid, exhibit);
    ViewFields(l);
    var y := HandedOn(h, View(l), who, exhibit, kind, recipient);
    CustodyUidIs(h, l, y, own);
    if u in l.exhibits {
      CustodyWritten(h, l, l.exhibits[u], y, own);
    }
  }

  lemma TakeOverRefines(h: Hash, l: Ledger, who: Actor, exhibit: string, digest: string, discrepancy: string, own: Note)
    ensures Refines(h, l, TakeOver(h, View(l), who, exhibit, digest, discrepancy,
                                   CustodyUid(h, l, TakenOver(h, View(l), who, exhibit, digest, discrepancy), own)),
                    WriteTakeOver(h, l, who, exhibit, digest, discrepancy, own))
  {
    hide CustodyEvent, CustodyUid, View, Extends, C.Accepted, EvidenceUid;
    var u := EvidenceUid(h, l.caseUid, exhibit);
    ViewFields(l);
    var y := TakenOver(h, View(l), who, exhibit, digest, discrepancy);
    CustodyUidIs(h, l, y, own);
    if u in l.exhibits {
      CustodyWritten(h, l, l.exhibits[u], y, own);
    }
  }

  // ---------------------------------------------------------------------
  // Every call
  // ---------------------------------------------------------------------

  /** A call on the chains makes exactly the step of the case as it is read, and appends to chains and nothing else. */
  lemma WriteRefines(h: Hash, l: Ledger, x: Call)
    requires Proper(x.action)
    ensures Refines(h, l, Step(h, View(l), Filled(h, l, x)), Write(h, l, x))
  {
    hide View, Attach, Transition, Assign, RequestReview, DecideReview, SetRetention, PlaceHold, LiftHold, RecordErasure,
      TakeIn, HandOn, TakeOver, WriteAttach, WriteTransition, WriteAssign, WriteRequest, WriteDecide, WriteRetention,
      WriteHold, WriteLift, WriteErasure, WriteTakeIn, WriteHandOn, WriteTakeOver, Extends, UidOf, CustodyUid, LifeEvent,
      KeepingEvent, RequestEvent, ErasureEvent, MoveTo, TakenIn, HandedOn, TakenOver;
    match x.action
    case DoAttach(who, asserted, _) => AttachRefines(h, l, who, asserted, x.own, x.move);
    case DoDetach => ViewOfAttached(l, None); AttachedExtends(h, l, None);
    case DoTransition(who, to, now, _) => TransitionRefines(h, l, who, to, now, x.move);
    case DoAssign(subject, role) => AssignRefines(h, l, subject, role, x.own);
    case DoRequest(who, kind, key, found, head, _, _) =>
      RequestRefines(h, l, who, kind, key, found, head, x.own, x.move);
    case DoDecide(who, request, decision, _) => DecideRefines(h, l, who, request, decision, x.own, x.move);
    case DoSetRetention(until, _, _) => SetRetentionRefines(h, l, until, x.own, x.move);
    case DoHold(_) => HoldRefines(h, l, x.own);
    case DoLift(hold, _) => LiftRefines(h, l, hold, x.own);
    case DoErase(who, erased, _) => ErasureRefines(h, l, who, erased, x.own);
    case DoTakeIn(who, exhibit, digest, described, discrepancy, _) =>
      TakeInRefines(h, l, who, exhibit, digest, described, discrepancy, x.own);
    case DoRelease(who, exhibit, recipient, _) => HandOnRefines(h, l, who, exhibit, C.Release, recipient, x.own);
    case DoAccept(who, exhibit, digest, discrepancy, _) =>
      TakeOverRefines(h, l, who, exhibit, digest, discrepancy, x.own);
    case DoReturn(who, exhibit, recipient, _) => HandOnRefines(h, l, who, exhibit, C.Return, recipient, x.own);
    case DoDispose(who, exhibit, _) => HandOnRefines(h, l, who, exhibit, C.Dispose, "", x.own);
  }
}
