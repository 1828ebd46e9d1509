// The case builtins as they run: each reads back the chains it needs, refuses
// or appends, and commits, updating the ledger and the attached run in place.
// Each is proved to make the call of CaseBooks that bears its name, or to
// refuse because a chain does not read back, which only a clash can cause.
module CaseStore {
  import opened Common
  import opened Digest
  import opened CaseChain
  import opened CaseProps
  import opened CaseLedger
  import opened CaseBooks
  import opened CaseWrites
  import opened CaseReads
  import H = CaseHistory
  import Times
  import L = CaseLifecycle
  import V = CaseReview
  import T = CaseRetention
  import E = CaseErasure
  import C = CaseEvidence

  /** A builtin that answered `ok` made the call; one that refused changed nothing. */
  predicate Made(call: Outcome<Ledger>, ok: bool, before: Ledger, after: Ledger) {
    match call
    case Ok(l) => ok && after == l
    case Refused => !ok && after == before
  }

  /** The call is made, or refused because some chain does not read back. */
  ghost predicate Did(h: Hash, call: Outcome<Ledger>, ok: bool, before: Ledger, after: Ledger) {
    Made(call, ok, before, after) || (Illegible(h, before) && !ok && after == before)
  }

  class Store {
    const hash: Hash
    const caseUid: string
    var attached: Option<Attachment>
    var lifecycle: seq<Event>
    var roles: map<string, seq<Event>>
    var requests: seq<Event>
    var decisions: map<string, seq<Event>>
    var retention: seq<Event>
    var erasures: seq<Event>
    var exhibits: map<string, Item>

    function Books(): Ledger
      reads this
    {
      Ledger(caseUid, attached, lifecycle, roles, requests, decisions, retention, erasures, exhibits)
    }

    ghost predicate Valid()
      reads this
    {
      AllBuilt(hash, Books()) && RolesOwn(Books())
    }

    constructor (hash: Hash, caseUid: string)
      ensures Books() == Empty(caseUid) && this.hash == hash && Valid()
    {
      this.hash, this.caseUid := hash, caseUid;
      attached, lifecycle, roles, requests, decisions := None, [], map[], [], map[];
      retention, erasures, exhibits := [], [], map[];
      new;
      EmptyBuilt(hash, caseUid);
    }

    // -------------------------------------------------------------------
    // Readers
    // -------------------------------------------------------------------

    method ReadChain(c: Chain) returns (r: Outcome<seq<Event>>)
      requires Valid()
      ensures r == if Legible(hash, Books(), c) then Ok(LineAt(Books(), c)) else Refused
      ensures r.Ok? ==> Line(PrefixOf(c), LineAt(Books(), c))
    {
      hide ReadsAs, LineAt, Line, AllBuilt, PrefixOf, RolesOwn;
      r := CaseChainRead(hash, PrefixOf(c), AsNodes(LineAt(Books(), c)));
      ReadsThatOrNothing(hash, Books(), c, r);
    }

    /** caseLifecycleRead. */
    method LifecycleRead() returns (r: Outcome<L.State>)
      requires Valid()
      ensures r.Ok? ==> L.LifecycleGood(View(Books()).lifecycle) && r.value == LifeOf(View(Books()))
      ensures r.Ok? ==> Line("lifecycle", lifecycle)
      ensures r.Refused? ==> !L.LifecycleGood(View(Books()).lifecycle) || Illegible(hash, Books())
    {
      hide Legible, Line, L.LifecycleGood, L.StateOf;
      var line := ReadChain(Lifecycle);
      if line.Refused? {
        return Refused;
      }
      r := L.CaseLifecycleRead(MovesOf(line.value));
    }

    /** caseLedgerStateRefusal. */
    method StateTakes(action: L.Action) returns (ok: bool)
      requires Valid()
      ensures ok ==> Takes(View(Books()), action) && Line("lifecycle", lifecycle)
      ensures !ok ==> !Takes(View(Books()), action) || Illegible(hash, Books())
    {
      hide L.LifecycleGood, L.StateOf, Line, Illegible, View, AllBuilt, RolesOwn;
      var state := LifecycleRead();
      ok := state.Ok? && !L.Blocks(state.value, action);
    }

    /** assignmentChainRead: whether every event is one of this person's assignments in this case. */
    method AssignmentsOwn(name: string, events: seq<Event>) returns (own: bool)
      ensures own <==> forall i | 0 <= i < |events| :: RoleOwn(caseUid, name, events[i])
    {
      hide RoleOwn;
      var i: nat := 0;
      while i < |events|
        invariant i <= |events| && forall k | 0 <= k < i :: RoleOwn(caseUid, name, events[k])
        decreases |events| - i
      {
        if !RoleOwn(caseUid, name, events[i]) {
          return false;
        }
        i := i + 1;
      }
      return true;
    }

    /** caseAssignmentsRead: the latest assignment of everybody the case assigns. */
    method AssignmentsRead() returns (r: Outcome<map<string, Assignment>>)
      requires Valid()
      ensures r.Ok? ==> (r.value == map[] <==> View(Books()).roles == map[])
      ensures r.Ok? ==> forall n :: RoleOf(View(Books()).roles, n) == if n in r.value then r.value[n] else None
      ensures r.Ok? ==> forall n :: Line("assignment", LineAt(Books(), Roles(n)))
      ensures r.Refused? ==> Illegible(hash, Books())
    {
      hide Legible, RoleOwn, RoleFrom, AllBuilt, Line, View, RoleOf;
      var left, out := roles.Keys, map[];
      while left != {}
        invariant left <= roles.Keys && out.Keys == roles.Keys - left
        invariant forall n | n in out :: out[n] == RoleFrom(roles[n][|roles[n]| - 1]) && Line("assignment", roles[n])
        decreases left
      {
        var n :| n in left;
        var line := ReadChain(Roles(n));
        if line.Refused? {
          return Refused;
        }
        var own := AssignmentsOwn(n, line.value);
        if own {
          out := out[n := RoleFrom(line.value[|line.value| - 1])];
        } else {
          return Refused;
        }
        left := left - {n};
      }
      NoLine("assignment");
      LatestAre(Books(), out);
      return Ok(out);
    }

    /** chainAppend, in one of the chains. */
    method Append(c: Chain, line: seq<Event>, fields: Fields, id: nat) returns (e: Event)
      requires line == LineAt(Books(), c) && Line(PrefixOf(c), line)
      ensures e == Next(hash, Books(), c, fields, id)
    {
      hide Line, LineAt, Prefixed, Appended;
      e := ChainAppend(hash, PrefixOf(c), NameOf(hash, caseUid, c), line, Prefixed(PrefixOf(c), fields), id);
    }

    /** w.lifecycleFor. */
    method LifecycleFor(m: L.Move, note: Note) returns (e: Event)
      requires Line("lifecycle", lifecycle)
      ensures e == LifeEvent(hash, Books(), m, note)
    {
      hide Line, Next;
      e := Append(Lifecycle, lifecycle, MoveFields(m, note.fields), note.id);
    }

    /** The commit of a move, and the attached run told. */
    method Move(e: Event, state: L.State)
      modifies this
      ensures Books() == WithMove(old(Books()), e, Some(Attachment(state, UidOf("lifecycle", e))))
    {
      lifecycle := lifecycle + [e];
      attached := Some(Attachment(state, UidOf("lifecycle", e)));
    }

    /** w.assign. */
    method WriteAssignment(name: string, role: Assignment, note: Note)
      requires Line("assignment", LineAt(Books(), Roles(name)))
      modifies this
      ensures Books() == WithRole(old(Books()), name, RoleEvent(hash, old(Books()), name, role, note))
    {
      hide Line, Next;
      var line := if name in roles then roles[name] else [];
      var e := Append(Roles(name), line, RoleFields(caseUid, name, role, note.fields), note.id);
      roles := roles[name := line + [e]];
    }

    // -------------------------------------------------------------------
    // case_attach, case_transition and case_assign
    // -------------------------------------------------------------------

    method CaseAttach(who: Actor, asserted: bool, own: Note, move: Note) returns (ok: bool)
      requires Valid()
      modifies this
      ensures Did(hash, WriteAttach(hash, old(Books()), who, asserted, own, move), ok, old(Books()), Books())
    {
      hide Illegible, AllBuilt, Line, L.LifecycleGood, RolesOwn, LifeEvent, RoleEvent, UidOf, View, RoleOf;
      ViewFields(Books());
      if attached.Some? || !asserted {
        return false;
      }
      var state := LifecycleRead();
      if state.Refused? {
        return false;
      }
      var assignments := AssignmentsRead();
      if assignments.Refused? {
        return false;
      }
      if |lifecycle| == 0 {
        if assignments.value != map[] {
          return false;
        }
        var e := LifecycleFor(REGISTERS, move);
        WriteAssignment(who.name, Some(who.role), own);
        Move(e, L.Registered);
      } else {
        if who.name !in assignments.value || assignments.value[who.name] != Some(who.role) {
          return false;
        }
        LastMove(Books());
        attached := Some(Attachment(state.value, UidOf("lifecycle", lifecycle[|lifecycle| - 1])));
      }
      return true;
    }

    /** The run ends, or its ledger handle is closed. */
    method CaseDetach() returns (ok: bool)
      modifies this
      ensures ok && Books() == old(Books()).(attached := None)
    {
      attached := None;
      return true;
    }

    // -------------------------------------------------------------------
    // What a disposal rests on
    // -------------------------------------------------------------------

    /** retentionRead. */
    method RetentionRead() returns (r: Outcome<T.Retention>)
      requires Valid()
      ensures r.Ok? ==> T.RetentionGood(caseUid, View(Books()).retention) && r.value == T.Read(View(Books()).retention)
      ensures r.Ok? ==> Line("retention", retention)
      ensures r.Refused? ==> !T.RetentionGood(caseUid, View(Books()).retention) || Illegible(hash, Books())
    {
      hide Legible, Line, T.RetentionGood, T.Read, AllBuilt, RolesOwn;
      var line := ReadChain(Retention);
      if line.Refused? {
        return Refused;
      }
      r := T.RetentionRead(caseUid, RetentionOf(line.value));
    }

    /** erasureRead: the erasure of every generation of the key, if there is one. */
    method ErasureRead() returns (r: Outcome<Option<string>>)
      requires Valid()
      ensures r.Ok? ==> E.ErasuresGood(caseUid, View(Books()).erasures) && Line("erasure", erasures)
      ensures r.Ok? ==> (r.value.Some? <==> E.KeyErased(View(Books()).erasures))
      ensures r.Ok? && r.value.Some? ==>
                r.value.value == View(Books()).erasures[E.KeyErasure(View(Books()).erasures).value].uid
      ensures r.Refused? ==> !E.ErasuresGood(caseUid, View(Books()).erasures) || Illegible(hash, Books())
    {
      hide Legible, Line, E.ErasuresGood, AllBuilt, RolesOwn, E.KeyErasure;
      var line := ReadChain(Erasures);
      if line.Refused? {
        return Refused;
      }
      r := E.ErasureRead(caseUid, ErasuresOf(line.value));
    }

    /** evidenceReadNode. */
    method ItemRead(u: string) returns (accepted: bool)
      requires Valid() && u in exhibits
      ensures accepted ==> Line("custody", exhibits[u].events)
      ensures accepted ==> C.Accepted(u, exhibits[u].digest, ExhibitOf(exhibits[u]).events)
      ensures !accepted ==> !C.Accepted(u, exhibits[u].digest, ExhibitOf(exhibits[u]).events) || Illegible(hash, Books())
    {
      hide Legible, Line, AllBuilt, RolesOwn, C.Accepted, View;
      var line := ReadChain(Custody(u));
      if line.Refused? {
        return false;
      }
      accepted := C.EvidenceReadNode(u, exhibits[u].digest, CustodyOf(line.value));
    }

    /** evidenceReadAll of this case, and whether every exhibit it reads is gone. */
    method EvidenceReadAll() returns (r: Outcome<bool>)
      requires Valid()
      ensures r.Ok? ==> ExhibitsGood(hash, caseUid, View(Books()).exhibits)
      ensures r.Ok? ==> (r.value <==> AllGone(caseUid, View(Books()).exhibits))
      ensures r.Refused? ==> !ExhibitsGood(hash, caseUid, View(Books()).exhibits) || Illegible(hash, Books())
    {
      hide C.Accepted, EvidenceUid, Line, Illegible, AllBuilt, RolesOwn, View, ExhibitOf, CaseLedger.Gone;
      ViewFields(Books());
      ghost var seen := View(Books()).exhibits;
      var left, gone := exhibits.Keys, true;
      while left != {}
        invariant left <= exhibits.Keys
        invariant forall u | u in seen && u !in left && seen[u].caseUid == caseUid ::
                    ExhibitGood(hash, caseUid, u, seen[u])
        invariant gone <==> forall u | u in seen && u !in left && seen[u].caseUid == caseUid :: CaseLedger.Gone(seen[u])
        decreases left
      {
        var u :| u in left;
        var x := exhibits[u];
        ExhibitFields(x);
        if x.caseUid == caseUid {
          if u != EvidenceUid(hash, caseUid, x.name) {
            assert !ExhibitGood(hash, caseUid, u, seen[u]);
            return Refused;
          }
          var accepted := ItemRead(u);
          if !accepted {
            assert !ExhibitGood(hash, caseUid, u, seen[u]) || Illegible(hash, Books());
            return Refused;
          }
          gone := gone && CaseLedger.Gone(ExhibitOf(x));
        }
        left := left - {u};
      }
      return Ok(gone);
    }

    /** caseDisposalRefusal: it reads every chain before it answers. */
    method CaseDisposalRefusal(now: int) returns (r: Outcome<string>)
      requires Valid()
      ensures r == DisposalGrounds(hash, View(Books()), now) || (r.Refused? && Illegible(hash, Books()))
    {
      hide T.RetentionGood, ExhibitsGood, AllGone, E.ErasuresGood, T.HoldsInForce, T.Period, E.KeyErasure;
      hide View, Illegible, AllBuilt, RolesOwn, Line;
      ViewFields(Books());
      var kept := RetentionRead();
      if kept.Refused? {
        return Refused;
      }
      var missing := |kept.value.holds| > 0 || kept.value.until.None? || now < kept.value.until.value;
      var gone := EvidenceReadAll();
      if gone.Refused? {
        return Refused;
      }
      var key := ErasureRead();
      if key.Refused? {
        return Refused;
      }
      if missing || !gone.value || key.value.None? {
        return Refused;
      }
      return Ok(key.value.value);
    }

    method CaseTransition(who: Actor, target: L.State, now: int, move: Note) returns (ok: bool)
      requires Valid()
      modifies this
      ensures Did(hash, WriteTransition(hash, old(Books()), who, target, now, move), ok, old(Books()), Books())
    {
      hide DisposalGrounds, L.LifecycleGood, View, Illegible, AllBuilt, RolesOwn, Line, LifeEvent, UidOf;
      ViewFields(Books());
      if attached.None? {
        return false;
      }
      var state := LifecycleRead();
      if state.Refused? {
        return false;
      }
      var from, erasure := state.value, "";
      if from == target || L.MoveOf(from, target) != Some(L.CaseTransition) {
        return false;
      }
      if target == L.Disposed {
        if !Disposer(who.role) {
          return false;
        }
        var grounds := CaseDisposalRefusal(now);
        if grounds.Refused? {
          return false;
        }
        erasure := grounds.value;
      }
      var e := LifecycleFor(L.Move("", from, target, "", "", erasure), move);
      Move(e, target);
      return true;
    }

    method CaseAssign(subject: string, role: Assignment, own: Note) returns (ok: bool)
      requires Valid()
      modifies this
      ensures Did(hash, WriteAssign(hash, old(Books()), subject, role, own), ok, old(Books()), Books())
    {
      hide Takes, View, Illegible, AllBuilt, RolesOwn, Line, RoleEvent, RoleOf;
      ViewFields(Books());
      if attached.None? {
        return false;
      }
      var takes := StateTakes(L.Assign);
      if !takes {
        return false;
      }
      var assignments := AssignmentsRead();
      if assignments.Refused? {
        return false;
      }
      var current := if subject in assignments.value then assignments.value[subject] else None;
      if current == role {
        return false;
      }
      WriteAssignment(subject, role, own);
      return true;
    }

    // -------------------------------------------------------------------
    // review_request and review_decide
    // -------------------------------------------------------------------

    /** reviewsRead: every request with its one decision. */
    method ReviewsRead() returns (r: Outcome<seq<V.Review>>)
      requires Valid()
      ensures r.Ok? ==> V.ReviewsGood(caseUid, View(Books()).requests, View(Books()).decisions)
      ensures r.Ok? ==> AreReviews(View(Books()), r.value) && Line("review", requests)
      ensures r.Ok? ==> forall i | 0 <= i < |requests| ::
                          Line("decision", LineAt(Books(), Decisions(UidOf("review", requests[i]))))
      ensures r.Refused? ==> !V.ReviewsGood(caseUid, View(Books()).requests, View(Books()).decisions)
                             || Illegible(hash, Books())
    {
      hide V.ReviewsGood, V.ReadOne, Legible, AllBuilt, RolesOwn, Line, UidOf, View, V.DecisionsOf, DecisionsOf, LineAt;
      hide RequestsOf;
      RequestsAre(Books());
      var line := ReadChain(Requests);
      if line.Refused? {
        return Refused;
      }
      var ds: V.Decisions, i: nat := map[], 0;
      while i < |requests|
        invariant i <= |requests|
        invariant forall k | 0 <= k < i :: UidOf("review", requests[k]) in ds
        invariant forall u | u in ds :: ds[u] == DecisionsOf(LineAt(Books(), Decisions(u)))
        invariant forall u | u in ds :: Line("decision", LineAt(Books(), Decisions(u)))
        decreases |requests| - i
      {
        var uid := UidOf("review", requests[i]);
        var decided := ReadChain(Decisions(uid));
        if decided.Refused? {
          return Refused;
        }
        ds := ds[uid := DecisionsOf(decided.value)];
        i := i + 1;
      }
      ghost var s := View(Books());
      forall k | 0 <= k < |s.requests|
        ensures V.DecisionsOf(ds, s.requests[k].uid) == V.DecisionsOf(s.decisions, s.requests[k].uid)
      {
        DecisionsAt(Books(), s.requests[k].uid, ds);
      }
      SameReviews(caseUid, s.requests, ds, s.decisions);
      r := V.ReviewsRead(caseUid, RequestsOf(line.value), ds);
    }

    /** The loop of review_request over the reviews that are open. */
    method OpenReview(reviews: seq<V.Review>, kind: V.SubjectKind, subject: string) returns (open: bool)
      requires AreReviews(View(Books()), reviews)
      ensures open <==> V.HasOpen(View(Books()).requests, View(Books()).decisions, kind, subject)
    {
      hide View, V.DecisionsOf;
      ghost var s := View(Books());
      var i: nat := 0;
      while i < |reviews|
        invariant i <= |reviews|
        invariant forall k | 0 <= k < i ::
                    var r := s.requests[k];
                    !(r.kind == kind && r.subject == subject && V.Undecided(s.decisions, r))
        decreases |reviews| - i
      {
        var review := reviews[i];
        if review.decision.None? && review.request.kind == kind && review.request.subject == subject {
          return true;
        }
        i := i + 1;
      }
      return false;
    }

    method ReviewRequest(who: Actor, kind: V.SubjectKind, key: string, found: bool, manifestHead: string, own: Note,
                         move: Note) returns (ok: bool)
      requires Valid()
      modifies this
      ensures Did(hash, WriteRequest(hash, old(Books()), who, kind, key, found, manifestHead, own, move), ok,
                  old(Books()), Books())
    {
      hide V.ReviewsGood, V.HasOpen, L.LifecycleGood, View, Illegible, AllBuilt, RolesOwn, Line, LifeEvent, UidOf, Next;
      hide Head, RequestFields, AreReviews;
      ViewFields(Books());
      if attached.None? || kind.OtherKind? {
        return false;
      }
      var takes := StateTakes(L.Review);
      if !takes {
        return false;
      }
      var state := LifecycleRead();
      if state.Refused? {
        return false;
      }
      if kind == V.Case {
        HeadIs(Books());
        if state.value != L.Active || manifestHead != HeadUid("lifecycle", lifecycle) {
          return false;
        }
      } else if !found {
        return false;
      }
      var subject := if kind == V.Case then caseUid else key;
      var reviews := ReviewsRead();
      if reviews.Refused? {
        return false;
      }
      var open := OpenReview(reviews.value, kind, subject);
      if open {
        return false;
      }
      var r := V.Request("", caseUid, kind, subject, who.name);
      var e := Append(Requests, requests, RequestFields(r, own.fields), own.id);
      if kind == V.Case {
        var m := LifecycleFor(L.Move("", L.Active, L.InReview, UidOf("review", e), "", ""), move);
        requests := requests + [e];
        Move(m, L.InReview);
      } else {
        requests := requests + [e];
      }
      return true;
    }

    /** What review_decide asks before it writes. */
    method Deciding(who: Actor, requestUid: string, decision: V.Decision) returns (r: Outcome<V.Request>)
      requires Valid()
      ensures r == Decidable(View(Books()), who, requestUid, decision) || (r.Refused? && Illegible(hash, Books()))
      ensures r.Ok? ==> Line("lifecycle", lifecycle) && Line("decision", LineAt(Books(), Decisions(requestUid)))
    {
      hide V.ReviewsGood, V.Find, L.LifecycleGood, View, Illegible, AllBuilt, RolesOwn, Line, UidOf, V.DecisionsOf;
      hide Head, RequestsOf;
      ViewFields(Books());
      if attached.None? || decision.OtherDecision? || !who.role.Reviewer? {
        return Refused;
      }
      var takes := StateTakes(L.Review);
      if !takes {
        return Refused;
      }
      var reviews := ReviewsRead();
      if reviews.Refused? {
        return Refused;
      }
      RequestsAre(Books());
      var found := V.Find(RequestsOf(requests), requestUid);
      if found.None? {
        return Refused;
      }
      var review := reviews.value[found.value];
      if review.decision.Some? || review.request.actor == who.name {
        return Refused;
      }
      var state := LifecycleRead();
      if state.Refused? {
        return Refused;
      }
      if review.request.kind == V.Case {
        HeadReviewIs(Books());
        if state.value != L.InReview || HeadReview(lifecycle) != requestUid {
          return Refused;
        }
      }
      return Ok(review.request);
    }

    method ReviewDecide(who: Actor, requestUid: string, decision: V.Decision, own: Note, move: Note) returns (ok: bool)
      requires Valid()
      modifies this
      ensures Did(hash, WriteDecide(hash, old(Books()), who, requestUid, decision, own, move), ok, old(Books()), Books())
    {
      hide Decidable, View, Illegible, AllBuilt, RolesOwn, Line, LifeEvent, UidOf, Next, DecisionFields, DecidedMove;
      var request := Deciding(who, requestUid, decision);
      if request.Refused? {
        return false;
      }
      var line := if requestUid in decisions then decisions[requestUid] else [];
      var d := V.Decided(requestUid, caseUid, decision, who.name, who.role);
      var e := Append(Decisions(requestUid), line, DecisionFields(d, own.fields), own.id);
      var m := LifecycleFor(DecidedMove(requestUid, decision), move);
      decisions := decisions[requestUid := line + [e]];
      if request.value.kind == V.Case {
        Move(m, DecidedMove(requestUid, decision).to);
      }
      return true;
    }

    // -------------------------------------------------------------------
    // retention_set, retention_hold and retention_release
    // -------------------------------------------------------------------

    method RetainUntil(until: int, own: Note, move: Note) returns (ok: bool)
      requires Valid()
      modifies this
      ensures Did(hash, WriteRetention(hash, old(Books()), until, own, move), ok, old(Books()), Books())
    {
      hide T.RetentionGood, T.Period, L.LifecycleGood, T.HoldsInForce, Written, LifeEvent, Next, UidOf, RetentionFields;
      hide View, Illegible, AllBuilt, RolesOwn, Line;
      ViewFields(Books());
      if attached.None? {
        return false;
      }
      var takes := StateTakes(L.Retain);
      if !takes {
        return false;
      }
      var state := LifecycleRead();
      if state.Refused? || (state.value != L.Concluded && state.value != L.Retained) {
        return false;
      }
      var kept := RetentionRead();
      if kept.Refused? || kept.value.until == Some(until) {
        return false;
      }
      var e := Append(Retention, retention, RetentionFields(caseUid, Until(until), own.fields), own.id);
      var m := LifecycleFor(L.Move("", L.Concluded, L.Retained, "", UidOf("retention", e), ""), move);
      retention := retention + [e];
      if state.value == L.Concluded {
        Move(m, L.Retained);
      }
      return true;
    }

    /** retention_set, from the text it is given. */
    method RetentionSet(text: string, own: Note, move: Note) returns (ok: bool)
      requires Valid()
      modifies this
      ensures match Times.Given(text)
              case None => !ok && Books() == old(Books())
              case Some(until) => Did(hash, WriteRetention(hash, old(Books()), until, own, move), ok, old(Books()), Books())
    {
      hide WriteRetention, Illegible, AllBuilt, RolesOwn, Times.Given;
      var until := Times.Given(text);
      if until.None? {
        return false;
      }
      ok := RetainUntil(until.value, own, move);
    }

    method RetentionHold(own: Note) returns (ok: bool)
      requires Valid()
      modifies this
      ensures Did(hash, WriteHold(hash, old(Books()), own), ok, old(Books()), Books())
    {
      hide T.RetentionGood, Takes, Next, UidOf, RetentionFields, View, Illegible, AllBuilt, RolesOwn, Line, T.Read;
      ViewFields(Books());
      if attached.None? {
        return false;
      }
      var takes := StateTakes(L.Retain);
      if !takes {
        return false;
      }
      var kept := RetentionRead();
      if kept.Refused? {
        return false;
      }
      var e := Append(Retention, retention, RetentionFields(caseUid, Holding, own.fields), own.id);
      retention := retention + [e];
      return true;
    }

    method RetentionRelease(hold: string, own: Note) returns (ok: bool)
      requires Valid()
      modifies this
      ensures Did(hash, WriteLift(hash, old(Books()), hold, own), ok, old(Books()), Books())
    {
      hide T.RetentionGood, Takes, T.HoldsInForce, Next, UidOf, RetentionFields, View, Illegible, AllBuilt, RolesOwn, Line;
      ViewFields(Books());
      if attached.None? {
        return false;
      }
      var takes := StateTakes(L.Retain);
      if !takes {
        return false;
      }
      var kept := RetentionRead();
      if kept.Refused? {
        return false;
      }
      var holds, found, i: nat := kept.value.holds, false, 0;
      while i < |holds|
        invariant i <= |holds|
        invariant found <==> exists k :: 0 <= k < i && holds[k].uid == hold
        decreases |holds| - i
      {
        if holds[i].uid == hold {
          found := true;
        }
        i := i + 1;
      }
      if !found {
        return false;
      }
      var e := Append(Retention, retention, RetentionFields(caseUid, Lifting(hold), own.fields), own.id);
      retention := retention + [e];
      return true;
    }

    // -------------------------------------------------------------------
    // record_erase and case_key_erase, as what they record
    // -------------------------------------------------------------------

    /** retentionHoldRefusal. */
    method HoldRefusal() returns (refused: bool)
      requires Valid()
      ensures !refused ==> NoHold(View(Books()))
      ensures refused ==> !NoHold(View(Books())) || Illegible(hash, Books())
    {
      hide T.RetentionGood, T.HoldsInForce, View, Illegible, AllBuilt, RolesOwn, Line;
      ViewFields(Books());
      var kept := RetentionRead();
      refused := kept.Refused? || |kept.value.holds| > 0;
    }

    /** What record_erase and case_key_erase ask of the ledger and record in it. */
    method Erasure(who: Actor, erased: E.Erased, own: Note) returns (ok: bool)
      requires Valid()
      modifies this
      ensures Did(hash, WriteErasure(hash, old(Books()), who, erased, own), ok, old(Books()), Books())
    {
      hide NoHold, Takes, E.ErasuresGood, E.KeyErasure, E.IsRecordUid, E.ParseGenerations, ErasureFields;
      hide Next, UidOf, View, Illegible, AllBuilt, RolesOwn, Line;
      ViewFields(Books());
      if attached.None? || !Disposer(who.role) || !E.Check(caseUid, E.Event("", caseUid, erased)) {
        return false;
      }
      var takes := StateTakes(L.Erase);
      if !takes {
        return false;
      }
      var held := HoldRefusal();
      if held {
        return false;
      }
      var key := ErasureRead();
      if key.Refused? || key.value.Some? {
        return false;
      }
      var e := Append(Erasures, erasures, ErasureFields(caseUid, erased, own.fields), own.id);
      erasures := erasures + [e];
      return true;
    }

    // -------------------------------------------------------------------
    // evidence_intake, _release, _accept, _return and _dispose
    // -------------------------------------------------------------------

    /** evidenceRead. */
    method EvidenceRead(exhibit: string) returns (r: Outcome<Option<Item>>)
      requires Valid()
      ensures var seen, u := Exhibit(hash, View(Books()), exhibit), EvidenceUid(hash, caseUid, exhibit);
              match r
              case Refused => seen.Refused? || Illegible(hash, Books())
              case Ok(None) => seen == Ok(None) && u !in exhibits
              case Ok(Some(x)) =>
                seen == Ok(Some(ExhibitOf(x))) && u in exhibits && exhibits[u] == x && Line("custody", x.events)
    {
      hide C.Accepted, EvidenceUid, View, Illegible, AllBuilt, RolesOwn, Line, ExhibitOf;
      ViewFields(Books());
      var uid := EvidenceUid(hash, caseUid, exhibit);
      if uid !in exhibits {
        return Ok(None);
      }
      var x := exhibits[uid];
      ExhibitFields(x);
      if x.caseUid != caseUid || x.name != exhibit {
        return Refused;
      }
      var accepted := ItemRead(uid);
      return if accepted then Ok(Some(x)) else Refused;
    }

    /** evidenceAppend. */
    method EvidenceAppend(x: Item, y: C.Event, own: Note)
      requires x.events == LineAt(Books(), Custody(y.evidenceUid)) && Line("custody", x.events)
      modifies this
      ensures Books() == WithCustodyEvent(old(Books()), y.evidenceUid, x, CustodyEvent(hash, old(Books()), y, own))
    {
      hide Line, Next, CustodyFields;
      var e := Append(Custody(y.evidenceUid), x.events, CustodyFields(y, own.fields), own.id);
      exhibits := exhibits[y.evidenceUid := x.(events := x.events + [e])];
    }

    method EvidenceIntake(who: Actor, exhibit: string, digest: string, described: bool, discrepancy: string, own: Note)
      returns (ok: bool)
      requires Valid()
      modifies this
      ensures Did(hash, WriteTakeIn(hash, old(Books()), who, exhibit, digest, described, discrepancy, own), ok,
                  old(Books()), Books())
    {
      hide C.Accepted, EvidenceUid, Takes, Exhibit, RoleOf, View, Illegible, AllBuilt, RolesOwn, Line, CustodyEvent, UidOf;
      hide ExhibitOf, CustodyOf;
      ViewFields(Books());
      if attached.None? || digest == "" {
        return false;
      }
      var assignments := AssignmentsRead();
      if assignments.Refused? || who.name !in assignments.value || assignments.value[who.name].None? {
        return false;
      }
      var evidence := EvidenceUid(hash, caseUid, exhibit);
      var existing := EvidenceRead(exhibit);
      if existing.Refused? {
        return false;
      }
      if existing.value.Some? {
        var x := existing.value.value;
        ExhibitFields(x);
        var custody := CustodyOf(x.events);
        if !C.StateOf(custody).Returned? || described || (digest != x.digest && discrepancy == "") {
          return false;
        }
        EvidenceAppend(x, C.Custody("", C.Reintake, evidence, who.name, "", digest, C.Comparison(digest, x.digest),
                                    discrepancy), own);
        return true;
      }
      var takes := StateTakes(L.Intake);
      if !takes || discrepancy != "" {
        return false;
      }
      NoLine("custody");
      EvidenceAppend(Item(exhibit, caseUid, digest, []),
                     C.Custody("", C.Intake, evidence, who.name, "", digest, C.NotCompared, ""), own);
      return true;
    }

    /** evidenceHeldBy. */
    method EvidenceHeldBy(who: Actor, exhibit: string) returns (r: Outcome<Item>)
      requires Valid()
      ensures var held, u := HeldBy(hash, View(Books()), who, exhibit), EvidenceUid(hash, caseUid, exhibit);
              match r
              case Refused => held.Refused? || Illegible(hash, Books())
              case Ok(x) => held == Ok(ExhibitOf(x)) && u in exhibits && exhibits[u] == x && Line("custody", x.events)
    {
      hide EvidenceUid, Exhibit, View, Illegible, AllBuilt, RolesOwn, Line;
      var item := EvidenceRead(exhibit);
      if item.Refused? || item.value.None? {
        return Refused;
      }
      var custody := CustodyOf(item.value.value.events);
      if !C.StateOf(custody).Held? || C.HolderOf(custody) != who.name {
        return Refused;
      }
      return Ok(item.value.value);
    }

    /** evidence_release, evidence_return and evidence_dispose. */
    method EvidenceHandOn(who: Actor, exhibit: string, kind: C.Kind, recipient: string, own: Note) returns (ok: bool)
      requires Valid() && (kind.Release? || kind.Return? || kind.Dispose?)
      modifies this
      ensures Did(hash, WriteHandOn(hash, old(Books()), who, exhibit, kind, recipient, own), ok, old(Books()), Books())
    {
      hide EvidenceUid, HeldBy, NoHold, RoleOf, View, Illegible, AllBuilt, RolesOwn, Line, CustodyEvent, UidOf, ExhibitOf;
      ViewFields(Books());
      if attached.None? || (kind.Dispose? && !Disposer(who.role)) {
        return false;
      }
      var item := EvidenceHeldBy(who, exhibit);
      if item.Refused? {
        return false;
      }
      if kind.Release? {
        var assignments := AssignmentsRead();
        if assignments.Refused? || recipient == who.name || recipient !in assignments.value
           || assignments.value[recipient].None? {
          return false;
        }
      }
      if kind.Dispose? {
        var held := HoldRefusal();
        if held {
          return false;
        }
      }
      EvidenceAppend(item.value, C.Custody("", kind, EvidenceUid(hash, caseUid, exhibit), who.name,
                                           if kind.Dispose? then "" else recipient, "", C.NotCompared, ""), own);
      return true;
    }

    method EvidenceAccept(who: Actor, exhibit: string, digest: string, discrepancy: string, own: Note)
      returns (ok: bool)
      requires Valid()
      modifies this
      ensures Did(hash, WriteTakeOver(hash, old(Books()), who, exhibit, digest, discrepancy, own), ok, old(Books()),
                  Books())
    {
      hide EvidenceUid, Exhibit, View, Illegible, AllBuilt, RolesOwn, Line, CustodyEvent, UidOf, ExhibitOf, CustodyOf;
      ViewFields(Books());
      if attached.None? || digest == "" {
        return false;
      }
      var item := EvidenceRead(exhibit);
      if item.Refused? || item.value.None? {
        return false;
      }
      var x := item.value.value;
      ExhibitFields(x);
      var custody := CustodyOf(x.events);
      if !C.StateOf(custody).InTransit? || C.RecipientOf(custody) != who.name {
        return false;
      }
      if digest != x.digest && discrepancy == "" {
        return false;
      }
      EvidenceAppend(x, C.Custody("", C.Accept, EvidenceUid(hash, caseUid, exhibit), who.name, "", digest,
                                  C.Comparison(digest, x.digest), discrepancy), own);
      return true;
    }

    // -------------------------------------------------------------------
    // Any of them
    // -------------------------------------------------------------------

    method Perform(x: Call) returns (ok: bool)
      requires Valid()
      modifies this
      ensures Valid() && Did(hash, Write(hash, old(Books()), x), ok, old(Books()), Books())
      ensures Fits(old(Books())) && !Clashing(hash, old(Books())) ==>
                Made(Write(hash, old(Books()), x), ok, old(Books()), Books())
    {
      hide View, WriteAttach, WriteTransition, WriteAssign, WriteRequest, WriteDecide, WriteRetention, WriteHold, WriteLift,
        WriteErasure, WriteTakeIn, WriteHandOn, WriteTakeOver, Illegible, AllBuilt, RolesOwn, ProperRole, Fits, Clashing;
      if Fits(Books()) {
        IllegibleClashes(hash, Books());
      }
      if !Proper(x.action) {
        return false;
      }
      match x.action {
        case DoAttach(who, asserted, _) => ok := CaseAttach(who, asserted, x.own, x.move);
        case DoDetach => ok := CaseDetach();
        case DoTransition(who, target, now, _) => ok := CaseTransition(who, target, now, x.move);
        case DoAssign(subject, role) => ok := CaseAssign(subject, role, x.own);
        case DoRequest(who, kind, key, found, head, _, _) =>
          ok := ReviewRequest(who, kind, key, found, head, x.own, x.move);
        case DoDecide(who, request, decision, _) => ok := ReviewDecide(who, request, decision, x.own, x.move);
        case DoSetRetention(until, _, _) => ok := RetainUntil(until, x.own, x.move);
        case DoHold(_) => ok := RetentionHold(x.own);
        case DoLift(hold, _) => ok := RetentionRelease(hold, x.own);
        case DoErase(who, erased, _) => ok := Erasure(who, erased, x.own);
        case DoTakeIn(who, exhibit, digest, described, discrepancy, _) =>
          ok := EvidenceIntake(who, exhibit, digest, described, discrepancy, x.own);
        case DoRelease(who, exhibit, recipient, _) => ok := EvidenceHandOn(who, exhibit, C.Release, recipient, x.own);
        case DoAccept(who, exhibit, digest, discrepancy, _) =>
          ok := EvidenceAccept(who, exhibit, digest, discrepancy, x.own);
        case DoReturn(who, exhibit, recipient, _) => ok := EvidenceHandOn(who, exhibit, C.Return, recipient, x.own);
        case DoDispose(who, exhibit, _) => ok := EvidenceHandOn(who, exhibit, C.Dispose, "", x.own);
      }
      if ok {
        WriteKeeps(hash, old(Books()), x);
      }
    }
  }

  lemma WriteKeeps(h: Hash, l: Ledger, x: Call)
    requires AllBuilt(h, l) && RolesOwn(l) && Write(h, l, x).Ok?
    ensures AllBuilt(h, Write(h, l, x).value) && RolesOwn(Write(h, l, x).value)
  {
    hide AllBuilt, RolesOwn, Write, Step, Filled, View, Extends;
    WrittenIsProper(h, l, x);
    WriteRefines(h, l, x);
    ExtendsKeepsBuilt(h, l, Write(h, l, x).value);
    WriteKeepsOwn(h, l, x);
  }

  lemma RunsMore(h: Hash, ledgers: seq<Ledger>, calls: seq<Call>, x: Call, l: Ledger)
    requires Runs(h, ledgers, calls) && Write(h, ledgers[|ledgers| - 1], x) == Ok(l)
    ensures Runs(h, ledgers + [l], calls + [x])
  {
    hide Write, Empty;
  }

  /**
   * Any calls at all, in any order, by anyone, on a new case: those not refused are a run of the ledger, so what every
   * run keeps holds of the store, and caseChainRead returns every chain in it as it was written; or two of the texts it
   * hashed clash. The retention chain is accepted exactly if every period set has a year that can be read.
   */
  method PerformAll(hash: Hash, caseUid: string, calls: seq<Call>)
    returns (store: Store, ghost ledgers: seq<Ledger>, ghost made: seq<Call>)
    ensures fresh(store) && store.hash == hash && store.caseUid == caseUid
    ensures Runs(hash, ledgers, made) && store.Books() == ledgers[|ledgers| - 1]
    ensures Fits(store.Books()) ==>
              || (AllRead(hash, store.Books()) && RolesOwn(store.Books()) && RolesApart(hash, store.Books())
                  && H.InOrder(hash, View(store.Books())) && H.AllHoldersNamed(View(store.Books())))
              || Clashing(hash, store.Books())
    ensures T.RetentionGood(caseUid, View(store.Books()).retention) <==> PeriodsSayable(made, |made|)
  {
    hide Runs, Write, AllRead, H.InOrder, View, Clashing, Fits, AllBuilt, RolesOwn, Illegible, RolesApart;
    hide H.AllHoldersNamed, T.RetentionGood, PeriodsSayable;
    store := new Store(hash, caseUid);
    ledgers, made := [store.Books()], [];
    RunsStart(hash, caseUid);
    var i: nat := 0;
    while i < |calls|
      invariant i <= |calls| && fresh(store) && store.hash == hash && store.caseUid == caseUid && store.Valid()
      invariant |ledgers| > 0 && Runs(hash, ledgers, made) && store.Books() == ledgers[|ledgers| - 1]
      decreases |calls| - i
    {
      var ok := store.Perform(calls[i]);
      if ok {
        RunsMore(hash, ledgers, made, calls[i], store.Books());
        ledgers, made := ledgers + [store.Books()], made + [calls[i]];
      }
      i := i + 1;
    }
    RunsLength(hash, ledgers, made);
    if Fits(store.Books()) {
      EveryLedger(hash, ledgers, made, |ledgers| - 1);
    }
    RunsReadRetention(hash, ledgers, made, |ledgers| - 1);
  }

  lemma RunsLength(h: Hash, ledgers: seq<Ledger>, calls: seq<Call>)
    requires Runs(h, ledgers, calls)
    ensures |ledgers| == |calls| + 1
  {
    hide Write;
  }

  lemma RunsStart(h: Hash, caseUid: string)
    ensures Runs(h, [Empty(caseUid)], [])
  {
    hide Write;
  }

  lemma LatestIs(l: Ledger, n: string)
    ensures var line := LineAt(l, Roles(n));
            RoleOf(View(l).roles, n) == if line == [] then None else RoleFrom(line[|line| - 1])
  {
    hide RoleFrom, MovesOf, RequestsOf, DecisionsOf, RetentionOf, ErasuresOf, ExhibitOf;
  }

  lemma LatestAre(l: Ledger, out: map<string, Assignment>)
    requires (forall n | n in l.roles :: l.roles[n] != []) && out.Keys == l.roles.Keys
    requires forall n | n in out :: out[n] == RoleFrom(l.roles[n][|l.roles[n]| - 1])
    ensures out == map[] <==> View(l).roles == map[]
    ensures forall n :: RoleOf(View(l).roles, n) == if n in out then out[n] else None
  {
    hide RoleFrom, View, RoleOf;
    ViewFields(l);
    assert out == map[] <==> out.Keys == {};
    assert View(l).roles == map[] <==> View(l).roles.Keys == {};
    forall n
      ensures RoleOf(View(l).roles, n) == if n in out then out[n] else None
    {
      LatestIs(l, n);
    }
  }

  lemma LastMove(l: Ledger)
    requires l.lifecycle != []
    ensures Head(View(l).lifecycle) == MoveFrom(l.lifecycle[|l.lifecycle| - 1])
    ensures Head(View(l).lifecycle).uid == UidOf("lifecycle", l.lifecycle[|l.lifecycle| - 1])
  {
    hide UidOf, StateOfWord;
  }

  lemma ExhibitFields(x: Item)
    ensures var y := ExhibitOf(x);
            y.name == x.name && y.caseUid == x.caseUid && y.digest == x.digest && y.events == CustodyOf(x.events)
  {
  }

  lemma HeadIs(l: Ledger)
    ensures Head(View(l).lifecycle).uid == HeadUid("lifecycle", l.lifecycle)
  {
    hide UidOf, StateOfWord;
  }

  /** Each request of the case as it is read, with its decision. */
  predicate AreReviews(s: State, reviews: seq<V.Review>) {
    && |reviews| == |s.requests|
    && forall i | 0 <= i < |reviews| :: reviews[i] == V.ReadOne(s.decisions, s.requests[i])
  }

  lemma RequestsAre(l: Ledger)
    ensures View(l).requests == RequestsOf(l.requests) && |View(l).requests| == |l.requests|
    ensures forall i | 0 <= i < |l.requests| :: View(l).requests[i].uid == UidOf("review", l.requests[i])
    ensures LineAt(l, Requests) == l.requests && PrefixOf(Requests) == "review"
    ensures forall u :: PrefixOf(Decisions(u)) == "decision"
  {
    hide UidOf;
  }

  lemma DecisionsAt(l: Ledger, u: string, ds: V.Decisions)
    requires u in ds && ds[u] == DecisionsOf(LineAt(l, Decisions(u)))
    ensures V.DecisionsOf(ds, u) == V.DecisionsOf(View(l).decisions, u)
  {
  }

  lemma SameReviews(caseUid: string, requests: seq<V.Request>, a: V.Decisions, b: V.Decisions)
    requires forall i | 0 <= i < |requests| :: V.DecisionsOf(a, requests[i].uid) == V.DecisionsOf(b, requests[i].uid)
    ensures V.ReviewsGood(caseUid, requests, a) <==> V.ReviewsGood(caseUid, requests, b)
    ensures forall i | 0 <= i < |requests| :: V.ReadOne(a, requests[i]) == V.ReadOne(b, requests[i])
  {
    hide V.DecisionsOf;
    assert forall i | 0 <= i < |requests| ::
        V.RequestGood(caseUid, a, requests[i]) <==> V.RequestGood(caseUid, b, requests[i]);
  }

  /** The review the last move was made for. */
  function HeadReview(lifecycle: seq<Event>): string {
    if lifecycle == [] then "" else Field("lifecycle", lifecycle[|lifecycle| - 1], "review_uid")
  }

  lemma HeadReviewIs(l: Ledger)
    ensures Head(View(l).lifecycle).reviewUid == HeadReview(l.lifecycle)
  {
    hide UidOf, StateOfWord, Field;
  }

  lemma NoLine(prefix: string)
    ensures Line(prefix, [])
  {
  }
}
