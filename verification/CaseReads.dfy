// Runs of the builtins on the chains themselves. Every event's uid is computed
// from what it records, its position and the event before it, so every chain
// is read as it was written and the chains agree, unless two of the texts
// that were hashed clash.
module CaseReads {
  import opened Common
  import Text
  import opened Digest
  import opened ChainUid
  import opened CaseChain
  import opened CaseProps
  import opened CaseLedger
  import opened CaseRuns
  import opened CaseBooks
  import opened CaseWrites
  import H = CaseHistory
  import V = CaseReview
  import Times
  import L = CaseLifecycle
  import T = CaseRetention
  import E = CaseErasure

  /** The ledgers calls pass through; a refused call changes nothing and is not among them. */
  ghost predicate Runs(h: Hash, ledgers: seq<Ledger>, calls: seq<Call>) {
    && |ledgers| == |calls| + 1 && ledgers[0] == Empty(ledgers[0].caseUid)
    && forall i | 0 <= i < |calls| :: Write(h, ledgers[i], calls[i]) == Ok(ledgers[i + 1])
  }

  function Views(ledgers: seq<Ledger>): (states: seq<State>)
    ensures |states| == |ledgers| && forall i | 0 <= i < |ledgers| :: states[i] == View(ledgers[i])
  {
    seq(|ledgers|, i requires 0 <= i < |ledgers| => View(ledgers[i]))
  }

  ghost function Actions(h: Hash, ledgers: seq<Ledger>, calls: seq<Call>): (actions: seq<Action>)
    requires |calls| <= |ledgers|
    ensures |actions| == |calls| && forall i | 0 <= i < |calls| :: actions[i] == Filled(h, ledgers[i], calls[i])
  {
    seq(|calls|, i requires 0 <= i < |calls| => Filled(h, ledgers[i], calls[i]))
  }

  /** What is read along a run of calls is a run of the case: all that CaseHistory says of runs holds of it. */
  lemma RunsAreRuns(h: Hash, ledgers: seq<Ledger>, calls: seq<Call>)
    requires Runs(h, ledgers, calls)
    ensures H.Run(h, Views(ledgers), Actions(h, ledgers, calls))
  {
    hide Step, Write, View, Filled;
    ViewOfEmpty(ledgers[0].caseUid);
    forall i | 0 <= i < |calls|
      ensures Step(h, View(ledgers[i]), Filled(h, ledgers[i], calls[i])) == Ok(View(ledgers[i + 1]))
    {
      assert Write(h, ledgers[i], calls[i]) == Ok(ledgers[i + 1]);
      WrittenIsProper(h, ledgers[i], calls[i]);
      WriteRefines(h, ledgers[i], calls[i]);
    }
    EmptyName(ledgers[0]);
  }

  lemma WrittenIsProper(h: Hash, l: Ledger, x: Call)
    requires Write(h, l, x).Ok?
    ensures Proper(x.action)
  {
    hide View, WriteAttach, WriteTransition, WriteAssign, WriteRequest, WriteDecide, WriteRetention, WriteHold, WriteLift,
      WriteErasure, WriteTakeIn, WriteHandOn, WriteTakeOver;
  }

  lemma EmptyName(l: Ledger)
    ensures View(l).caseUid == l.caseUid
  {
  }

  lemma RunsKeepInv(h: Hash, ledgers: seq<Ledger>, calls: seq<Call>, i: nat)
    requires Runs(h, ledgers, calls) && i < |ledgers| && V.DistinctUids(View(ledgers[i]).requests)
    ensures Inv(h, View(ledgers[i]))
  {
    hide Write, View, H.Run, Inv, V.DistinctUids, Filled, Empty;
    RunsAreRuns(h, ledgers, calls);
    H.RunKeepsInv(h, Views(ledgers), Actions(h, ledgers, calls), i);
  }

  // ---------------------------------------------------------------------
  // Chains are what was appended
  // ---------------------------------------------------------------------

  /** Each event was appended after the ones before it. */
  ghost predicate Built(h: Hash, caseUid: string, c: Chain, line: seq<Event>) {
    forall i | 0 <= i < |line| :: WasAppended(h, PrefixOf(c), NameOf(h, caseUid, c), line[..i], line[i])
  }

  ghost predicate AllBuilt(h: Hash, l: Ledger) {
    forall c :: Built(h, l.caseUid, c, LineAt(l, c))
  }

  lemma BuiltMore(h: Hash, caseUid: string, c: Chain, line: seq<Event>, more: seq<Event>)
    requires Built(h, caseUid, c, line) && OneMore(h, caseUid, c, line, more)
    ensures Built(h, caseUid, c, more)
  {
    hide WasAppended, NameOf, PrefixOf;
    forall i | 0 <= i < |more|
      ensures WasAppended(h, PrefixOf(c), NameOf(h, caseUid, c), more[..i], more[i])
    {
      if i < |line| {
        assert more[..i] == line[..i] && more[i] == line[i];
      }
    }
  }

  lemma ExtendsKeepsBuilt(h: Hash, l: Ledger, l': Ledger)
    requires AllBuilt(h, l) && Extends(h, l, l')
    ensures AllBuilt(h, l')
  {
    hide Built, OneMore, LineAt;
    forall c
      ensures Built(h, l'.caseUid, c, LineAt(l', c))
    {
      assert Built(h, l.caseUid, c, LineAt(l, c));
      if LineAt(l', c) != LineAt(l, c) {
        BuiltMore(h, l.caseUid, c, LineAt(l, c), LineAt(l', c));
      }
    }
  }

  lemma EmptyBuilt(h: Hash, caseUid: string)
    ensures AllBuilt(h, Empty(caseUid))
  {
  }

  lemma {:induction false} RunsBuild(h: Hash, ledgers: seq<Ledger>, calls: seq<Call>, i: nat)
    requires Runs(h, ledgers, calls) && i < |ledgers|
    ensures AllBuilt(h, ledgers[i])
  {
    hide Write, AllBuilt, Empty, Step, Filled, Extends;
    if i == 0 {
      EmptyBuilt(h, ledgers[0].caseUid);
    } else {
      RunsBuild(h, ledgers, calls, i - 1);
      assert Write(h, ledgers[i - 1], calls[i - 1]) == Ok(ledgers[i]);
      WrittenIsProper(h, ledgers[i - 1], calls[i - 1]);
      WriteRefines(h, ledgers[i - 1], calls[i - 1]);
      ExtendsKeepsBuilt(h, ledgers[i - 1], ledgers[i]);
    }
  }

  // ---------------------------------------------------------------------
  // Reading them
  // ---------------------------------------------------------------------

  /** No chain is as long as a machine word counts, and no text as long as its frame can say. */
  ghost predicate Fits(l: Ledger) {
    forall c :: |LineAt(l, c)| < Text.WORD && forall i | 0 <= i < |LineAt(l, c)| :: ShortProps(LineAt(l, c)[i].props)
  }

  /** Two events of one chain, or the names of two people assigned, are different texts with one digest. */
  ghost predicate Clashing(h: Hash, l: Ledger) {
    || (exists c :: HasClash(h, PrefixOf(c), LineAt(l, c)))
    || (exists a, b :: a in l.roles && b in l.roles && RoleClash(h, a, b))
  }

  ghost predicate RoleClash(h: Hash, a: string, b: string) {
    Clash(h, "mutant-examiner-v1|" + a, "mutant-examiner-v1|" + b)
  }

  lemma BuiltIsGenuine(h: Hash, caseUid: string, c: Chain, line: seq<Event>)
    requires Built(h, caseUid, c, line) && |line| < Text.WORD
    requires forall i | 0 <= i < |line| :: ShortProps(line[i].props)
    ensures GenuineLine(h, PrefixOf(c), line)
  {
    hide Appended, Genuine, SeqOf, PrevOf, HeadUid, ShortProps, NameOf, PrefixOf;
    assert Text.Short(PrefixOf(c)) by {
      PrefixShort(c);
    }
    forall i | 0 <= i < |line|
      ensures Genuine(h, PrefixOf(c), line[i])
      ensures PrevOf(PrefixOf(c), line[i]) == HeadUid(PrefixOf(c), line[..i]) && SeqOf(PrefixOf(c), line[i]) == i + 1
    {
      assert WasAppended(h, PrefixOf(c), NameOf(h, caseUid, c), line[..i], line[i]);
      var props, id :| line[i] == Appended(h, PrefixOf(c), NameOf(h, caseUid, c), line[..i], props, id);
      AppendedShape(h, PrefixOf(c), NameOf(h, caseUid, c), line[..i], props, id);
    }
  }

  lemma PrefixShort(c: Chain)
    ensures Text.Short(PrefixOf(c))
  {
  }

  /** Whatever order the nodes of a chain come in, caseChainRead returns the chain as it was written. */
  ghost predicate AllRead(h: Hash, l: Ledger) {
    forall c, nodes | multiset(nodes) == multiset(AsNodes(LineAt(l, c))) ::
      ReadsAs(h, PrefixOf(c), nodes, Ok(LineAt(l, c)))
  }

  lemma BuiltIsRead(h: Hash, l: Ledger)
    requires AllBuilt(h, l) && Fits(l) && !Clashing(h, l)
    ensures AllRead(h, l)
  {
    hide Built, ReadsAs, GenuineLine, HasClash, LineAt, PrefixOf, ShortProps;
    forall c, nodes | multiset(nodes) == multiset(AsNodes(LineAt(l, c)))
      ensures ReadsAs(h, PrefixOf(c), nodes, Ok(LineAt(l, c)))
    {
      assert Built(h, l.caseUid, c, LineAt(l, c));
      BuiltIsGenuine(h, l.caseUid, c, LineAt(l, c));
      LineReads(h, PrefixOf(c), LineAt(l, c), nodes);
    }
  }

  lemma RequestsDistinct(h: Hash, l: Ledger)
    requires AllBuilt(h, l) && Fits(l) && !Clashing(h, l)
    ensures V.DistinctUids(View(l).requests)
  {
    hide Built, GenuineLine, HasClash, ShortProps, UidOf, Field, View, AllBuilt, RequestFrom;
    assert LineAt(l, Requests) == l.requests && PrefixOf(Requests) == "review";
    assert Built(h, l.caseUid, Requests, l.requests) by {
      BuiltAt(h, l, Requests);
    }
    BuiltIsGenuine(h, l.caseUid, Requests, l.requests);
    assert !HasClash(h, PrefixOf(Requests), LineAt(l, Requests));
    forall i, j | 0 <= i < j < |l.requests|
      ensures UidOf("review", l.requests[i]) != UidOf("review", l.requests[j])
    {
      UidsDistinct(h, "review", l.requests, i, j);
    }
    RequestUids(l);
  }

  lemma BuiltAt(h: Hash, l: Ledger, c: Chain)
    requires AllBuilt(h, l)
    ensures Built(h, l.caseUid, c, LineAt(l, c))
  {
    hide Built, LineAt;
  }

  lemma RequestUids(l: Ledger)
    ensures |View(l).requests| == |l.requests|
    ensures forall i | 0 <= i < |l.requests| :: View(l).requests[i].uid == UidOf("review", l.requests[i])
  {
    hide UidOf, Field;
    assert View(l).requests == RequestsOf(l.requests);
  }

  // ---------------------------------------------------------------------
  // Assignments are each in their own chain
  // ---------------------------------------------------------------------

  /** What assignmentChainRead asks of the events it finds in each chain. */
  predicate RolesOwn(l: Ledger) {
    && (forall n | n in l.roles :: l.roles[n] != [])
    && (forall n, i | n in l.roles && 0 <= i < |l.roles[n]| :: RoleOwn(l.caseUid, n, l.roles[n][i]))
  }

  /** A call changes no assignment, or appends one. */
  lemma RolesWritten(h: Hash, l: Ledger, x: Call)
    requires Write(h, l, x).Ok?
    ensures var l' := Write(h, l, x).value;
            || (l'.roles == l.roles && l'.caseUid == l.caseUid)
            || exists name, role: Assignment ::
                 && (role.Some? ==> ProperRole(role.value)) && l'.caseUid == l.caseUid
                 && l'.roles == WithRole(l, name, RoleEvent(h, l, name, role, x.own)).roles
  {
    hide View, Attach, Transition, Assign, RequestReview, DecideReview, SetRetention, PlaceHold, LiftHold, RecordErasure,
      TakeIn, HandOn, TakeOver, UidOf, LifeEvent, KeepingEvent, RequestEvent, ErasureEvent, MoveTo, TakenIn, HandedOn,
      TakenOver, RoleEvent, CustodyEvent, EvidenceUid, Next, HasNames, ProperRole;
    var l' := Write(h, l, x).value;
    if x.action.DoAttach? && l.lifecycle == [] {
      var who := x.action.who;
      assert l'.roles == WithRole(l, who.name, RoleEvent(h, l, who.name, Some(who.role), x.own)).roles;
    } else if x.action.DoAssign? {
      assert l'.roles == WithRole(l, x.action.subject, RoleEvent(h, l, x.action.subject, x.action.role, x.own)).roles;
    }
  }

  lemma WriteKeepsOwn(h: Hash, l: Ledger, x: Call)
    requires RolesOwn(l) && Write(h, l, x).Ok?
    ensures RolesOwn(Write(h, l, x).value)
  {
    hide Write, RoleOwn, RoleEvent, OneMore, RoleFrom;
    var l' := Write(h, l, x).value;
    RolesWritten(h, l, x);
    if l'.roles != l.roles {
      var name, role: Assignment :| (role.Some? ==> ProperRole(role.value))
                        && l'.roles == WithRole(l, name, RoleEvent(h, l, name, role, x.own)).roles;
      RoleEventReads(h, l, name, role, x.own);
    }
  }

  lemma {:induction false} RunsOwn(h: Hash, ledgers: seq<Ledger>, calls: seq<Call>, i: nat)
    requires Runs(h, ledgers, calls) && i < |ledgers|
    ensures RolesOwn(ledgers[i])
  {
    hide Write, RoleOwn;
    if i > 0 {
      RunsOwn(h, ledgers, calls, i - 1);
      assert Write(h, ledgers[i - 1], calls[i - 1]) == Ok(ledgers[i]);
      WriteKeepsOwn(h, ledgers[i - 1], calls[i - 1]);
    }
  }

  /** No two people's assignments are in one chain. */
  ghost predicate RolesApart(h: Hash, l: Ledger) {
    forall a, b | a in l.roles && b in l.roles && a != b :: RoleChain(h, l.caseUid, a) != RoleChain(h, l.caseUid, b)
  }

  lemma NoClashApart(h: Hash, l: Ledger)
    requires !Clashing(h, l)
    ensures RolesApart(h, l)
  {
    hide HasClash, Sum;
    var tag := "mutant-examiner-v1|";
    forall a, b | a in l.roles && b in l.roles && a != b
      ensures RoleChain(h, l.caseUid, a) != RoleChain(h, l.caseUid, b)
    {
      assert (tag + a)[|tag|..] == a && (tag + b)[|tag|..] == b;
      assert !RoleClash(h, a, b);
      var bar := l.caseUid + "|";
      assert (bar + Sum(h, tag + a))[|bar|..] == Sum(h, tag + a) && (bar + Sum(h, tag + b))[|bar|..] == Sum(h, tag + b);
    }
  }

  // ---------------------------------------------------------------------
  // What the reader makes of a chain that was built
  // ---------------------------------------------------------------------

  /** caseChainRead returns the chain as it was written. */
  ghost predicate Legible(h: Hash, l: Ledger, c: Chain) {
    ReadsAs(h, PrefixOf(c), AsNodes(LineAt(l, c)), Ok(LineAt(l, c)))
  }

  ghost predicate Illegible(h: Hash, l: Ledger) {
    exists c :: !Legible(h, l, c)
  }

  /** Of a chain that was built, the reader returns that chain or nothing. */
  lemma ReadsThatOrNothing(h: Hash, l: Ledger, c: Chain, r: Outcome<seq<Event>>)
    requires AllBuilt(h, l) && ReadsAs(h, PrefixOf(c), AsNodes(LineAt(l, c)), r)
    ensures r == if Legible(h, l, c) then Ok(LineAt(l, c)) else Refused
    ensures r.Ok? ==> Line(PrefixOf(c), LineAt(l, c))
  {
    hide Built, LineAt, AllGenuine, NoFork, PrefixOf;
    var prefix, line := PrefixOf(c), LineAt(l, c);
    EventsOfLine(line);
    if r.Ok? {
      assert Built(h, l.caseUid, c, line);
      OnlyChain(h, l.caseUid, c, line, r.value);
    }
  }

  lemma OnlyChain(h: Hash, caseUid: string, c: Chain, line: seq<Event>, other: seq<Event>)
    requires Built(h, caseUid, c, line) && AllGenuine(h, PrefixOf(c), AsNodes(line)) && IsChain(PrefixOf(c), line, other)
    ensures other == line && Line(PrefixOf(c), line)
  {
    hide WasAppended, Genuine, SeqOf, PrevOf, HeadUid, NameOf, PrefixOf;
    var prefix := PrefixOf(c);
    forall i | 0 <= i < |line|
      ensures PrevOf(prefix, line[i]) == HeadUid(prefix, line[..i]) && SeqOf(prefix, line[i]) == i + 1
    {
      assert WasAppended(h, prefix, NameOf(h, caseUid, c), line[..i], line[i]);
      assert AsNodes(line)[i] == Node(line[i]);
      GenuineFits(h, prefix, NameOf(h, caseUid, c), line[..i], line[i]);
    }
    assert |multiset(other)| == |multiset(line)|;
    forall i | 0 <= i < |line|
      ensures line[i] == other[i]
    {
      assert line[i] in multiset(other);
      var j :| 0 <= j < |other| && other[j] == line[i];
      assert SeqOf(prefix, other[j]) == j + 1;
    }
  }

  /** An appended event that is genuine has a position that fits a machine word. */
  lemma GenuineFits(h: Hash, prefix: string, chain: string, line: seq<Event>, e: Event)
    requires WasAppended(h, prefix, chain, line, e) && Genuine(h, prefix, e)
    ensures SeqOf(prefix, e) == |line| + 1 && PrevOf(prefix, e) == HeadUid(prefix, line)
  {
    hide Key, UidText, HeadUid, Sum, Text.FormatNat, Text.ParseUint;
    var props, id :| e == Appended(h, prefix, chain, line, props, id);
    KeysDistinct(prefix);
    Text.ParseOfFormat(|line| + 1, Text.WORD);
  }

  /** A chain that does not read back as it was written is a clash. */
  lemma IllegibleClashes(h: Hash, l: Ledger)
    requires AllBuilt(h, l) && Fits(l)
    ensures !Illegible(h, l) || Clashing(h, l)
  {
    hide AllBuilt, Fits, Clashing, ReadsAs, LineAt, PrefixOf;
    if !Clashing(h, l) {
      BuiltIsRead(h, l);
      forall c
        ensures Legible(h, l, c)
      {
        assert multiset(AsNodes(LineAt(l, c))) == multiset(AsNodes(LineAt(l, c)));
      }
    }
  }

  // ---------------------------------------------------------------------
  // Every state of every run
  // ---------------------------------------------------------------------

  lemma {:induction false} RunsNameTakers(h: Hash, ledgers: seq<Ledger>, calls: seq<Call>, i: nat)
    requires Runs(h, ledgers, calls) && i < |ledgers|
    ensures H.AllTakersNamed(View(ledgers[i]))
  {
    hide Write, View, Step, Filled, H.AllTakersNamed, Empty;
    if i == 0 {
      ViewOfEmpty(ledgers[0].caseUid);
      NobodyYet(ledgers[0].caseUid);
    } else {
      RunsNameTakers(h, ledgers, calls, i - 1);
      var l, x := ledgers[i - 1], calls[i - 1];
      assert Write(h, l, x) == Ok(ledgers[i]);
      WrittenIsProper(h, l, x);
      WriteRefines(h, l, x);
      FilledSays(h, l, x);
      H.TakersStep(h, View(l), Filled(h, l, x));
    }
  }

  lemma NobodyYet(caseUid: string)
    ensures H.AllTakersNamed(Initial(caseUid))
  {
  }

  /** Every period set by the first `i` calls has a UTC year that four digits say. */
  predicate PeriodsSayable(calls: seq<Call>, i: nat)
    requires i <= |calls|
  {
    forall j | 0 <= j < i && calls[j].action.DoSetRetention? :: Times.Sayable(calls[j].action.until)
  }

  lemma RunsReadRetention(h: Hash, ledgers: seq<Ledger>, calls: seq<Call>, i: nat)
    requires Runs(h, ledgers, calls) && i < |ledgers|
    ensures T.RetentionGood(ledgers[i].caseUid, View(ledgers[i]).retention) <==> PeriodsSayable(calls, i)
  {
    hide Write, View, Filled, H.Run, T.RetentionGood, T.RetentionKept, Times.Sayable, Empty;
    RunsAreRuns(h, ledgers, calls);
    var states, actions := Views(ledgers), Actions(h, ledgers, calls);
    H.RetentionReadsIff(h, states, actions, i);
    EmptyName(ledgers[i]);
    forall j | 0 <= j < i
      ensures actions[j].DoSetRetention? <==> calls[j].action.DoSetRetention?
      ensures actions[j].DoSetRetention? ==> actions[j].until == calls[j].action.until
    {
      FilledSays(h, ledgers[j], calls[j]);
    }
  }

  /**
   * After any calls, by anybody and in any order, on a new case: caseChainRead returns every chain as it was written,
   * whatever order its nodes come in; the readers accept what it returns, retentionRead exactly if every period set so
   * far has a year it can read; the chains agree, and somebody is named as holding each exhibit exactly while it is held
   * or in transit. Or two of the texts hashed along the way clash.
   */
  lemma EveryLedger(h: Hash, ledgers: seq<Ledger>, calls: seq<Call>, i: nat)
    requires Runs(h, ledgers, calls) && i < |ledgers| && Fits(ledgers[i])
    ensures || (AllRead(h, ledgers[i]) && RolesOwn(ledgers[i]) && RolesApart(h, ledgers[i])
                && H.InOrder(h, View(ledgers[i])) && H.AllHoldersNamed(View(ledgers[i])))
            || Clashing(h, ledgers[i])
    ensures T.RetentionGood(ledgers[i].caseUid, View(ledgers[i]).retention) <==> PeriodsSayable(calls, i)
  {
    hide Runs, AllRead, RolesOwn, RolesApart, H.InOrder, Fits, Clashing, AllBuilt, View, Inv, H.AllTakersNamed;
    hide H.AllHoldersNamed, T.RetentionGood, PeriodsSayable;
    var l := ledgers[i];
    RunsBuild(h, ledgers, calls, i);
    RunsOwn(h, ledgers, calls, i);
    RunsReadRetention(h, ledgers, calls, i);
    if !Clashing(h, l) {
      BuiltIsRead(h, l);
      NoClashApart(h, l);
      RequestsDistinct(h, l);
      RunsKeepInv(h, ledgers, calls, i);
      H.InvInOrder(h, View(l));
      RunsNameTakers(h, ledgers, calls, i);
      H.HoldersNamed(h, View(l));
    }
  }

  /** What a call says that the step it makes says too. */
  predicate SameCall(a: Action, b: Action) {
    match a
    case DoAttach(who, asserted, _) => b.DoAttach? && b.who == who && b.asserted == asserted
    case DoDetach => b.DoDetach?
    case DoTransition(who, to, now, _) => b.DoTransition? && b.who == who && b.to == to && b.now == now
    case DoAssign(subject, role) => b == a
    case DoRequest(who, kind, key, found, head, _, _) =>
      b.DoRequest? && b.who == who && b.kind == kind && b.key == key && b.found == found && b.manifestHead == head
    case DoDecide(who, request, decision, _) =>
      b.DoDecide? && b.who == who && b.requestUid == request && b.decision == decision
    case DoSetRetention(until, _, _) => b.DoSetRetention? && b.until == until
    case DoHold(_) => b.DoHold?
    case DoLift(hold, _) => b.DoLift? && b.hold == hold
    case DoErase(who, erased, _) => b.DoErase? && b.who == who && b.erased == erased
    case DoTakeIn(who, exhibit, digest, described, discrepancy, _) =>
      && b.DoTakeIn? && b.who == who && b.exhibit == exhibit && b.digest == digest && b.described == described
      && b.discrepancy == discrepancy
    case DoRelease(who, exhibit, recipient, _) =>
      b.DoRelease? && b.who == who && b.exhibit == exhibit && b.recipient == recipient
    case DoAccept(who, exhibit, digest, discrepancy, _) =>
      b.DoAccept? && b.who == who && b.exhibit == exhibit && b.digest == digest && b.discrepancy == discrepancy
    case DoReturn(who, exhibit, recipient, _) =>
      b.DoReturn? && b.who == who && b.exhibit == exhibit && b.recipient == recipient
    case DoDispose(who, exhibit, _) => b.DoDispose? && b.who == who && b.exhibit == exhibit
  }

  /** The step a call makes is the call, with the uids its events get. */
  lemma FilledSays(h: Hash, l: Ledger, x: Call)
    ensures SameCall(x.action, Filled(h, l, x))
  {
    hide View, UidOf, LifeEvent, RequestEvent, KeepingEvent, ErasureEvent, CustodyUid, MoveTo, TakenIn, HandedOn, TakenOver;
  }

  /** Of the first `i` calls, `j` is the last that set a period. */
  predicate LastSetAt(calls: seq<Call>, i: nat, j: nat)
    requires i <= |calls|
  {
    j < i && calls[j].action.DoSetRetention? && forall k | j < k < i :: !calls[k].action.DoSetRetention?
  }

  /** No call of any run destroys anything under a hold, or records an erasure once the key is erased, and only a case
      owner or an administrator destroys; a call that moves the case makes one of its moves; no new exhibit comes in once
      the case is in review, concluded, retained or disposed; and the call that disposes of the case is made at or after
      the instant given to the last retention_set, with every exhibit gone and the key erased. */
  lemma EveryCall(h: Hash, ledgers: seq<Ledger>, calls: seq<Call>, i: nat)
    requires Runs(h, ledgers, calls) && i < |calls|
    ensures var s, s', a := View(ledgers[i]), View(ledgers[i + 1]), calls[i].action;
            && H.Grows(s, s')
            && (H.Destroys(s, s') ==>
                  && NoHold(s) && (a.DoErase? || a.DoDispose? || a.DoTransition?)
                  && (a.who.role == CaseOwner || a.who.role == Administrator))
            && (E.KeyErased(s.erasures) ==> s'.erasures == s.erasures)
            && (s'.lifecycle != s.lifecycle ==> H.MadeBy(a, LifeOf(s), LifeOf(s')))
            && (forall u | u in s'.exhibits && u !in s.exhibits ::
                  a.DoTakeIn? && LifeOf(s) !in {L.InReview, L.Concluded, L.Retained, L.Disposed})
            && (LifeOf(s').Disposed? && !LifeOf(s).Disposed? ==>
                  && a.DoTransition? && AllGone(s.caseUid, s.exhibits) && E.KeyErased(s.erasures)
                  && exists j: nat :: LastSetAt(calls, i, j) && calls[j].action.until <= a.now)
  {
    hide Write, View, H.Run, H.Grows, H.Destroys, NoHold, AllGone, E.KeyErased, Empty, Filled, LifeOf;
    RunsAreRuns(h, ledgers, calls);
    var actions := Actions(h, ledgers, calls);
    H.EveryStep(h, Views(ledgers), actions, i);
    forall j | 0 <= j < |calls|
      ensures SameCall(calls[j].action, actions[j])
    {
      FilledSays(h, ledgers[j], calls[j]);
    }
    SameSets(calls, actions, i);
  }

  lemma SameSets(calls: seq<Call>, actions: seq<Action>, i: nat)
    requires |calls| == |actions| && i <= |calls| && forall j | 0 <= j < |calls| :: SameCall(calls[j].action, actions[j])
    ensures forall j: nat | H.LastSetCall(actions, i, j) ::
              LastSetAt(calls, i, j) && calls[j].action.until == actions[j].until
  {
    assert forall j | 0 <= j < |calls| :: calls[j].action.DoSetRetention? <==> actions[j].DoSetRetention?;
  }
}
