// One channel under any interleaving of sends, receives and closes: every call
// is a few atomic steps, and a schedule says which call steps next and which
// ready case its select takes.
module Channels {
  import opened Common

  /** A call, and for a send the value it carries. */
  type Id = nat

  /** Waiting for ever, not at all, or until a timer fires. */
  datatype Patience = Forever | NoWait | Timed

  datatype Call =
    | SendCheck(patience: Patience) // asks whether the channel is closed already
    | SendSelect(patience: Patience)
    | Sent | SendGaveUp | SendClosed
    | RecvDrain(patience: Patience) // takes what is queued already
    | RecvSelect(patience: Patience)
    | RecvRecheck // saw the close, and looks at the queue again
    | Got(from: Id) | RecvGaveUp | RecvClosed
    | Closing
    | DidClose(first: bool)

  /** `accepted` and `delivered` record what happened; no step reads them. */
  datatype State = State(capacity: nat, buffer: seq<Id>, done: bool, calls: map<Id, Call>, accepted: seq<Id>,
                         delivered: seq<Id>, receivers: seq<Id>)

  function Initial(capacity: nat): State {
    State(capacity, [], false, map[], [], [], [])
  }

  /** Which case a select takes. */
  datatype Case = Value | Done | Timer | Default

  datatype Move = Begin(id: Id, call: Call) | Step(id: Id, taken: Case) | Handover(sender: Id, receiver: Id)

  predicate Starts(c: Call) {
    c.SendCheck? || c.RecvDrain? || c.Closing?
  }

  function Set(s: State, id: Id, c: Call): State {
    s.(calls := s.calls[id := c])
  }

  /** The value is queued: the send is accepted here. */
  function Accept(s: State, id: Id): State {
    Set(s, id, Sent).(buffer := s.buffer + [id], accepted := s.accepted + [id])
  }

  function Take(s: State, id: Id): State
    requires s.buffer != []
  {
    var v := s.buffer[0];
    Set(s, id, Got(v)).(buffer := s.buffer[1..], delivered := s.delivered + [v], receivers := s.receivers + [id])
  }

  predicate Receiving(c: Call) {
    c.RecvDrain? || c.RecvSelect? || c.RecvRecheck?
  }

  function StepSend(s: State, id: Id, c: Call, taken: Case): Option<State>
    requires c.SendCheck? || c.SendSelect?
  {
    match (c, taken)
    case (SendCheck(_), Done) => if s.done then Some(Set(s, id, SendClosed)) else None
    case (SendCheck(p), Default) => if s.done then None else Some(Set(s, id, SendSelect(p)))
    case (SendSelect(_), Value) => if |s.buffer| < s.capacity then Some(Accept(s, id)) else None
    case (SendSelect(_), Done) => if s.done then Some(Set(s, id, SendClosed)) else None
    case (SendSelect(Timed), Timer) => Some(Set(s, id, SendGaveUp))
    case (SendSelect(NoWait), Default) =>
      if |s.buffer| < s.capacity || s.done then None else Some(Set(s, id, SendGaveUp))
    case _ => None
  }

  function StepRecv(s: State, id: Id, c: Call, taken: Case): Option<State>
    requires Receiving(c)
  {
    match (c, taken)
    case (RecvDrain(_), Value) => if s.buffer != [] then Some(Take(s, id)) else None
    case (RecvDrain(p), Default) => if s.buffer == [] then Some(Set(s, id, RecvSelect(p))) else None
    case (RecvSelect(NoWait), Default) => if s.done then None else Some(Set(s, id, RecvGaveUp))
    case (RecvSelect(p), Value) => if s.buffer != [] && p != NoWait then Some(Take(s, id)) else None
    case (RecvSelect(_), Done) => if s.done then Some(Set(s, id, RecvRecheck)) else None
    case (RecvSelect(Timed), Timer) => Some(Set(s, id, RecvGaveUp))
    case (RecvRecheck, Value) => if s.buffer != [] then Some(Take(s, id)) else None
    case (RecvRecheck, Default) => if s.buffer == [] then Some(Set(s, id, RecvClosed)) else None
    case _ => None
  }

  /** Whether an unbuffered channel can pass a value straight over: one side has to be waiting. */
  predicate Meets(send: Call, recv: Call) {
    send.SendSelect? &&
    (if recv.RecvDrain? || recv.RecvRecheck? then send.patience != NoWait
     else recv.RecvSelect? && recv.patience != NoWait)
  }

  function Closed(s: State, id: Id): State {
    Set(s, id, DidClose(!s.done)).(done := true)
  }

  /** What a handover leaves. */
  function Passed(s: State, i: Id, j: Id): State {
    Set(Set(s, i, Sent), j, Got(i)).(accepted := s.accepted + [i], delivered := s.delivered + [i],
                                     receivers := s.receivers + [j])
  }

  function Apply(s: State, m: Move): Option<State> {
    match m
    case Begin(id, call) => if id !in s.calls && Starts(call) then Some(Set(s, id, call)) else None
    case Step(id, taken) =>
      if id !in s.calls then None
      else
        var c := s.calls[id];
        if c.SendCheck? || c.SendSelect? then StepSend(s, id, c, taken)
        else if Receiving(c) then StepRecv(s, id, c, taken)
        else if c.Closing? then Some(Closed(s, id))
        else None
    case Handover(i, j) =>
      if s.capacity == 0 && i in s.calls && j in s.calls && Meets(s.calls[i], s.calls[j])
      then Some(Passed(s, i, j))
      else None
  }

  /** A schedule, as far as each of its moves can be made. */
  function Run(s: State, moves: seq<Move>): Option<State> {
    if moves == [] then Some(s)
    else
      var before := Run(s, moves[..|moves| - 1]);
      if before.None? then None else Apply(before.value, moves[|moves| - 1])
  }

  // ---------------------------------------------------------------------
  // What every schedule keeps
  // ---------------------------------------------------------------------

  ghost predicate Distinct(s: seq<Id>) {
    forall i, j | 0 <= i < j < |s| :: s[i] != s[j]
  }

  /** What was accepted is what was delivered and then what is queued, in that
      order: nothing is lost, doubled or overtaken. */
  ghost predicate InOrder(s: State) {
    s.accepted == s.delivered + s.buffer && Distinct(s.accepted) && |s.buffer| <= s.capacity
  }

  /** A send answers true exactly if its value was accepted. */
  ghost predicate SendsAnswer(s: State) {
    && (forall id | id in s.accepted :: id in s.calls && s.calls[id] == Sent)
    && (forall id | id in s.calls && s.calls[id] == Sent :: id in s.accepted)
  }

  /** The k-th value delivered went to the k-th receive to answer, and to no other. */
  ghost predicate ReceivesAnswer(s: State) {
    && |s.receivers| == |s.delivered| && Distinct(s.receivers)
    && (forall k | 0 <= k < |s.receivers| :: s.receivers[k] in s.calls && s.calls[s.receivers[k]] == Got(s.delivered[k]))
    && (forall id | id in s.calls && s.calls[id].Got? :: id in s.receivers)
  }

  ghost predicate IsFirst(s: State, id: Id) {
    id in s.calls && s.calls[id] == DidClose(true)
  }

  /** The channel is closed exactly if some close says it did it, and one at most does. */
  ghost predicate ClosesAnswer(s: State) {
    && (s.done <==> exists id :: IsFirst(s, id))
    && (forall i, j | IsFirst(s, i) && IsFirst(s, j) :: i == j)
    && (forall id | SawClose(s, id) :: s.done)
  }

  ghost predicate SawClose(s: State, id: Id) {
    id in s.calls && (s.calls[id].SendClosed? || s.calls[id].RecvRecheck? || s.calls[id].RecvClosed?)
  }

  ghost predicate Inv(s: State) {
    InOrder(s) && SendsAnswer(s) && ReceivesAnswer(s) && ClosesAnswer(s)
  }

  lemma InitialInv(capacity: nat)
    ensures Inv(Initial(capacity))
  {
  }

  /** A call that moves on without touching a value or the close. */
  predicate Quiet(was: Option<Call>, now: Call) {
    && now != Sent && !now.Got? && now != DidClose(true)
    && (was.Some? ==> was.value != Sent && !was.value.Got? && !was.value.DidClose?)
  }

  /** The close is as it was, and so are the calls that saw it. */
  lemma ClosesSame(s: State, t: State)
    requires ClosesAnswer(s) && s.done == t.done
    requires forall id :: IsFirst(t, id) <==> IsFirst(s, id)
    requires forall id | SawClose(t, id) && !SawClose(s, id) :: s.done
    ensures ClosesAnswer(t)
  {
  }

  lemma QuietSends(s: State, id: Id, c: Call)
    requires SendsAnswer(s) && Quiet(if id in s.calls then Some(s.calls[id]) else None, c)
    ensures SendsAnswer(Set(s, id, c))
  {
  }

  lemma QuietReceives(s: State, id: Id, c: Call)
    requires ReceivesAnswer(s) && Quiet(if id in s.calls then Some(s.calls[id]) else None, c)
    ensures ReceivesAnswer(Set(s, id, c))
  {
  }

  lemma QuietKeeps(s: State, id: Id, c: Call)
    requires Inv(s) && Quiet(if id in s.calls then Some(s.calls[id]) else None, c)
    requires c.SendClosed? || c.RecvRecheck? || c.RecvClosed? ==> s.done
    ensures Inv(Set(s, id, c))
  {
    hide SendsAnswer, ReceivesAnswer, ClosesAnswer, Distinct;
    QuietSends(s, id, c);
    QuietReceives(s, id, c);
    ClosesSame(s, Set(s, id, c));
  }

  lemma AcceptSends(s: State, id: Id)
    requires InOrder(s) && SendsAnswer(s) && id in s.calls && s.calls[id].SendSelect? && |s.buffer| < s.capacity
    ensures InOrder(Accept(s, id)) && SendsAnswer(Accept(s, id))
  {
  }

  lemma AcceptReceives(s: State, id: Id)
    requires ReceivesAnswer(s) && id in s.calls && s.calls[id].SendSelect?
    ensures ReceivesAnswer(Accept(s, id))
  {
  }

  lemma AcceptKeeps(s: State, id: Id)
    requires Inv(s) && id in s.calls && s.calls[id].SendSelect? && |s.buffer| < s.capacity
    ensures Inv(Accept(s, id))
  {
    hide SendsAnswer, ReceivesAnswer, ClosesAnswer, InOrder;
    AcceptSends(s, id);
    AcceptReceives(s, id);
    ClosesSame(s, Accept(s, id));
  }

  lemma TakeSends(s: State, id: Id)
    requires InOrder(s) && SendsAnswer(s) && id in s.calls && s.buffer != [] && Receiving(s.calls[id])
    ensures InOrder(Take(s, id)) && SendsAnswer(Take(s, id))
  {
  }

  lemma TakeReceives(s: State, id: Id)
    requires ReceivesAnswer(s) && id in s.calls && s.buffer != [] && Receiving(s.calls[id])
    ensures ReceivesAnswer(Take(s, id))
  {
  }

  lemma TakeKeeps(s: State, id: Id)
    requires Inv(s) && id in s.calls && s.buffer != [] && Receiving(s.calls[id])
    ensures Inv(Take(s, id))
  {
    hide SendsAnswer, ReceivesAnswer, ClosesAnswer, InOrder;
    TakeSends(s, id);
    TakeReceives(s, id);
    ClosesSame(s, Take(s, id));
  }

  lemma CloseCloses(s: State, id: Id)
    requires ClosesAnswer(s) && id in s.calls && s.calls[id].Closing?
    ensures ClosesAnswer(Closed(s, id))
  {
    var t := Closed(s, id);
    assert forall i | i != id :: IsFirst(t, i) <==> IsFirst(s, i);
    if s.done {
      var i :| IsFirst(s, i);
      assert IsFirst(t, i);
    } else {
      assert IsFirst(t, id);
    }
  }

  lemma CloseKeeps(s: State, id: Id)
    requires Inv(s) && id in s.calls && s.calls[id].Closing?
    ensures Inv(Closed(s, id))
  {
    hide SendsAnswer, ReceivesAnswer, ClosesAnswer, InOrder;
    CloseCloses(s, id);
    CloseRest(s, id);
  }

  lemma CloseRest(s: State, id: Id)
    requires InOrder(s) && SendsAnswer(s) && ReceivesAnswer(s) && id in s.calls && s.calls[id].Closing?
    ensures InOrder(Closed(s, id)) && SendsAnswer(Closed(s, id)) && ReceivesAnswer(Closed(s, id))
  {
  }

  ghost predicate CanPass(s: State, i: Id, j: Id) {
    s.capacity == 0 && i in s.calls && j in s.calls && i != j && Meets(s.calls[i], s.calls[j])
  }

  lemma PassedInOrder(s: State, i: Id, j: Id)
    requires InOrder(s) && SendsAnswer(s) && CanPass(s, i, j)
    ensures InOrder(Passed(s, i, j)) && SendsAnswer(Passed(s, i, j))
  {
  }

  lemma PassedReceives(s: State, i: Id, j: Id)
    requires ReceivesAnswer(s) && CanPass(s, i, j)
    ensures ReceivesAnswer(Passed(s, i, j))
  {
  }

  lemma PassedCloses(s: State, i: Id, j: Id)
    requires ClosesAnswer(s) && CanPass(s, i, j)
    ensures ClosesAnswer(Passed(s, i, j))
  {
    ClosesSame(s, Passed(s, i, j));
  }

  lemma HandoverKeeps(s: State, i: Id, j: Id)
    requires Inv(s) && CanPass(s, i, j)
    ensures Inv(Passed(s, i, j))
  {
    hide InOrder, SendsAnswer, ReceivesAnswer, ClosesAnswer, CanPass;
    PassedInOrder(s, i, j);
    PassedReceives(s, i, j);
    PassedCloses(s, i, j);
  }

  lemma StepKeeps(s: State, id: Id, taken: Case)
    requires Inv(s) && Apply(s, Step(id, taken)).Some?
    ensures Inv(Apply(s, Step(id, taken)).value)
  {
    hide Inv;
    var c, t := s.calls[id], Apply(s, Step(id, taken)).value;
    if c.Closing? {
      CloseKeeps(s, id);
    } else if taken == Value && c.SendSelect? {
      AcceptKeeps(s, id);
    } else if taken == Value {
      TakeKeeps(s, id);
    } else {
      RecheckedDone(s, id);
      QuietKeeps(s, id, t.calls[id]);
    }
  }

  lemma RecheckedDone(s: State, id: Id)
    requires Inv(s) && id in s.calls
    ensures s.calls[id].RecvRecheck? ==> s.done
  {
    assert s.calls[id].RecvRecheck? ==> SawClose(s, id);
  }

  lemma ApplyKeeps(s: State, m: Move)
    requires Inv(s) && Apply(s, m).Some?
    ensures Inv(Apply(s, m).value)
  {
    hide Inv;
    match m
    case Begin(id, call) => QuietKeeps(s, id, call);
    case Step(id, taken) => StepKeeps(s, id, taken);
    case Handover(i, j) => HandoverKeeps(s, i, j);
  }

  lemma {:induction false} RunKeeps(capacity: nat, moves: seq<Move>)
    requires Run(Initial(capacity), moves).Some?
    ensures Inv(Run(Initial(capacity), moves).value)
  {
    hide Inv, Apply;
    if moves == [] {
      InitialInv(capacity);
    } else {
      RunKeeps(capacity, moves[..|moves| - 1]);
      ApplyKeeps(Run(Initial(capacity), moves[..|moves| - 1]).value, moves[|moves| - 1]);
    }
  }

  // ---------------------------------------------------------------------
  // What that says of whole runs
  // ---------------------------------------------------------------------

  lemma {:induction false} RunCapacity(s: State, moves: seq<Move>)
    requires Run(s, moves).Some?
    ensures Run(s, moves).value.capacity == s.capacity
  {
    if moves != [] {
      RunCapacity(s, moves[..|moves| - 1]);
    }
  }

  /** In every run, what was delivered is the beginning of what was accepted,
      at most a bufferful behind; each value went to one receive, and came from
      a send that answered true. */
  lemma {:induction false} DeliveredInOrder(capacity: nat, moves: seq<Move>, a: Id, b: Id)
    requires Run(Initial(capacity), moves).Some?
    ensures var s := Run(Initial(capacity), moves).value;
            && s.delivered <= s.accepted && |s.accepted| - |s.delivered| <= capacity
            && (a in s.calls && b in s.calls && s.calls[a].Got? && s.calls[a] == s.calls[b] ==> a == b)
            && (a in s.calls && s.calls[a].Got? ==> s.calls[a].from in s.calls && s.calls[s.calls[a].from] == Sent)
  {
    RunKeeps(capacity, moves);
    RunCapacity(Initial(capacity), moves);
    OfState(Run(Initial(capacity), moves).value, a, b);
  }

  lemma OfState(s: State, a: Id, b: Id)
    requires Inv(s)
    ensures s.delivered <= s.accepted && |s.accepted| - |s.delivered| <= s.capacity
    ensures a in s.calls && b in s.calls && s.calls[a].Got? && s.calls[a] == s.calls[b] ==> a == b
    ensures a in s.calls && s.calls[a].Got? ==> s.calls[a].from in s.calls && s.calls[s.calls[a].from] == Sent
  {
  }

  /** A receive says the channel is closed only at a step at which it is, with
      nothing queued: all that had been accepted by then had been delivered. */
  lemma {:induction false} ClosedMeansDrained(capacity: nat, moves: seq<Move>, m: Move, id: Id)
    requires Run(Initial(capacity), moves).Some?
    requires var s := Run(Initial(capacity), moves).value;
             Apply(s, m).Some? && SaysClosed(Apply(s, m).value, id) && !SaysClosed(s, id)
    ensures var s := Run(Initial(capacity), moves).value; s.done && s.buffer == [] && s.delivered == s.accepted
  {
    RunKeeps(capacity, moves);
    DrainedHere(Run(Initial(capacity), moves).value, m, id);
  }

  predicate SaysClosed(s: State, id: Id) {
    id in s.calls && s.calls[id] == RecvClosed
  }

  lemma DrainedHere(s: State, m: Move, id: Id)
    requires Inv(s) && Apply(s, m).Some? && SaysClosed(Apply(s, m).value, id) && !SaysClosed(s, id)
    ensures s.done && s.buffer == [] && s.delivered == s.accepted
  {
    hide SendsAnswer, ReceivesAnswer, ClosesAnswer, Distinct;
    assert m.Step? && m.id == id && s.calls[id] == RecvRecheck;
    RecheckedDone(s, id);
  }

  // ---------------------------------------------------------------------
  // Waiting and giving up
  // ---------------------------------------------------------------------

  predicate InProgress(c: Call) {
    c.SendCheck? || c.SendSelect? || Receiving(c) || c.Closing?
  }

  ghost predicate CanStep(s: State, id: Id) {
    exists taken :: Apply(s, Step(id, taken)).Some?
  }

  /** A call in progress has to wait exactly if it waits for ever on an open channel, a send on a full one and a receive
      on an empty one: no call that does not wait is ever held up, and none is once the channel is closed. */
  lemma CanStepIff(s: State, id: Id)
    requires id in s.calls && InProgress(s.calls[id])
    ensures CanStep(s, id) <==>
            !(!s.done && ((s.calls[id] == SendSelect(Forever) && |s.buffer| >= s.capacity)
                          || (s.calls[id] == RecvSelect(Forever) && s.buffer == [])))
  {
    hide Set, Accept, Take, Closed;
    var c := s.calls[id];
    if s.done && !c.RecvDrain? && !c.RecvRecheck? {
      assert c.Closing? || Apply(s, Step(id, Done)).Some?;
      assert c.Closing? ==> Apply(s, Step(id, Default)).Some?;
    } else if c.SendSelect? || c.RecvSelect? {
      assert c.patience.Timed? ==> Apply(s, Step(id, Timer)).Some?;
      assert c.patience.NoWait? ==> Apply(s, Step(id, Default)).Some? || Apply(s, Step(id, Value)).Some?;
      assert c == SendSelect(Forever) && |s.buffer| < s.capacity ==> Apply(s, Step(id, Value)).Some?;
      assert c == RecvSelect(Forever) && s.buffer != [] ==> Apply(s, Step(id, Value)).Some?;
    } else {
      assert Apply(s, Step(id, Default)).Some? || Apply(s, Step(id, Value)).Some?;
    }
  }

  /** Which cases of its select a call can take: a value while there is room for it or there is one, the close once there
      has been one, the timer with a timeout, and the default without waiting while nothing else is ready. */
  lemma SelectIs(s: State, id: Id, taken: Case)
    requires id in s.calls && (s.calls[id].SendSelect? || s.calls[id].RecvSelect?)
    ensures var c := s.calls[id];
            Apply(s, Step(id, taken)).Some? <==>
            match taken
            case Value => if c.SendSelect? then |s.buffer| < s.capacity else s.buffer != [] && c.patience != NoWait
            case Done => s.done
            case Timer => c.patience == Timed
            case Default => c.patience == NoWait && !s.done && (c.SendSelect? ==> |s.buffer| >= s.capacity)
  {
    hide Set, Accept, Take;
  }

  predicate GaveUp(s: State, id: Id) {
    id in s.calls && (s.calls[id] == SendGaveUp || s.calls[id] == RecvGaveUp)
  }

  /** A call gives up at a step of its own only: one that may wait when its timer fires, a send that may not on a full
      channel, a receive that may not after it found nothing queued; neither of these two on a closed one. */
  lemma GivesUpOnly(s: State, m: Move, id: Id)
    requires Apply(s, m).Some? && GaveUp(Apply(s, m).value, id) && !GaveUp(s, id)
    ensures m.Step? && m.id == id && id in s.calls && (s.calls[id].SendSelect? || s.calls[id].RecvSelect?)
    ensures s.calls[id].patience.Timed? ==> m.taken == Timer
    ensures !s.calls[id].patience.Timed? ==> s.calls[id].patience.NoWait? && !s.done
    ensures s.calls[id] == SendSelect(NoWait) ==> |s.buffer| >= s.capacity
  {
  }

  /** As a call that waits for ever goes. */
  predicate Untiring(c: Call) {
    || c == SendCheck(Forever) || c == SendSelect(Forever) || c == Sent || c == SendClosed
    || c == RecvDrain(Forever) || c == RecvSelect(Forever) || c == RecvRecheck || c.Got? || c == RecvClosed
  }

  lemma OwnStepUntiring(s: State, id: Id, taken: Case)
    requires id in s.calls && Untiring(s.calls[id]) && Apply(s, Step(id, taken)).Some?
    ensures id in Apply(s, Step(id, taken)).value.calls && Untiring(Apply(s, Step(id, taken)).value.calls[id])
  {
  }

  lemma OthersUntouched(s: State, i: Id, taken: Case, id: Id)
    requires id in s.calls && i != id && Apply(s, Step(i, taken)).Some?
    ensures id in Apply(s, Step(i, taken)).value.calls && Apply(s, Step(i, taken)).value.calls[id] == s.calls[id]
  {
  }

  lemma UntiringStays(s: State, m: Move, id: Id)
    requires id in s.calls && Untiring(s.calls[id]) && Apply(s, m).Some?
    ensures id in Apply(s, m).value.calls && Untiring(Apply(s, m).value.calls[id])
  {
    hide StepSend, StepRecv;
    match m
    case Begin(_, _) =>
    case Step(i, taken) =>
      if i == id {
        OwnStepUntiring(s, id, taken);
      } else {
        OthersUntouched(s, i, taken, id);
      }
    case Handover(_, _) =>
  }

  /** One that waits for ever never gives up, whatever else happens. */
  lemma {:induction false} ForeverNeverGivesUp(s: State, id: Id, more: seq<Move>)
    requires id in s.calls && Untiring(s.calls[id]) && Run(s, more).Some?
    ensures var t := Run(s, more).value; id in t.calls && Untiring(t.calls[id]) && !GaveUp(t, id)
  {
    hide Apply;
    if more != [] {
      ForeverNeverGivesUp(s, id, more[..|more| - 1]);
      UntiringStays(Run(s, more[..|more| - 1]).value, more[|more| - 1], id);
    }
  }

  /** In its select a call waits, unless it may not. */
  predicate Waits(c: Call) {
    (c.SendSelect? || c.RecvSelect?) && c.patience != NoWait
  }

  /** A value is passed straight over exactly if one offers it, the other is looking for one, and one of them waits: a
      receive that may not wait looks before its select only. */
  lemma MeetsIff(send: Call, recv: Call)
    ensures Meets(send, recv) <==>
            send.SendSelect? && Receiving(recv) && recv != RecvSelect(NoWait) && (Waits(send) || Waits(recv))
  {
  }

  /** Past its first look at the close, or not a send at all, a call is never accepted. */
  ghost predicate Late(s: State, id: Id) {
    s.done && id !in s.accepted && (id in s.calls ==> !s.calls[id].SendSelect?)
  }

  lemma {:induction false} LateIsRefused(s: State, id: Id, more: seq<Move>)
    requires Late(s, id) && Run(s, more).Some?
    ensures Late(Run(s, more).value, id)
  {
    if more != [] {
      LateIsRefused(s, id, more[..|more| - 1]);
      LateStays(Run(s, more[..|more| - 1]).value, more[|more| - 1], id);
    }
  }

  lemma LateStays(s: State, m: Move, id: Id)
    requires Late(s, id) && Apply(s, m).Some?
    ensures Late(Apply(s, m).value, id)
  {
  }

  lemma {:induction false} Above(ids: set<Id>) returns (n: Id)
    ensures forall k | k in ids :: k < n
    decreases ids
  {
    if k: nat :| k in ids {
      var m := Above(ids - {k});
      n := if m <= k then k + 1 else m;
      assert forall i | i in ids :: i == k || i in ids - {k};
    } else {
      n := 0;
    }
  }

  ghost predicate AcceptedBy(s: State, more: seq<Move>, id: Id) {
    Run(s, more).Some? && id in Run(s, more).value.accepted
  }

  lemma {:induction false} OneMove(s: State, m: Move)
    ensures Run(s, [m]) == Apply(s, m)
  {
    assert [m][..0] == [];
    assert Run(s, []) == Some(s);
  }

  lemma {:induction false} RunMore(s: State, moves: seq<Move>, m: Move, t: State)
    requires Run(s, moves) == Some(t)
    ensures Run(s, moves + [m]) == Apply(t, m)
  {
  }

  /** A send past its look at the close is accepted as soon as there is room, or somebody receives to make some. */
  lemma {:induction false} Accepts(s: State, id: Id) returns (more: seq<Move>)
    requires InOrder(s) && id in s.calls && s.calls[id].SendSelect?
    ensures AcceptedBy(s, more, id)
  {
    hide Run, Distinct;
    if |s.buffer| < s.capacity {
      more := [Step(id, Value)];
      OneMove(s, Step(id, Value));
    } else {
      var j := Above(s.calls.Keys);
      var begin, take := Begin(j, RecvDrain(Forever)), Step(j, if s.capacity == 0 then Default else Value);
      var s1 := Set(s, j, RecvDrain(Forever));
      OneMove(s, begin);
      RunMore(s, [begin], take, s1);
      var s2 := if s.capacity == 0 then Set(s1, j, RecvSelect(Forever)) else Take(s1, j);
      assert s2.calls[id] == s.calls[id];
      var last := if s.capacity == 0 then Handover(id, j) else Step(id, Value);
      more := [begin] + [take] + [last];
      RunMore(s, [begin] + [take], last, s2);
    }
  }

  /** In every state of every run with the channel closed, a call not accepted yet can still be accepted exactly if it is
      a send that had looked, and found the channel open, before the close. */
  lemma {:induction false} AcceptedLaterIff(capacity: nat, moves: seq<Move>, id: Id)
    requires Run(Initial(capacity), moves).Some?
    requires var s := Run(Initial(capacity), moves).value; s.done && id !in s.accepted
    ensures var s := Run(Initial(capacity), moves).value;
            (exists more :: AcceptedBy(s, more, id)) <==> id in s.calls && s.calls[id].SendSelect?
  {
    hide Run, SendsAnswer, ReceivesAnswer, ClosesAnswer, InOrder;
    RunKeeps(capacity, moves);
    var s := Run(Initial(capacity), moves).value;
    if id in s.calls && s.calls[id].SendSelect? {
      var more := Accepts(s, id);
    } else {
      forall more | Run(s, more).Some?
        ensures id !in Run(s, more).value.accepted
      {
        LateIsRefused(s, id, more);
      }
    }
  }

  /** A send that has looked and found the channel open, and a close after it. */
  function Overtaken(): seq<Move> {
    [Begin(0, SendCheck(Forever)), Step(0, Default), Begin(1, Closing), Step(1, Default)]
  }

  /** A receive that finds nothing queued and says closed. */
  function Drained(): seq<Move> {
    Overtaken() + [Begin(2, RecvDrain(Forever)), Step(2, Default), Step(2, Done), Step(2, Default)]
  }

  function AtClose(): State {
    Initial(1).(calls := map[0 := SendSelect(Forever), 1 := DidClose(true)], done := true)
  }

  function AtDrained(): State {
    AtClose().(calls := map[0 := SendSelect(Forever), 1 := DidClose(true), 2 := RecvClosed])
  }

  lemma ReachesClose()
    ensures Run(Initial(1), Overtaken()) == Some(AtClose())
  {
    hide Run;
    var m, s0 := Overtaken(), Initial(1);
    var s1 := Set(s0, 0, SendCheck(Forever));
    var s2 := Set(s1, 0, SendSelect(Forever));
    var s3 := Set(s2, 1, Closing);
    assert Run(s0, []) == Some(s0) by { RunNone(s0); }
    RunMore(s0, [], m[0], s0);
    assert [] + [m[0]] == [m[0]];
    RunMore(s0, [m[0]], m[1], s1);
    assert [m[0]] + [m[1]] == m[..2] && m[..2] + [m[2]] == m[..3] && m[..3] + [m[3]] == m;
    RunMore(s0, m[..2], m[2], s2);
    RunMore(s0, m[..3], m[3], s3);
    assert Closed(s3, 1).calls == AtClose().calls;
  }

  lemma {:induction false} RunNone(s: State)
    ensures Run(s, []) == Some(s)
  {
  }

  lemma ReachesDrained()
    ensures Run(Initial(1), Drained()) == Some(AtDrained())
  {
    hide Run;
    ReachesClose();
    var m, s0, s4 := Overtaken(), Initial(1), AtClose();
    var m5 := m + [Begin(2, RecvDrain(Forever))];
    var m6 := m5 + [Step(2, Default)];
    var m7 := m6 + [Step(2, Done)];
    var s5 := Set(s4, 2, RecvDrain(Forever));
    var s6 := Set(s5, 2, RecvSelect(Forever));
    var s7 := Set(s6, 2, RecvRecheck);
    RunMore(s0, m, Begin(2, RecvDrain(Forever)), s4);
    RunMore(s0, m5, Step(2, Default), s5);
    RunMore(s0, m6, Step(2, Done), s6);
    RunMore(s0, m7, Step(2, Default), s7);
    assert m7 + [Step(2, Default)] == Drained();
    assert Set(s7, 2, RecvClosed).calls == AtDrained().calls;
  }

  /** A send that had already looked may still be accepted after the close, and
      after a receive has said closed: the value then waits for another receive. */
  lemma AcceptedAfterClose()
    ensures Run(Initial(1), Drained()) == Some(AtDrained()) && AtDrained().done && SaysClosed(AtDrained(), 2)
    ensures var later := Run(Initial(1), Drained() + [Step(0, Value)]);
            later.Some? && later.value.accepted == [0] && later.value.buffer == [0]
  {
    hide Run, Drained;
    ReachesDrained();
    RunMore(Initial(1), Drained(), Step(0, Value), AtDrained());
  }
}
