// The lifecycle of a case: its states, the moves between them and what makes
// each, what each state refuses, and the reader of the lifecycle chain. An
// event is the properties the program reads of it; an absent one reads as "".
module CaseLifecycle {
  import opened Common

  /** A lifecycle.state or lifecycle.from property. `Unregistered` is "", `OtherState` any other word. */
  datatype State = Unregistered | Registered | Active | InReview | Concluded | Retained | Disposed
                 | OtherState(word: string)

  datatype Builtin = CaseTransition | ReviewRequest | ReviewDecide | RetentionSet

  /** A lifecycle event: the move, and the review, retention or erasure event it was made for. */
  datatype Move = Move(uid: string, from: State, to: State, reviewUid: string, retentionUid: string,
                       erasureUid: string)

  datatype Action = Seal | Define | Disclose | Assign | Intake | Redact | Review | Retain | Erase

  /** caseMoves and caseMoveOf: the builtin that makes a move, when the lifecycle has it. */
  function MoveOf(from: State, to: State): Option<Builtin> {
    match (from, to)
    case (Registered, Active) => Some(CaseTransition)
    case (Active, InReview) => Some(ReviewRequest)
    case (InReview, Concluded) => Some(ReviewDecide)
    case (InReview, Active) => Some(ReviewDecide)
    case (Concluded, Active) => Some(CaseTransition)
    case (Concluded, Retained) => Some(RetentionSet)
    case (Retained, Disposed) => Some(CaseTransition)
    case _ => None
  }

  /** caseStateRefuses. */
  predicate Blocks(state: State, action: Action) {
    match state
    case InReview => action in {Seal, Define, Disclose, Intake, Redact}
    case Concluded => action in {Seal, Intake}
    case Retained => action in {Seal, Intake}
    case Disposed => true
    case _ => false
  }

  /** The state the events leave the case in. */
  function StateOf(events: seq<Move>): State {
    if events == [] then Unregistered else events[|events| - 1].to
  }

  predicate MoveGood(events: seq<Move>, i: nat)
    requires i < |events|
  {
    && events[i].from == StateOf(events[..i])
    && (i == 0 ==> events[i].to == Registered)
    && (i > 0 ==> MoveOf(events[i].from, events[i].to).Some?)
  }

  /** A case registers once and then only makes moves the lifecycle has. */
  predicate LifecycleGood(events: seq<Move>) {
    forall i | 0 <= i < |events| :: MoveGood(events, i)
  }

  predicate Known(s: State) {
    !s.Unregistered? && !s.OtherState?
  }

  /** caseLifecycleRead. */
  method CaseLifecycleRead(events: seq<Move>) returns (r: Outcome<State>)
    ensures r.Ok? <==> LifecycleGood(events)
    ensures r.Ok? ==> r.value == StateOf(events)
  {
    var state, i: nat := Unregistered, 0;
    while i < |events|
      invariant i <= |events| && state == StateOf(events[..i])
      invariant forall k | 0 <= k < i :: MoveGood(events, k)
      decreases |events| - i
    {
      var event := events[i];
      var known := MoveOf(event.from, event.to).Some?;
      assert events[..i + 1][i] == event;
      if event.from != state || !Known(event.to) || (i == 0 && event.to != Registered) || (i > 0 && !known) {
        assert !MoveGood(events, i);
        return Refused;
      }
      state := event.to;
      i := i + 1;
    }
    assert events[..i] == events;
    return Ok(state);
  }

  lemma LifecycleAppend(events: seq<Move>, m: Move)
    requires LifecycleGood(events) && m.from == StateOf(events)
    requires if events == [] then m.to == Registered else MoveOf(m.from, m.to).Some?
    ensures LifecycleGood(events + [m]) && StateOf(events + [m]) == m.to
  {
    var more := events + [m];
    forall i | 0 <= i < |more|
      ensures MoveGood(more, i)
    {
      assert more[..i] == events[..i];
      if i < |events| {
        assert MoveGood(events, i) && more[i] == events[i];
      } else {
        assert events[..i] == events;
      }
    }
  }

  /** In any lifecycle the reader accepts, nothing follows a disposal. */
  lemma NothingAfterDisposal(events: seq<Move>, i: nat)
    requires LifecycleGood(events) && i + 1 < |events|
    ensures events[i].to != Disposed
  {
    assert MoveGood(events, i + 1);
    assert StateOf(events[..i + 1]) == events[i].to;
  }

  /** In any lifecycle the reader accepts, a case is concluded straight out of a review and disposed of straight out of retention. */
  lemma WhatComesBefore(events: seq<Move>, i: nat)
    requires LifecycleGood(events) && i < |events|
    ensures events[i].to == Concluded ==> i > 0 && events[i - 1].to == InReview
    ensures events[i].to == Disposed ==> i > 0 && events[i - 1].to == Retained
  {
    assert MoveGood(events, i);
    assert i > 0 ==> StateOf(events[..i]) == events[i - 1].to;
  }
}
