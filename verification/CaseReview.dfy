// Reviews: a case's requests, one chain, and each request's decision, a chain
// of its own that holds one event.
module CaseReview {
  import opened Common

  datatype SubjectKind = Case | Record | RedactionVersion | OtherKind(word: string)

  datatype Decision = Approved | ChangesRequested | Rejected | OtherDecision(word: string)

  datatype Request = Request(uid: string, caseUid: string, kind: SubjectKind, subject: string, actor: string)

  datatype Decided = Decided(requestUid: string, caseUid: string, decision: Decision, actor: string, role: Role)

  /** The decision chain of each request, by the request's uid. */
  type Decisions = map<string, seq<Decided>>

  function DecisionsOf(decisions: Decisions, uid: string): seq<Decided> {
    if uid in decisions then decisions[uid] else []
  }

  /** A request as read back, with its decision when it has one. */
  datatype Review = Review(request: Request, decision: Option<Decided>)

  predicate RequestGood(caseUid: string, decisions: Decisions, r: Request) {
    var ds := DecisionsOf(decisions, r.uid);
    && r.caseUid == caseUid && !r.kind.OtherKind?
    && (r.kind == Case ==> r.subject == caseUid)
    && |ds| <= 1
    && (|ds| == 1 ==> ds[0].requestUid == r.uid && ds[0].caseUid == caseUid && !ds[0].decision.OtherDecision?)
  }

  predicate ReviewsGood(caseUid: string, requests: seq<Request>, decisions: Decisions) {
    forall i | 0 <= i < |requests| :: RequestGood(caseUid, decisions, requests[i])
  }

  predicate Undecided(decisions: Decisions, r: Request) {
    DecisionsOf(decisions, r.uid) == []
  }

  function ReadOne(decisions: Decisions, r: Request): Review {
    var ds := DecisionsOf(decisions, r.uid);
    Review(r, if ds == [] then None else Some(ds[0]))
  }

  /** reviewsRead: every request with its one decision, or a refusal. */
  method ReviewsRead(caseUid: string, requests: seq<Request>, decisions: Decisions) returns (r: Outcome<seq<Review>>)
    ensures r.Ok? <==> ReviewsGood(caseUid, requests, decisions)
    ensures r.Ok? ==> |r.value| == |requests|
                      && forall i | 0 <= i < |requests| :: r.value[i] == ReadOne(decisions, requests[i])
  {
    var out: seq<Review>, i: nat := [], 0;
    while i < |requests|
      invariant |out| == i <= |requests|
      invariant forall k | 0 <= k < i :: RequestGood(caseUid, decisions, requests[k])
      invariant forall k | 0 <= k < i :: out[k] == ReadOne(decisions, requests[k])
      decreases |requests| - i
    {
      var request := requests[i];
      if request.caseUid != caseUid || request.kind.OtherKind? || (request.kind == Case && request.subject != caseUid) {
        assert !RequestGood(caseUid, decisions, request);
        return Refused;
      }
      var ds := DecisionsOf(decisions, request.uid);
      var review := Review(request, None);
      if |ds| == 1 {
        if ds[0].requestUid != request.uid || ds[0].caseUid != caseUid || ds[0].decision.OtherDecision? {
          assert !RequestGood(caseUid, decisions, request);
          return Refused;
        }
        review := Review(request, Some(ds[0]));
      } else if |ds| > 1 {
        assert !RequestGood(caseUid, decisions, request);
        return Refused;
      }
      out := out + [review];
      i := i + 1;
    }
    return Ok(out);
  }

  /** A request for a review of this subject that has not been decided. */
  predicate HasOpen(requests: seq<Request>, decisions: Decisions, kind: SubjectKind, subject: string) {
    exists i :: 0 <= i < |requests| && requests[i].kind == kind && requests[i].subject == subject
                && Undecided(decisions, requests[i])
  }

  /** The last request of the case itself: its index, or none. */
  function LatestCase(requests: seq<Request>): (i: Option<nat>)
    ensures i.Some? ==> i.value < |requests| && requests[i.value].kind == Case
    ensures i.Some? ==> forall k | i.value < k < |requests| :: requests[k].kind != Case
    ensures i.None? ==> forall k | 0 <= k < |requests| :: requests[k].kind != Case
  {
    if requests == [] then None
    else if requests[|requests| - 1].kind == Case then Some(|requests| - 1)
    else LatestCase(requests[..|requests| - 1])
  }

  /** The last request with this uid, which is the one review_decide takes. */
  function Find(requests: seq<Request>, uid: string): (i: Option<nat>)
    ensures i.Some? ==> i.value < |requests| && requests[i.value].uid == uid
    ensures i.None? ==> forall k | 0 <= k < |requests| :: requests[k].uid != uid
  {
    if requests == [] then None
    else if requests[|requests| - 1].uid == uid then Some(|requests| - 1)
    else Find(requests[..|requests| - 1], uid)
  }

  predicate DistinctUids(requests: seq<Request>) {
    forall i, j | 0 <= i < j < |requests| :: requests[i].uid != requests[j].uid
  }
}
