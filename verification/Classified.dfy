// The sink check on classified plaintext: a depth-first walk over a graph of
// values that may share and may loop, looking for a mark.
module Classified {
  import opened Common
  import opened Order

  type Ref = nat

  /** What a record's classes left on the plaintext read out of it. */
  datatype Mark = Mark(record: string, tags: seq<string>)

  /** A value as the walk sees it; None among the values held is Go's nil. */
  datatype Node =
    | Bytes(size: nat, mark: Option<Mark>)
    | Encrypted(mark: Option<Mark>)
    | Array(elements: seq<Option<Ref>>)
    | Hash(pairs: seq<(Option<Ref>, Option<Ref>)>)
    | Struct(fields: seq<Option<Ref>>)
    | Error(related: map<string, Option<Ref>>)
    | MultiValue(values: seq<Option<Ref>>)
    | Wrapper(held: Option<Ref>) // an enum value, a cell or a return value
    | Other

  type Graph = map<Ref, Node>

  /** The buffer handed back: its size is not known where the value is still sealed. */
  datatype Found = Found(mark: Mark, size: Option<nat>)

  const DEPTH: nat := 64

  function At(g: Graph, r: Ref): Node {
    if r in g then g[r] else Other
  }

  function Bears(n: Node): Option<Found> {
    match n
    case Bytes(size, Some(mark)) => Some(Found(mark, Some(size)))
    case Encrypted(Some(mark)) => Some(Found(mark, None))
    case _ => None
  }

  function KeysAndValues(pairs: seq<(Option<Ref>, Option<Ref>)>): seq<Option<Ref>> {
    if pairs == [] then [] else [pairs[0].0, pairs[0].1] + KeysAndValues(pairs[1..])
  }

  function Values(names: seq<string>, related: map<string, Option<Ref>>): seq<Option<Ref>>
    requires forall k | k in names :: k in related
  {
    seq(|names|, i requires 0 <= i < |names| => assert names[i] in names; related[names[i]])
  }

  /** What the walk goes into from a value, in the order it goes. */
  ghost function Children(n: Node): seq<Option<Ref>> {
    match n
    case Array(elements) => elements
    case Hash(pairs) => KeysAndValues(pairs)
    case Struct(fields) => fields
    case Error(related) => MembersInOrder(related.Keys); Values(InOrder(related.Keys), related)
    case MultiValue(values) => values
    case Wrapper(held) => [held]
    case _ => []
  }

  // ---------------------------------------------------------------------
  // Paths, by which child is taken at each value
  // ---------------------------------------------------------------------

  ghost predicate Steps(g: Graph, r: Ref, k: nat) {
    k < |Children(At(g, r))| && Children(At(g, r))[k].Some?
  }

  ghost function Child(g: Graph, r: Ref, k: nat): Ref
    requires Steps(g, r, k)
  {
    Children(At(g, r))[k].value
  }

  ghost predicate IsPath(g: Graph, r: Ref, p: seq<nat>)
    decreases p
  {
    p != [] ==> Steps(g, r, p[0]) && IsPath(g, Child(g, r, p[0]), p[1..])
  }

  ghost function End(g: Graph, r: Ref, p: seq<nat>): Ref
    requires IsPath(g, r, p)
    decreases p
  {
    if p == [] then r else End(g, Child(g, r, p[0]), p[1..])
  }

  /** A path that meets no value twice, and none of `stack`. */
  ghost predicate Simple(g: Graph, r: Ref, p: seq<nat>, stack: set<Ref>)
    requires IsPath(g, r, p)
    decreases p
  {
    r !in stack && (p != [] ==> Simple(g, Child(g, r, p[0]), p[1..], stack + {r}))
  }

  ghost predicate FindsAt(g: Graph, r: Ref, p: seq<nat>, found: Found) {
    IsPath(g, r, p) && Bears(At(g, End(g, r, p))) == Some(found)
  }

  ghost predicate Finds(g: Graph, r: Ref, p: seq<nat>) {
    IsPath(g, r, p) && Bears(At(g, End(g, r, p))).Some?
  }

  /** Nothing marked is reachable. */
  ghost predicate Clean(g: Graph, v: Option<Ref>) {
    v.Some? ==> forall p | IsPath(g, v.value, p) :: !Finds(g, v.value, p)
  }

  ghost predicate LongPath(g: Graph, v: Option<Ref>, n: nat) {
    v.Some? && exists p :: |p| == n && IsPath(g, v.value, p)
  }

  /** `p` turns off `q` to a child that comes earlier. */
  predicate Before(p: seq<nat>, q: seq<nat>) {
    p != [] && q != [] && (p[0] < q[0] || (p[0] == q[0] && Before(p[1..], q[1..])))
  }

  /** No path to a mark that does not go in circles comes before `q`. */
  ghost predicate First(g: Graph, r: Ref, q: seq<nat>, stack: set<Ref>) {
    forall p | Finds(g, r, p) && Simple(g, r, p, stack) :: !Before(p, q)
  }

  // ---------------------------------------------------------------------
  // What a value holds, whatever order it is walked in
  // ---------------------------------------------------------------------

  /** The value is an element, a key or a value of a pair, a field, a related value, one of the values, or the value held. */
  predicate Contains(n: Node, r: Ref) {
    match n
    case Array(elements) => exists i :: 0 <= i < |elements| && elements[i] == Some(r)
    case Hash(pairs) => exists i :: 0 <= i < |pairs| && (pairs[i].0 == Some(r) || pairs[i].1 == Some(r))
    case Struct(fields) => exists i :: 0 <= i < |fields| && fields[i] == Some(r)
    case Error(related) => exists name :: name in related && related[name] == Some(r)
    case MultiValue(values) => exists i :: 0 <= i < |values| && values[i] == Some(r)
    case Wrapper(held) => held == Some(r)
    case Bytes(_, _) => false
    case Encrypted(_) => false
    case Other => false
  }

  /** Each value of the trail contains the next. */
  predicate Trail(g: Graph, trail: seq<Ref>) {
    forall i | 0 < i < |trail| :: Contains(At(g, trail[i - 1]), trail[i])
  }

  predicate Leads(g: Graph, v: Ref, trail: seq<Ref>, r: Ref) {
    trail != [] && trail[0] == v && trail[|trail| - 1] == r && Trail(g, trail)
  }

  ghost predicate Reaches(g: Graph, v: Ref, r: Ref) {
    exists trail :: Leads(g, v, trail, r)
  }

  /** A buffer or a sealed value with a mark: the mark, and the size of a buffer. */
  predicate IsMarked(n: Node, found: Found) {
    || (n.Bytes? && n.mark == Some(found.mark) && found.size == Some(n.size))
    || (n.Encrypted? && n.mark == Some(found.mark) && found.size == None)
  }

  /** Nothing the value reaches is marked. */
  ghost predicate Unmarked(g: Graph, v: Option<Ref>) {
    v.Some? ==> forall r, found | Reaches(g, v.value, r) :: !IsMarked(At(g, r), found)
  }

  /** A trail of `n` steps begins at the value. */
  ghost predicate LongTrail(g: Graph, v: Option<Ref>, n: nat) {
    v.Some? && exists trail :: |trail| == n + 1 && trail[0] == v.value && Trail(g, trail)
  }

  lemma {:induction false} PairsAt(pairs: seq<(Option<Ref>, Option<Ref>)>, i: nat)
    requires i < |pairs|
    ensures |KeysAndValues(pairs)| == 2 * |pairs|
    ensures KeysAndValues(pairs)[2 * i] == pairs[i].0 && KeysAndValues(pairs)[2 * i + 1] == pairs[i].1
    decreases pairs
  {
    if i > 0 {
      PairsAt(pairs[1..], i - 1);
    } else if |pairs| > 1 {
      PairsAt(pairs[1..], 0);
    }
  }

  /** What is walked: elements, fields and values as they stand, each key before its value, and related values by name. */
  lemma {:induction false} WalkedInOrder(n: Node, k: nat)
    ensures n.Array? ==> Children(n) == n.elements
    ensures n.Struct? ==> Children(n) == n.fields
    ensures n.MultiValue? ==> Children(n) == n.values
    ensures n.Wrapper? ==> Children(n) == [n.held]
    ensures n.Hash? && k < |n.pairs| ==>
              && |Children(n)| == 2 * |n.pairs|
              && Children(n)[2 * k] == n.pairs[k].0 && Children(n)[2 * k + 1] == n.pairs[k].1
    ensures n.Error? ==> |Children(n)| == |InOrder(n.related.Keys)|
    ensures n.Error? && k < |Children(n)| ==>
              InOrder(n.related.Keys)[k] in n.related && Children(n)[k] == n.related[InOrder(n.related.Keys)[k]]
    ensures n.Bytes? || n.Encrypted? || n.Other? ==> Children(n) == []
  {
    hide InOrder;
    if n.Hash? && k < |n.pairs| {
      PairsAt(n.pairs, k);
    }
    if n.Error? {
      MembersInOrder(n.related.Keys);
      if k < |Children(n)| {
        assert InOrder(n.related.Keys)[k] in InOrder(n.related.Keys);
      }
    }
  }

  lemma {:induction false} PairsLength(pairs: seq<(Option<Ref>, Option<Ref>)>)
    ensures |KeysAndValues(pairs)| == 2 * |pairs|
  {
    if pairs != [] {
      PairsAt(pairs, 0);
    }
  }

  predicate Has(xs: seq<Option<Ref>>, r: Ref) {
    exists k :: 0 <= k < |xs| && xs[k] == Some(r)
  }

  lemma {:induction false} PairsHave(pairs: seq<(Option<Ref>, Option<Ref>)>, r: Ref)
    ensures Has(KeysAndValues(pairs), r) <==>
            exists i :: 0 <= i < |pairs| && (pairs[i].0 == Some(r) || pairs[i].1 == Some(r))
  {
    hide KeysAndValues;
    var xs := KeysAndValues(pairs);
    PairsLength(pairs);
    if i :| 0 <= i < |pairs| && (pairs[i].0 == Some(r) || pairs[i].1 == Some(r)) {
      PairsAt(pairs, i);
      assert xs[2 * i] == Some(r) || xs[2 * i + 1] == Some(r);
    }
    if Has(xs, r) {
      var k :| 0 <= k < |xs| && xs[k] == Some(r);
      PairsAt(pairs, k / 2);
      assert k == 2 * (k / 2) || k == 2 * (k / 2) + 1;
    }
  }

  lemma {:induction false} RelatedHave(related: map<string, Option<Ref>>, r: Ref)
    ensures Has(Children(Error(related)), r) <==> exists name :: name in related && related[name] == Some(r)
  {
    hide InOrder;
    MembersInOrder(related.Keys);
    var xs, names := Children(Error(related)), InOrder(related.Keys);
    if name :| name in related && related[name] == Some(r) {
      assert name in names;
      var k :| 0 <= k < |names| && names[k] == name;
      assert xs[k] == Some(r);
    }
    if Has(xs, r) {
      var k :| 0 <= k < |xs| && xs[k] == Some(r);
      assert names[k] in names;
    }
  }

  /** What a value contains is what the walk goes into. */
  lemma {:induction false} ContainsIff(n: Node, r: Ref)
    ensures Contains(n, r) <==> Has(Children(n), r)
  {
    hide InOrder, KeysAndValues;
    match n
    case Array(elements) => assert Children(n) == elements;
    case Hash(pairs) => PairsHave(pairs, r);
    case Struct(fields) => assert Children(n) == fields;
    case Error(related) => RelatedHave(related, r);
    case MultiValue(values) => assert Children(n) == values;
    case Wrapper(held) => assert [held][0] == held;
    case Bytes(_, _) =>
    case Encrypted(_) =>
    case Other =>
  }

  lemma {:induction false} PathLeads(g: Graph, v: Ref, p: seq<nat>) returns (trail: seq<Ref>)
    requires IsPath(g, v, p)
    ensures Leads(g, v, trail, End(g, v, p)) && |trail| == |p| + 1
    decreases p
  {
    hide Children, Contains;
    trail := [v];
    if p != [] {
      var c := Child(g, v, p[0]);
      var rest := PathLeads(g, c, p[1..]);
      ContainsIff(At(g, v), c);
      assert Children(At(g, v))[p[0]] == Some(c);
      trail := [v] + rest;
      forall i | 0 < i < |trail|
        ensures Contains(At(g, trail[i - 1]), trail[i])
      {
        if i > 1 {
          assert Contains(At(g, rest[i - 2]), rest[i - 1]);
        }
      }
    }
  }

  lemma {:induction false} TrailPath(g: Graph, trail: seq<Ref>) returns (p: seq<nat>)
    requires trail != [] && Trail(g, trail)
    ensures IsPath(g, trail[0], p) && End(g, trail[0], p) == trail[|trail| - 1] && |p| == |trail| - 1
    decreases trail
  {
    hide Children, Contains;
    p := [];
    if |trail| > 1 {
      var n := At(g, trail[0]);
      assert Contains(n, trail[1]);
      ContainsIff(n, trail[1]);
      var k :| 0 <= k < |Children(n)| && Children(n)[k] == Some(trail[1]);
      var rest := trail[1..];
      forall i | 0 < i < |rest|
        ensures Contains(At(g, rest[i - 1]), rest[i])
      {
        assert Contains(At(g, trail[i]), trail[i + 1]);
      }
      var q := TrailPath(g, rest);
      p := [k] + q;
      assert p[1..] == q;
    }
  }

  lemma MarkedBears(n: Node, found: Found)
    ensures IsMarked(n, found) <==> Bears(n) == Some(found)
  {
  }

  /** Clean by paths is unmarked by what values contain. */
  lemma {:induction false} CleanIff(g: Graph, v: Option<Ref>)
    ensures Clean(g, v) <==> Unmarked(g, v)
  {
    hide Children, Contains, Bears, IsMarked, IsPath, End, Leads, Trail;
    if v.Some? {
      forall p | IsPath(g, v.value, p) && Finds(g, v.value, p)
        ensures !Unmarked(g, v)
      {
        var trail := PathLeads(g, v.value, p);
        var r := End(g, v.value, p);
        assert Reaches(g, v.value, r);
        MarkedBears(At(g, r), Bears(At(g, r)).value);
      }
      forall r, found | Reaches(g, v.value, r) && IsMarked(At(g, r), found)
        ensures !Clean(g, v)
      {
        var trail :| Leads(g, v.value, trail, r);
        LeadsIs(g, v.value, trail, r);
        var p := TrailPath(g, trail);
        MarkedBears(At(g, r), found);
        assert Finds(g, v.value, p);
      }
    }
  }

  lemma LeadsIs(g: Graph, v: Ref, trail: seq<Ref>, r: Ref)
    requires Leads(g, v, trail, r)
    ensures trail != [] && trail[0] == v && trail[|trail| - 1] == r && Trail(g, trail)
  {
  }

  lemma {:induction false} LongIff(g: Graph, v: Option<Ref>, n: nat)
    ensures LongPath(g, v, n) <==> LongTrail(g, v, n)
  {
    hide Children, Contains, Trail, End;
    if LongPath(g, v, n) {
      var p :| |p| == n && IsPath(g, v.value, p);
      var trail := PathLeads(g, v.value, p);
    }
    if LongTrail(g, v, n) {
      var trail :| |trail| == n + 1 && trail[0] == v.value && Trail(g, trail);
      var p := TrailPath(g, trail);
    }
  }

  // ---------------------------------------------------------------------
  // Values the walk is done with
  // ---------------------------------------------------------------------

  /** What is finished is unmarked, and leads only to what is finished or still open. */
  ghost predicate Closed(g: Graph, done: set<Ref>, stack: set<Ref>) {
    forall r | r in done :: Finished(g, r, done + stack)
  }

  ghost predicate Finished(g: Graph, r: Ref, known: set<Ref>) {
    Bears(At(g, r)).None? && forall k | Steps(g, r, k) :: Child(g, r, k) in known
  }

  lemma {:induction false} SimpleStaysDone(g: Graph, done: set<Ref>, stack: set<Ref>, more: set<Ref>, r: Ref, p: seq<nat>)
    requires Closed(g, done, stack) && stack <= more
    requires IsPath(g, r, p) && Simple(g, r, p, more) && r in done + stack
    ensures !Finds(g, r, p)
    decreases p
  {
    hide Children, Bears;
    assert Finished(g, r, done + stack);
    if p != [] {
      SimpleStaysDone(g, done, stack, more + {r}, Child(g, r, p[0]), p[1..]);
    }
  }

  lemma {:induction false} ClosedIsClean(g: Graph, done: set<Ref>, r: Ref, p: seq<nat>)
    requires Closed(g, done, {}) && r in done && IsPath(g, r, p)
    ensures !Finds(g, r, p)
    decreases p
  {
    hide Children, Bears;
    assert Finished(g, r, done + {});
    if p != [] {
      ClosedIsClean(g, done, Child(g, r, p[0]), p[1..]);
    }
  }

  /** The hit is first below a value when it is first below the child that has it
      and the children before that one are finished or open. */
  lemma FirstBelow(g: Graph, done: set<Ref>, stack: set<Ref>, r: Ref, i: nat, q: seq<nat>)
    requires Steps(g, r, i) && First(g, Child(g, r, i), q, stack + {r})
    requires Closed(g, done, stack + {r})
    requires forall k | 0 <= k < i && Steps(g, r, k) :: Child(g, r, k) in done + stack + {r}
    ensures First(g, r, [i] + q, stack)
  {
    hide Children, Bears;
    forall p | Finds(g, r, p) && Simple(g, r, p, stack)
      ensures !Before(p, [i] + q)
    {
      if p != [] {
        var c := Child(g, r, p[0]);
        assert Finds(g, c, p[1..]) && Simple(g, c, p[1..], stack + {r});
        if p[0] < i {
          SimpleStaysDone(g, done, stack + {r}, stack + {r}, c, p[1..]);
        }
        assert ([i] + q)[1..] == q;
      }
    }
  }

  lemma FindsBelow(g: Graph, r: Ref, i: nat, q: seq<nat>, found: Found)
    requires Steps(g, r, i) && FindsAt(g, Child(g, r, i), q, found)
    ensures FindsAt(g, r, [i] + q, found)
  {
  }

  lemma LongBelow(g: Graph, r: Ref, i: nat, n: nat)
    requires Steps(g, r, i) && LongPath(g, Some(Child(g, r, i)), n)
    ensures LongPath(g, Some(r), n + 1)
  {
    hide Children;
    var q :| |q| == n && IsPath(g, Child(g, r, i), q);
    assert ([i] + q)[1..] == q;
    assert IsPath(g, r, [i] + q);
  }

  /** What finishing a value adds. */
  lemma ClosedMore(g: Graph, done: set<Ref>, stack: set<Ref>, r: Ref)
    requires Closed(g, done, stack + {r}) && Bears(At(g, r)).None?
    requires forall k | Steps(g, r, k) :: Child(g, r, k) in done + stack + {r}
    ensures Closed(g, done + {r}, stack)
  {
  }

  // ---------------------------------------------------------------------
  // The walk
  // ---------------------------------------------------------------------

  /** The containers classifiedVisit is asked about. */
  predicate Container(n: Node) {
    n.Array? || n.Hash? || n.Struct? || n.Error?
  }

  method Flatten(pairs: seq<(Option<Ref>, Option<Ref>)>) returns (r: seq<Option<Ref>>)
    ensures r == KeysAndValues(pairs)
  {
    var i := |pairs|;
    r := [];
    assert pairs[i..] == [];
    while i > 0
      invariant 0 <= i <= |pairs| && r == KeysAndValues(pairs[i..])
    {
      i := i - 1;
      assert pairs[i..][1..] == pairs[i + 1..];
      r := [pairs[i].0, pairs[i].1] + r;
    }
  }

  method ChildrenInOrder(n: Node) returns (r: seq<Option<Ref>>)
    ensures r == Children(n)
  {
    match n
    case Array(elements) => r := elements;
    case Hash(pairs) => r := Flatten(pairs);
    case Struct(fields) => r := fields;
    case Error(related) =>
      var names := SortedMembers(related.Keys);
      MembersInOrder(related.Keys);
      r := Values(names, related);
    case MultiValue(values) => r := values;
    case Wrapper(held) => r := [held];
    case _ => r := [];
  }

  class Walker {
    const graph: Graph
    var seen: set<Ref>
    var deep: bool
    /** Values walked to the end with nothing found. */
    ghost var done: set<Ref>

    constructor (graph: Graph)
      ensures this.graph == graph && seen == {} && !deep && done == {}
    {
      this.graph, seen, deep, done := graph, {}, false, {};
    }

    /** Until the walk has had to stop short, `stack` and the finished values are
        all it has met, and the finished ones lead nowhere else. */
    ghost predicate Tidy(stack: set<Ref>)
      reads this
    {
      !deep ==> Closed(graph, done, stack) && seen <= done + stack
    }

    method Walk(v: Option<Ref>, depth: nat, ghost stack: set<Ref>) returns (hit: Option<Found>, ghost path: seq<nat>)
      requires depth <= DEPTH + 1 && Tidy(stack)
      modifies this
      ensures old(deep) ==> deep
      ensures old(done) <= done
      ensures hit.None? && !deep ==> Tidy(stack) && (v.Some? ==> v.value in done + stack)
      ensures hit.Some? ==> v.Some? && FindsAt(graph, v.value, path, hit.value)
      ensures hit.Some? && !deep ==> First(graph, v.value, path, stack)
      ensures deep && !old(deep) ==> LongPath(graph, v, DEPTH + 1 - depth)
      decreases DEPTH + 1 - depth, 1
    {
      hide Children, Closed;
      path := [];
      if v.None? {
        return None, path;
      }
      if depth > DEPTH {
        deep := true;
        assert IsPath(graph, v.value, []);
        return None, path;
      }
      var r, n := v.value, At(graph, v.value);
      if Bears(n).Some? {
        return Bears(n), path;
      }
      if Container(n) {
        if r in seen {
          return None, path;
        }
        seen := seen + {r};
      }
      if !deep {
        Wider(graph, done, stack, r);
      }
      hit, path := WalkChildren(r, depth, stack);
      if hit.None? && !deep {
        ClosedMore(graph, done, stack, r);
        done := done + {r};
      }
    }

    /** The children of one value, in order, up to the first that holds a mark. */
    method WalkChildren(r: Ref, depth: nat, ghost stack: set<Ref>) returns (hit: Option<Found>, ghost path: seq<nat>)
      requires depth <= DEPTH && Tidy(stack + {r})
      modifies this
      ensures old(deep) ==> deep
      ensures old(done) <= done
      ensures hit.None? && !deep ==>
                Tidy(stack + {r}) && forall k | Steps(graph, r, k) :: Child(graph, r, k) in done + stack + {r}
      ensures hit.Some? ==> FindsAt(graph, r, path, hit.value)
      ensures hit.Some? && !deep ==> First(graph, r, path, stack)
      ensures deep && !old(deep) ==> LongPath(graph, Some(r), DEPTH + 1 - depth)
      decreases DEPTH + 1 - depth, 0
    {
      hide Closed, Finished, First, FindsAt, LongPath, Bears;
      var children := ChildrenInOrder(At(graph, r));
      var i: nat := 0;
      while i < |children|
        invariant i <= |children|
        invariant old(deep) ==> deep
        invariant old(done) <= done
        invariant Tidy(stack + {r})
        invariant !deep ==> forall k | 0 <= k < i && Steps(graph, r, k) :: Child(graph, r, k) in done + stack + {r}
        invariant deep && !old(deep) ==> LongPath(graph, Some(r), DEPTH + 1 - depth)
        decreases |children| - i
      {
        ghost var was, before := deep, done;
        hit, path := Walk(children[i], depth + 1, stack + {r});
        if deep && !was {
          LongStarts(graph, children[i], DEPTH - depth);
          LongBelow(graph, r, i, DEPTH - depth);
        }
        if hit.Some? {
          FindsBelow(graph, r, i, path, hit.value);
          if !deep {
            FirstBelow(graph, before, stack, r, i, path);
          }
          path := [i] + path;
          return;
        }
        i := i + 1;
      }
      return None, [];
    }
  }

  lemma LongStarts(g: Graph, v: Option<Ref>, n: nat)
    requires LongPath(g, v, n)
    ensures v.Some?
  {
  }

  lemma Wider(g: Graph, done: set<Ref>, stack: set<Ref>, r: Ref)
    requires Closed(g, done, stack)
    ensures Closed(g, done, stack + {r})
  {
  }

  lemma NotClean(g: Graph, v: Option<Ref>, found: Found)
    requires v.Some? && exists p :: FindsAt(g, v.value, p, found)
    ensures !Clean(g, v)
  {
  }

  /** FindClassified: what it finds is there and comes first; where it finds
      nothing and was not cut short, nothing is there; and it is cut short only
      by a trail longer than DEPTH, so where no trail is that long it decides. */
  method FindClassified(g: Graph, v: Option<Ref>) returns (found: Option<Found>, deep: bool)
    ensures found.Some? ==> v.Some? && exists r :: Reaches(g, v.value, r) && IsMarked(At(g, r), found.value)
    ensures found.None? && !deep ==> Unmarked(g, v)
    ensures found.Some? && !deep ==>
              exists q :: FindsAt(g, v.value, q, found.value) && First(g, v.value, q, {})
    ensures deep ==> LongTrail(g, v, 65)
    ensures !LongTrail(g, v, 65) ==> (found.Some? <==> !Unmarked(g, v))
  {
    hide First, FindsAt, Finds, LongPath, LongTrail, Unmarked, Reaches, IsMarked, Clean;
    CleanIff(g, v);
    LongIff(g, v, 65);
    var walker := new Walker(g);
    ghost var path;
    found, path := walker.Walk(v, 0, {});
    deep := walker.deep;
    if found.Some? {
      NotClean(g, v, found.value);
      FoundIsThere(g, v.value, path, found.value);
    }
    if found.None? && !deep {
      DoneIsClean(g, v, walker.done);
    }
  }

  lemma FoundIsThere(g: Graph, v: Ref, p: seq<nat>, found: Found)
    requires FindsAt(g, v, p, found)
    ensures exists r :: Reaches(g, v, r) && IsMarked(At(g, r), found)
  {
    hide Children, Contains, Bears, IsMarked, Leads, IsPath, End;
    var trail := PathLeads(g, v, p);
    MarkedBears(At(g, End(g, v, p)), found);
    assert Reaches(g, v, End(g, v, p));
  }

  lemma DoneIsClean(g: Graph, v: Option<Ref>, done: set<Ref>)
    requires Closed(g, done, {}) && (v.Some? ==> v.value in done)
    ensures Clean(g, v)
  {
    hide Finds, Closed, IsPath;
    if v.Some? {
      forall p | IsPath(g, v.value, p)
        ensures !Finds(g, v.value, p)
      {
        ClosedIsClean(g, done, v.value, p);
      }
    }
  }

  /** refuseClassified: the first argument that holds a mark or could not be
      looked at all the way down; with no refusal, every argument is clean. */
  method RefuseClassified(g: Graph, args: seq<Option<Ref>>) returns (refused: Option<nat>)
    ensures refused.None? ==> forall i | 0 <= i < |args| :: Unmarked(g, args[i])
    ensures refused.Some? ==> refused.value < |args| && (forall i | 0 <= i < refused.value :: Unmarked(g, args[i]))
    ensures refused.Some? ==> !Unmarked(g, args[refused.value]) || LongTrail(g, args[refused.value], 65)
  {
    hide Unmarked, LongTrail, Reaches, IsMarked;
    var i: nat := 0;
    while i < |args|
      invariant i <= |args|
      invariant forall k | 0 <= k < i :: Unmarked(g, args[k])
      decreases |args| - i
    {
      var found, deep := FindClassified(g, args[i]);
      if found.Some? {
        MarkedThere(g, args[i], found.value);
        return Some(i);
      }
      if deep {
        return Some(i);
      }
      i := i + 1;
    }
    return None;
  }

  lemma MarkedThere(g: Graph, v: Option<Ref>, found: Found)
    requires v.Some? && exists r :: Reaches(g, v.value, r) && IsMarked(At(g, r), found)
    ensures !Unmarked(g, v)
  {
    hide Reaches, IsMarked;
  }
}
