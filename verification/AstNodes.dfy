// Syntax trees as nodes that are rewritten in place.
module AstNodes {
  import opened Common
  import opened Ast

  /** What a node holds; its kind is its type, which never changes. */
  datatype Contents = Contents(literal: Literal, note: string, slots: seq<Slot>, children: seq<Node?>)

  class Node {
    const kind: Kind
    var contents: Contents

    constructor (kind: Kind, contents: Contents)
      ensures this.kind == kind && this.contents == contents
    {
      this.kind, this.contents := kind, contents;
    }
  }

  /** A tree together with the nodes it is made of. */
  datatype Plant = Plant(node: Node, literal: Literal, note: string, slots: seq<Slot>, children: seq<Option<Plant>>)

  function Root(p: Option<Plant>): Node? {
    if p.None? then null else p.value.node
  }

  function Roots(ps: seq<Option<Plant>>): (r: seq<Node?>)
    ensures |r| == |ps| && forall i | 0 <= i < |ps| :: r[i] == Root(ps[i])
  {
    seq(|ps|, i requires 0 <= i < |ps| => Root(ps[i]))
  }

  function Nodes(p: Option<Plant>): set<Node>
    decreases p
  {
    if p.None? then {} else {p.value.node} + NodesOf(p.value.children)
  }

  function NodesOf(ps: seq<Option<Plant>>): (r: set<Node>)
    ensures forall i | 0 <= i < |ps| :: Nodes(ps[i]) <= r
    decreases ps
  {
    if ps == [] then {} else
      var rest := NodesOf(ps[1..]);
      assert forall i | 1 <= i < |ps| :: ps[i] == ps[1..][i - 1];
      Nodes(ps[0]) + rest
  }

  lemma {:induction false} NodesOfOnly(ps: seq<Option<Plant>>, n: Node) returns (i: nat)
    requires n in NodesOf(ps)
    ensures i < |ps| && n in Nodes(ps[i])
  {
    if n in Nodes(ps[0]) {
      i := 0;
    } else {
      var k := NodesOfOnly(ps[1..], n);
      i := k + 1;
    }
  }

  function ContentsOf(p: Plant): Contents {
    Contents(p.literal, p.note, p.slots, Roots(p.children))
  }

  /** The nodes hold what the tree says. */
  ghost predicate Stands(p: Option<Plant>)
    reads Nodes(p)
    decreases p
  {
    p.Some? ==> p.value.node.contents == ContentsOf(p.value) && StandAll(p.value.children)
  }

  ghost predicate StandAll(ps: seq<Option<Plant>>)
    reads NodesOf(ps)
    decreases ps
  {
    forall i | 0 <= i < |ps| :: Stands(ps[i])
  }

  predicate HasShape(p: Option<Plant>)
    decreases p
  {
    p.Some? ==>
      |p.value.slots| == |p.value.children| && forall i | 0 <= i < |p.value.children| :: HasShape(p.value.children[i])
  }

  function TreeOf(p: Option<Plant>): (t: Option<Tree>)
    requires HasShape(p)
    ensures Shaped(t)
    decreases p
  {
    if p.None? then None else
      var v := p.value;
      Some(Tree(v.node.kind, v.literal, v.note, v.slots,
                seq(|v.children|, i requires 0 <= i < |v.children| => TreeOf(v.children[i]))))
  }

  /** No node stands in two places, but for a child that a let or a return holds twice. */
  ghost predicate Apart(p: Option<Plant>)
    decreases p
  {
    p.Some? ==>
      && p.value.node !in NodesOf(p.value.children)
      && |p.value.slots| == |p.value.children|
      && p.value.children == Shared(p.value.node.kind, p.value.slots, p.value.children)
      && Disjoint(p.value.node.kind, p.value.slots, p.value.children)
      && forall i | 0 <= i < |p.value.children| :: Apart(p.value.children[i])
  }

  ghost predicate Disjoint(kind: Kind, slots: seq<Slot>, ps: seq<Option<Plant>>) {
    forall i, j | 0 <= i < j < |ps| && !IsAgain(kind, slots, i) && !IsAgain(kind, slots, j) ::
      Nodes(ps[i]) !! Nodes(ps[j])
  }

  // ---------------------------------------------------------------------
  // Clone
  // ---------------------------------------------------------------------

  /** One child copied: nodes that did not exist, standing for the copy of the child. */
  ghost predicate IsCopy(copy: Node?, q: Option<Plant>, p: Option<Plant>)
    reads Nodes(q)
    requires HasShape(p)
  {
    Root(q) == copy && Stands(q) && Apart(q) && HasShape(q) && TreeOf(q) == Copied(TreeOf(p))
  }

  lemma {:induction false} NodesMore(ps: seq<Option<Plant>>, p: Option<Plant>)
    ensures NodesOf(ps + [p]) == NodesOf(ps) + Nodes(p)
  {
    if ps == [] {
      assert [] + [p] == [p] && [p][1..] == [];
    } else {
      NodesMore(ps[1..], p);
      assert (ps + [p])[1..] == ps[1..] + [p];
    }
  }

  lemma {:induction false} DisjointMore(kind: Kind, slots: seq<Slot>, ps: seq<Option<Plant>>, p: Option<Plant>)
    requires Disjoint(kind, slots, ps) && NodesOf(ps) !! Nodes(p)
    ensures Disjoint(kind, slots, ps + [p])
  {
  }

  lemma {:induction false} SharedTwice<T>(kind: Kind, slots: seq<Slot>, s: seq<T>)
    requires |slots| == |s|
    ensures Shared(kind, slots, Shared(kind, slots, s)) == Shared(kind, slots, s)
  {
  }

  lemma {:induction false} SharedRoots(kind: Kind, slots: seq<Slot>, qs: seq<Option<Plant>>)
    requires |slots| == |qs|
    ensures Roots(Shared(kind, slots, qs)) == Shared(kind, slots, Roots(qs))
  {
  }

  lemma {:induction false} SharedDisjoint(kind: Kind, slots: seq<Slot>, qs: seq<Option<Plant>>)
    requires |slots| == |qs| && Disjoint(kind, slots, qs)
    ensures Disjoint(kind, slots, Shared(kind, slots, qs))
  {
  }

  /** The copies of the children, with the one held twice in both its places. */
  lemma {:induction false} SharedNodes(kind: Kind, slots: seq<Slot>, qs: seq<Option<Plant>>)
    requires |slots| == |qs|
    ensures NodesOf(Shared(kind, slots, qs)) <= NodesOf(qs)
  {
    hide Nodes, NodesOf, Again;
    var r := Shared(kind, slots, qs);
    forall n | n in NodesOf(r)
      ensures n in NodesOf(qs)
    {
      var i := NodesOfOnly(r, n);
      var k := if IsAgain(kind, slots, i) then Again(kind, slots).value.0 else i;
      assert r[i] == qs[k] && Nodes(qs[k]) <= NodesOf(qs);
    }
  }

  /** A node over copies of the children is a copy of the node. */
  lemma {:induction false} Built(copy: Node, p: Plant, qs: seq<Option<Plant>>, kids: seq<Node?>)
    requires HasShape(Some(p)) && copy.kind == p.node.kind && |qs| == |p.children| == |kids|
    requires forall i | 0 <= i < |qs| && !IsAgain(copy.kind, p.slots, i) :: IsCopy(kids[i], qs[i], p.children[i])
    requires Disjoint(copy.kind, p.slots, qs) && copy !in NodesOf(qs)
    requires copy.contents == Contents(p.literal, p.note, p.slots, Shared(copy.kind, p.slots, kids))
    ensures IsCopy(copy, Some(Over(copy, p, qs)), Some(p)) && Nodes(Some(Over(copy, p, qs))) <= {copy} + NodesOf(qs)
  {
    hide Again, Nodes, Disjoint, IsCopy, IsAgain, NodesOf;
    var q := Over(copy, p, qs);
    SharedNodes(copy.kind, p.slots, qs);
    SharedTwice(copy.kind, p.slots, qs);
    SharedDisjoint(copy.kind, p.slots, qs);
    forall i | 0 <= i < |qs|
      ensures IsCopy(Shared(copy.kind, p.slots, kids)[i], q.children[i], p.children[Source(p, i)])
    {
      Places(copy.kind, p.slots, i);
    }
    OverStands(q, p, Shared(copy.kind, p.slots, kids));
    NodesOver(q);
  }

  lemma {:induction false} NodesOver(q: Plant)
    ensures Nodes(Some(q)) == {q.node} + NodesOf(q.children)
  {
  }

  function Over(copy: Node, p: Plant, qs: seq<Option<Plant>>): Plant
    requires |p.slots| == |qs|
  {
    Plant(copy, p.literal, p.note, p.slots, Shared(copy.kind, p.slots, qs))
  }

  lemma {:induction false} OverStands(q: Plant, p: Plant, kids: seq<Node?>)
    requires HasShape(Some(p)) && q.node.kind == p.node.kind && |q.children| == |p.children| == |kids|
    requires q.literal == p.literal && q.note == p.note && q.slots == p.slots
    requires forall i | 0 <= i < |kids| :: IsCopy(kids[i], q.children[i], p.children[Source(p, i)])
    requires q.node !in NodesOf(q.children) && Disjoint(q.node.kind, q.slots, q.children)
    requires q.children == Shared(q.node.kind, q.slots, q.children)
    requires q.node.contents == Contents(q.literal, q.note, q.slots, kids)
    ensures IsCopy(q.node, Some(q), Some(p))
  {
    hide Again, Nodes, Disjoint, IsAgain, NodesOf, Source;
    assert Roots(q.children) == kids;
    assert forall i | 0 <= i < |kids| :: IsCopy(kids[i], q.children[i], p.children[Source(p, i)]);
    assert HasShape(Some(q)) && Apart(Some(q)) && Stands(Some(q));
    BuiltTree(q, p);
  }

  lemma {:induction false} Places(kind: Kind, slots: seq<Slot>, i: nat)
    requires i < |slots|
    ensures IsAgain(kind, slots, i) ==> !IsAgain(kind, slots, Again(kind, slots).value.0)
  {
  }

  lemma {:induction false} BuiltTree(q: Plant, p: Plant)
    requires HasShape(Some(q)) && HasShape(Some(p)) && |q.children| == |p.children|
    requires q.node.kind == p.node.kind && q.literal == p.literal && q.note == p.note && q.slots == p.slots
    requires forall i | 0 <= i < |q.children| :: CopyOfPlace(q, p, i)
    ensures TreeOf(Some(q)) == Copied(TreeOf(Some(p)))
  {
    hide Again;
    var t, u := TreeOf(Some(p)).value, TreeOf(Some(q)).value;
    var c := Copied(Some(t)).value;
    forall i | 0 <= i < |q.children|
      ensures u.children[i] == c.children[i]
    {
      assert CopyOfPlace(q, p, i);
      CopiedChild(t, i);
    }
    assert |c.children| == |t.children|;
    assert u.children == c.children;
    assert c == t.(children := c.children);
  }

  /** Which child of the original stands copied in a place of the copy. */
  function Source(p: Plant, i: nat): (k: nat)
    requires HasShape(Some(p)) && i < |p.children|
    ensures k < |p.children|
  {
    if IsAgain(p.node.kind, p.slots, i) then Again(p.node.kind, p.slots).value.0 else i
  }

  predicate CopyOfPlace(q: Plant, p: Plant, i: nat)
    requires HasShape(Some(q)) && HasShape(Some(p)) && |q.children| == |p.children| && i < |p.children|
  {
    TreeOf(q.children[i]) == Copied(TreeOf(p.children[Source(p, i)]))
  }

  /** Clone: nodes that did not exist before, each in one place, standing for the copy of the tree. */
  method Clone(node: Node?, ghost p: Option<Plant>, ghost world: set<Node>)
    returns (copy: Node?, ghost q: Option<Plant>, ghost home: set<Node>)
    requires Root(p) == node && HasShape(p) && Nodes(p) <= world && Stands(p)
    ensures fresh(home) && Nodes(q) <= home && IsCopy(copy, q, p)
    decreases p
  {
    hide IsCopy, Disjoint, IsAgain, Shared;
    home := {};
    if node == null {
      NoCopy();
      return null, None, home;
    }
    var c := node.contents;
    var kids; ghost var qs;
    kids, qs, home := CloneChildren(node.kind, c.slots, c.children, p.value.children, world);
    copy := new Node(node.kind, c.(children := Shared(node.kind, c.slots, kids)));
    Built(copy, p.value, qs, kids);
    q := Some(Over(copy, p.value, qs));
    home := home + {copy};
  }

  lemma {:induction false} NoCopy()
    ensures IsCopy(null, None, None)
  {
  }

  method CloneChildren(kind: Kind, slots: seq<Slot>, children: seq<Node?>, ghost ps: seq<Option<Plant>>,
                       ghost world: set<Node>)
    returns (kids: seq<Node?>, ghost qs: seq<Option<Plant>>, ghost home: set<Node>)
    requires Roots(ps) == children && |slots| == |ps| && NodesOf(ps) <= world && StandAll(ps)
    requires forall i | 0 <= i < |ps| :: HasShape(ps[i])
    ensures |kids| == |qs| == |ps| && fresh(home) && NodesOf(qs) <= home && Disjoint(kind, slots, qs)
    ensures forall i | 0 <= i < |ps| && !IsAgain(kind, slots, i) :: IsCopy(kids[i], qs[i], ps[i])
    decreases ps
  {
    hide IsCopy, Nodes, NodesOf, Stands, Disjoint, IsAgain;
    kids, qs, home := [], [], {};
    var i: nat := 0;
    NothingYet(kind, slots);
    while i < |children|
      invariant i <= |children| && |kids| == |qs| == i && StandAll(ps)
      invariant fresh(home) && NodesOf(qs) <= home && Disjoint(kind, slots, qs)
      invariant forall k | 0 <= k < i && !IsAgain(kind, slots, k) :: IsCopy(kids[k], qs[k], ps[k])
      decreases |children| - i
    {
      var kid: Node? := null;
      ghost var q: Option<Plant>, own: set<Node> := None, {};
      NoNodes();
      if !IsAgain(kind, slots, i) {
        assert Nodes(ps[i]) <= NodesOf(ps);
        kid, q, own := Clone(children[i], ps[i], world);
      }
      NodesMore(qs, q);
      DisjointMore(kind, slots, qs, q);
      kids, qs, home, i := kids + [kid], qs + [q], home + own, i + 1;
    }
  }

  lemma {:induction false} NoNodes()
    ensures Nodes(None) == {}
  {
  }

  lemma {:induction false} NothingYet(kind: Kind, slots: seq<Slot>)
    ensures NodesOf([]) == {} && Disjoint(kind, slots, [])
  {
  }
}
