// Modify, the rewriter in place, under any modifier: what it does to each node
// it reaches, that it reaches no other, and what it does to a copy.
module AstModify {
  import opened Common
  import opened Ast
  import opened AstNodes

  // ---------------------------------------------------------------------
  // Where Modify goes, and what a place can hold
  // ---------------------------------------------------------------------

  predicate IsStatement(k: Kind) {
    k in {BlockStatement, ExpressionStatement, LetStatement, ReturnStatement, ForInStatement, WhileStatement,
          ForStatement, StructStatement, EnumStatement, BreakStatement, ContinueStatement, ImportStatement}
  }

  predicate IsExpression(k: Kind) {
    !IsStatement(k) && k !in {Program, MatchArm, StructFieldValue}
  }

  /** The type a child has to have to be stored in a place. */
  predicate Fits(s: Slot, k: Kind) {
    match s
    case Statement => IsStatement(k)
    case Init => IsStatement(k)
    case Name => k == Identifier
    case BoundFirst => k == Identifier
    case Bound => k == Identifier
    case Parameter => k == Identifier
    case Field => k == Identifier
    case Variant => k == Identifier
    case LoopBinding => k == Identifier
    case Alias => k == Identifier
    case Body => k == BlockStatement
    case Consequence => k == BlockStatement
    case Alternative => k == BlockStatement
    case Path => k == StringLiteral
    case Arm => k == MatchArm
    case FieldValue => k == StructFieldValue
    case _ => IsExpression(k)
  }

  /** A macro's body and an import are not gone into, nor a match's patterns or
      a loop's bindings; a let's Name and a return's ReturnValue are set from
      the list they begin, where there is one. */
  predicate Walks(kind: Kind, slots: seq<Slot>, i: nat)
    requires i < |slots|
  {
    && kind != MacroLiteral && kind != ImportStatement
    && slots[i] != Pattern && slots[i] != LoopBinding && slots[i] != BoundFirst
    && !IsAgain(kind, slots, i)
  }

  /** A modifier: of any node at all, whether or not there is such a node yet, and what it holds when the modifier is
      given it, the contents the modifier leaves it with and the node it answers with. Given nothing, it answers with
      nothing. */
  datatype Edit = Edit(rewrite: (Node, Contents) -> Contents, replace: (Node, Contents) -> Node?)

  /** A match arm and a struct literal's field are not nodes, and no modifier is given one. */
  predicate Given(k: Kind) {
    k != MatchArm && k != StructFieldValue
  }

  function Answer(edit: Edit, n: Node, c: Contents): Node? {
    if Given(n.kind) then edit.replace(n, c) else n
  }

  function Leaves(edit: Edit, n: Node, c: Contents): Contents {
    if Given(n.kind) then edit.rewrite(n, c) else c
  }

  /** A result of the wrong type is stored as nothing. */
  function Stored(s: Slot, n: Node?): Node? {
    if n != null && Fits(s, n.kind) then n else null
  }

  /** What is answered for a tree. */
  function AnswerOf(edit: Edit, p: Option<Plant>): Node?
    requires HasShape(p)
    decreases p, 0
  {
    if p.None? then null else Answer(edit, p.value.node, Ready(edit, p.value))
  }

  /** A place's child once its first `n` places have been gone through. */
  function ChildAfter(edit: Edit, p: Plant, i: nat, n: nat): Node?
    requires HasShape(Some(p)) && i < |p.children|
    decreases p, 0
  {
    if i < n && Walks(p.node.kind, p.slots, i) then Stored(p.slots[i], AnswerOf(edit, p.children[i]))
    else Root(p.children[i])
  }

  function ChildrenAfter(edit: Edit, p: Plant, n: nat): (r: seq<Node?>)
    requires HasShape(Some(p))
    ensures |r| == |p.children| && forall i | 0 <= i < |r| :: r[i] == ChildAfter(edit, p, i, n)
    decreases p, 1
  {
    seq(|p.children|, i requires 0 <= i < |p.children| => ChildAfter(edit, p, i, n))
  }

  /** What a node holds when the modifier is given it. */
  function Ready(edit: Edit, p: Plant): Contents
    requires HasShape(Some(p))
    decreases p, 2
  {
    Contents(p.literal, p.note, p.slots, Shared(p.node.kind, p.slots, ChildrenAfter(edit, p, |p.children|)))
  }

  function After(edit: Edit, p: Plant): Contents
    requires HasShape(Some(p))
  {
    Leaves(edit, p.node, Ready(edit, p))
  }

  /** Every node Modify goes to is left as the modifier leaves it, over children
      that are final; what it does not go into stands as it did. */
  ghost predicate Rewritten(p: Option<Plant>, edit: Edit)
    requires HasShape(p)
    reads Nodes(p)
    decreases p
  {
    p.Some? ==>
      && p.value.node.contents == After(edit, p.value)
      && forall i | 0 <= i < |p.value.children| && !IsAgain(p.value.node.kind, p.value.slots, i) ::
           Settled(p.value, edit, i)
  }

  ghost predicate Settled(p: Plant, edit: Edit, i: nat)
    requires HasShape(Some(p)) && i < |p.children|
    reads Nodes(p.children[i])
    decreases p, 0
  {
    if Walks(p.node.kind, p.slots, i) then Rewritten(p.children[i], edit) else Stands(p.children[i])
  }

  // ---------------------------------------------------------------------
  // Modify
  // ---------------------------------------------------------------------

  /** One place, when the walk over a node's places has come to place `n`. */
  ghost predicate PlaceAt(p: Plant, edit: Edit, n: nat, i: nat)
    requires HasShape(Some(p)) && i < |p.children|
    reads Nodes(p.children[i])
  {
    if i < n then Settled(p, edit, i) else Stands(p.children[i])
  }

  ghost predicate PlacesAt(p: Plant, edit: Edit, n: nat)
    requires HasShape(Some(p))
    reads NodesOf(p.children)
  {
    forall i | 0 <= i < |p.children| && !IsAgain(p.node.kind, p.slots, i) :: PlaceAt(p, edit, n, i)
  }

  function ContentsAt(edit: Edit, p: Plant, n: nat): Contents
    requires HasShape(Some(p))
  {
    Contents(p.literal, p.note, p.slots, ChildrenAfter(edit, p, n))
  }

  lemma {:induction false} ApartChild(p: Plant, i: nat)
    requires Apart(Some(p)) && i < |p.children| && !IsAgain(p.node.kind, p.slots, i)
    ensures p.node !in Nodes(p.children[i]) && Apart(p.children[i]) && Nodes(p.children[i]) <= NodesOf(p.children)
    ensures forall k | 0 <= k < |p.children| && k != i && !IsAgain(p.node.kind, p.slots, k) ::
              Nodes(p.children[k]) !! Nodes(p.children[i])
  {
  }

  lemma {:induction false} NextChildren(edit: Edit, p: Plant, i: nat)
    requires HasShape(Some(p)) && i < |p.children|
    ensures ChildrenAfter(edit, p, i + 1)
         == if Walks(p.node.kind, p.slots, i)
            then ChildrenAfter(edit, p, i)[i := Stored(p.slots[i], AnswerOf(edit, p.children[i]))]
            else ChildrenAfter(edit, p, i)
    ensures ChildrenAfter(edit, p, i)[i] == Root(p.children[i])
  {
    hide Walks, Stored, AnswerOf;
  }

  /** Every child is of the type its place is declared with. */
  predicate WellTyped(p: Option<Plant>)
    requires HasShape(p)
    decreases p
  {
    p.Some? ==> forall i | 0 <= i < |p.value.children| ::
                  && WellTyped(p.value.children[i])
                  && Stored(p.value.slots[i], Root(p.value.children[i])) == Root(p.value.children[i])
  }

  /** A let's Name is its first Names, and a return's ReturnValue its first ReturnValues. */
  predicate Sharing(p: Option<Plant>)
    requires HasShape(p)
    decreases p
  {
    p.Some? ==>
      && p.value.children == Shared(p.value.node.kind, p.value.slots, p.value.children)
      && forall i | 0 <= i < |p.value.children| :: Sharing(p.value.children[i])
  }

  /** The modifier answers with each node of the tree it is given as it stands, and leaves it so. */
  predicate LeavesAlone(edit: Edit, p: Option<Plant>)
    requires HasShape(p)
    decreases p
  {
    p.Some? ==>
      && Answer(edit, p.value.node, ContentsOf(p.value)) == p.value.node
      && Leaves(edit, p.value.node, ContentsOf(p.value)) == ContentsOf(p.value)
      && forall i | 0 <= i < |p.value.children| :: LeavesAlone(edit, p.value.children[i])
  }

  /** What such a modifier changes nothing of, whatever nodes stand in it twice. */
  predicate Steady(p: Option<Plant>, edit: Edit)
    requires HasShape(p)
  {
    LeavesAlone(edit, p) && WellTyped(p) && Sharing(p)
  }

  /** The modifier that answers with what it is given is one for every tree. */
  lemma {:induction false} IdentityLeavesAlone(p: Option<Plant>)
    requires HasShape(p)
    ensures LeavesAlone(Edit((n, c) => c, (n, c) => n), p)
    decreases p
  {
    if p.Some? {
      forall i | 0 <= i < |p.value.children|
        ensures LeavesAlone(Edit((n, c) => c, (n, c) => n), p.value.children[i])
      {
        IdentityLeavesAlone(p.value.children[i]);
      }
    }
  }

  lemma {:induction false} SteadyChild(p: Plant, edit: Edit, i: nat)
    requires HasShape(Some(p)) && Steady(Some(p), edit) && i < |p.children|
    ensures Steady(p.children[i], edit)
    ensures Stored(p.slots[i], AnswerOf(edit, p.children[i])) == Root(p.children[i])
    decreases p, 0
  {
    hide Stored, Answer, Leaves, Ready;
    if p.children[i].Some? {
      SteadyReady(p.children[i].value, edit);
    }
  }

  /** The modifier is given each node of it as it stands. */
  lemma {:induction false} SteadyReady(p: Plant, edit: Edit)
    requires HasShape(Some(p)) && Steady(Some(p), edit)
    ensures Ready(edit, p) == ContentsOf(p)
    decreases p, 1
  {
    hide Stored, Answer, Leaves, AnswerOf, Steady, Again;
    forall i | 0 <= i < |p.children|
      ensures ChildAfter(edit, p, i, |p.children|) == Root(p.children[i])
    {
      SteadyChild(p, edit, i);
    }
    assert ChildrenAfter(edit, p, |p.children|) == Roots(p.children);
    SteadyShares(p, edit);
  }

  lemma {:induction false} SteadyShares(p: Plant, edit: Edit)
    requires HasShape(Some(p)) && Steady(Some(p), edit)
    ensures Shared(p.node.kind, p.slots, Roots(p.children)) == Roots(p.children)
    ensures Leaves(edit, p.node, ContentsOf(p)) == ContentsOf(p) && Answer(edit, p.node, ContentsOf(p)) == p.node
  {
    hide Again;
    SharedRoots(p.node.kind, p.slots, p.children);
  }

  /** A place about to be gone into holds the child the tree says, which stands. */
  lemma {:induction false} PlaceReady(p: Plant, edit: Edit, i: nat)
    requires HasShape(Some(p)) && i < |p.children| && Walks(p.node.kind, p.slots, i)
    requires Apart(Some(p)) || Steady(Some(p), edit)
    requires Apart(Some(p)) ==> p.node.contents == ContentsAt(edit, p, i) && PlacesAt(p, edit, i)
    requires Steady(Some(p), edit) ==> Stands(Some(p))
    ensures |p.node.contents.children| == |p.children| && p.node.contents.slots == p.slots
    ensures p.node.contents.children[i] == Root(p.children[i]) && Stands(p.children[i])
    ensures Apart(p.children[i]) || Steady(p.children[i], edit)
    ensures Apart(Some(p)) ==> Apart(p.children[i]) && p.node !in Nodes(p.children[i])
    ensures Nodes(p.children[i]) <= NodesOf(p.children)
  {
    hide Nodes, NodesOf, Steady, Stored, AnswerOf;
    if Apart(Some(p)) {
      WalksHere(p, edit, i);
      ApartChild(p, i);
      NextChildren(edit, p, i);
    } else {
      SteadyChild(p, edit, i);
      StandsChild(p, i);
    }
  }

  lemma {:induction false} StandsChild(p: Plant, i: nat)
    requires Stands(Some(p)) && i < |p.children|
    ensures Stands(p.children[i]) && p.node.contents == ContentsOf(p) && Nodes(p.children[i]) <= NodesOf(p.children)
  {
  }

  lemma SameInPlace(nodes: seq<Node?>, i: nat)
    requires i < |nodes|
    ensures nodes[i := nodes[i]] == nodes
  {
  }

  /** One place that is gone into. */
  method ModifyPlace(node: Node, edit: Edit, i: nat, ghost p: Plant, ghost world: set<Node>)
    requires node == p.node && HasShape(Some(p)) && i < |p.children| && Walks(node.kind, p.slots, i)
    requires Apart(Some(p)) || Steady(Some(p), edit)
    requires Apart(Some(p)) ==> node.contents == ContentsAt(edit, p, i) && PlacesAt(p, edit, i)
    requires Steady(Some(p), edit) ==> Stands(Some(p))
    requires NodesOf(p.children) <= world
    modifies node, NodesOf(p.children)
    ensures Apart(Some(p)) ==> node.contents == ContentsAt(edit, p, i + 1) && PlacesAt(p, edit, i + 1)
    ensures Steady(Some(p), edit) ==> unchanged(node) && unchanged(NodesOf(p.children))
    decreases p, 0
  {
    hide Nodes, NodesOf, Apart, Stored, AnswerOf, ChildrenAfter, IsAgain, Rewritten, Stands, Steady;
    PlaceReady(p, edit, i);
    if Steady(Some(p), edit) {
      SteadyChild(p, edit, i);
    }
    var child := Modify(node.contents.children[i], edit, p.children[i], world);
    assert node.contents == old(node.contents);
    if Steady(Some(p), edit) {
      assert Stored(node.contents.slots[i], child) == node.contents.children[i];
      SameInPlace(node.contents.children, i);
    }
    node.contents := node.contents.(children := node.contents.children[i := Stored(node.contents.slots[i], child)]);
    if Apart(Some(p)) {
      ApartChild(p, i);
      NextChildren(edit, p, i);
      forall k | 0 <= k < |p.children| && !IsAgain(p.node.kind, p.slots, k)
        ensures PlaceAt(p, edit, i + 1, k)
      {
        if k == i {
          assert Rewritten(p.children[i], edit);
        } else {
          ApartChild(p, k);
          assert old(PlaceAt(p, edit, i, k)) && PlaceAt(p, edit, i, k);
        }
      }
    }
  }

  lemma {:induction false} WalksHere(p: Plant, edit: Edit, i: nat)
    requires HasShape(Some(p)) && i < |p.children| && Walks(p.node.kind, p.slots, i) && PlacesAt(p, edit, i)
    ensures Stands(p.children[i]) && !IsAgain(p.node.kind, p.slots, i)
  {
  }

  /** A place that is not gone into is settled as it stands. */
  lemma {:induction false} PassesBy(p: Plant, edit: Edit, i: nat)
    requires HasShape(Some(p)) && i < |p.children| && !Walks(p.node.kind, p.slots, i) && PlacesAt(p, edit, i)
    ensures PlacesAt(p, edit, i + 1)
  {
  }

  lemma {:induction false} WalkBegins(p: Plant, edit: Edit)
    requires HasShape(Some(p)) && Stands(Some(p))
    ensures p.node.contents == ContentsAt(edit, p, 0) && PlacesAt(p, edit, 0)
  {
  }

  lemma {:induction false} WalkEnds(p: Plant, edit: Edit)
    requires HasShape(Some(p)) && PlacesAt(p, edit, |p.children|) && p.node.contents == After(edit, p)
    ensures Rewritten(Some(p), edit)
  {
  }

  /** Modify: it writes to no node but those of the tree it is given, whatever
      the modifier answers with; and with one that leaves alone what it is given
      every node is left as it was. */
  method Modify(node: Node?, edit: Edit, ghost p: Option<Plant>, ghost world: set<Node>) returns (r: Node?)
    requires Root(p) == node && HasShape(p) && Nodes(p) <= world && Stands(p)
    requires Apart(p) || Steady(p, edit)
    modifies Nodes(p)
    ensures r == AnswerOf(edit, p)
    ensures Apart(p) ==> Rewritten(p, edit)
    ensures Steady(p, edit) ==> unchanged(Nodes(p))
    decreases p
  {
    hide NodesOf, ChildrenAfter, PlacesAt, Walks, Stands, Apart, Shared, Steady, Leaves, Answer;
    if node == null {
      return null;
    }
    var n := |node.contents.children|;
    var i: nat := 0;
    WalkBegins(p.value, edit);
    while i < n
      invariant i <= n == |p.value.children|
      invariant Apart(p) ==> node.contents == ContentsAt(edit, p.value, i) && PlacesAt(p.value, edit, i)
      invariant Steady(p, edit) ==> unchanged(Nodes(p)) && Stands(p)
      invariant node.contents.slots == p.value.slots && |node.contents.children| == n
      decreases n - i
    {
      if Walks(node.kind, node.contents.slots, i) {
        ModifyPlace(node, edit, i, p.value, world);
      } else if Apart(p) {
        NextChildren(edit, p.value, i);
        PassesBy(p.value, edit, i);
      }
      i := i + 1;
    }
    if Apart(p) {
      KeepsPlaces(p.value);
    }
    if Steady(p, edit) {
      SteadyShares(p.value, edit);
      SteadyReady(p.value, edit);
      StandsChildren(p.value);
    }
    node.contents := node.contents.(children := Shared(node.kind, node.contents.slots, node.contents.children));
    var ready := node.contents;
    assert ready == Ready(edit, p.value);
    node.contents := Leaves(edit, node, ready);
    if Apart(p) {
      WalkEnds(p.value, edit);
    }
    return Answer(edit, node, ready);
  }

  lemma {:induction false} StandsChildren(p: Plant)
    requires Stands(Some(p))
    ensures p.node.contents == ContentsOf(p)
  {
  }

  lemma {:induction false} KeepsPlaces(p: Plant)
    requires Apart(Some(p))
    ensures p.node !in NodesOf(p.children)
  {
  }

  // ---------------------------------------------------------------------
  // A copy
  // ---------------------------------------------------------------------

  /** A template used: its copy is rewritten under any modifier, and no node
      that was there before is written to. */
  method ModifyCopy(node: Node?, edit: Edit, ghost p: Option<Plant>, ghost world: set<Node>)
    returns (copy: Node?, r: Node?, ghost q: Option<Plant>, ghost home: set<Node>)
    requires Root(p) == node && HasShape(p) && Nodes(p) <= world && Stands(p)
    ensures fresh(home) && Nodes(q) <= home && Root(q) == copy && HasShape(q) && Apart(q)
    ensures TreeOf(q) == Copied(TreeOf(p)) && Rewritten(q, edit) && r == AnswerOf(edit, q)
    ensures Stands(p)
  {
    hide Rewritten, Nodes, TreeOf;
    copy, q, home := Clone(node, p, world);
    r := Modify(copy, edit, q, home);
  }

  /** A template used twice, under two modifiers: each use rewrites a copy of the template as it was to begin with, and
      neither is seen through the other or through the template. */
  method UsedTwice(node: Node?, first: Edit, second: Edit, ghost p: Option<Plant>, ghost world: set<Node>)
    returns (one: Node?, other: Node?, ghost q: Option<Plant>, ghost q': Option<Plant>)
    requires Root(p) == node && HasShape(p) && Nodes(p) <= world && Stands(p)
    ensures HasShape(q) && TreeOf(q) == Copied(TreeOf(p)) && Rewritten(q, first) && one == AnswerOf(first, q)
    ensures HasShape(q') && TreeOf(q') == Copied(TreeOf(p)) && Rewritten(q', second) && other == AnswerOf(second, q')
    ensures fresh(Nodes(q)) && fresh(Nodes(q')) && Nodes(q) !! Nodes(q')
    ensures Stands(p)
  {
    hide Rewritten, Nodes, TreeOf, Copied, AnswerOf, HasShape;
    var copy, copy'; ghost var home, home';
    copy, one, q, home := ModifyCopy(node, first, p, world);
    copy', other, q', home' := ModifyCopy(node, second, p, world);
  }

  // ---------------------------------------------------------------------
  // A template and two arguments
  // ---------------------------------------------------------------------

  /** The modifier that answers with an argument for every name that is `name`. */
  function Substitute(name: string, argument: Node): Edit {
    Edit((n: Node, c: Contents) => c,
         (n: Node, c: Contents) => if n.kind == Identifier && c.literal == Text(name) then argument else n)
  }

  /** A statement that is a name alone. */
  function NamePlant(statement: Node, name: Node, text: string): Plant {
    Plant(statement, Nothing, "", [Operand], [Some(Plant(name, Text(text), "", [], []))])
  }

  lemma {:induction false} NameStands(statement: Node, name: Node, text: string)
    requires statement.kind == ExpressionStatement && name.kind == Identifier
    ensures var p := Some(NamePlant(statement, name, text));
            && HasShape(p) && Nodes(p) == {statement, name} && Root(p) == statement
            && (Stands(p) <==> statement.contents == Contents(Nothing, "", [Operand], [name])
                               && name.contents == Contents(Text(text), "", [], []))
  {
    var p := NamePlant(statement, name, text);
    var leaf := p.children[0].value;
    assert Roots(p.children) == [name] && Roots([]) == [];
    assert leaf.children == [] && NodesOf([]) == {};
    assert Nodes(p.children[0]) == {name} + NodesOf(leaf.children) == {name};
    assert p.children[1..] == [];
    assert NodesOf(p.children) == Nodes(p.children[0]) + NodesOf(p.children[1..]) == {name};
    assert StandAll(leaf.children);
    assert Stands(p.children[0]) <==> name.contents == ContentsOf(leaf);
  }

  lemma {:induction false} SubstitutedIn(q: Plant, text: string, argument: Node)
    requires HasShape(Some(q)) && q.node.kind == ExpressionStatement && q.slots == [Operand] && IsExpression(argument.kind)
    requires q.children[0].Some? && q.children[0].value.node.kind == Identifier
    requires q.children[0].value.literal == Text(text)
    requires Rewritten(Some(q), Substitute(text, argument))
    ensures q.node.contents.children == [argument]
  {
    var edit := Substitute(text, argument);
    assert Walks(q.node.kind, q.slots, 0);
    assert AnswerOf(edit, q.children[0]) == argument;
    assert ChildrenAfter(edit, q, 1) == [argument];
  }

  lemma {:induction false} NameCopied(p: Plant, q: Option<Plant>, statement: Node, name: Node, text: string)
    requires p == NamePlant(statement, name, text) && statement.kind == ExpressionStatement && name.kind == Identifier
    requires HasShape(Some(p)) && HasShape(q) && TreeOf(q) == Copied(TreeOf(Some(p)))
    ensures q.Some? && q.value.node.kind == ExpressionStatement && q.value.slots == [Operand]
    ensures q.value.children[0].Some? && q.value.children[0].value.node.kind == Identifier
    ensures q.value.children[0].value.literal == Text(text)
  {
    var t, u := TreeOf(Some(p)).value, TreeOf(q).value;
    CopiedChild(t, 0);
    assert t.children[0] == TreeOf(p.children[0]);
    assert u.children[0] == TreeOf(q.value.children[0]);
    assert u.children[0] == Copied(t.children[0]);
  }

  /** One template, two arguments: each use holds its own argument, and the template still holds the name. */
  method TwoArguments(text: string, first: Node, second: Node) returns (template: Node, one: Node, other: Node)
    requires IsExpression(first.kind) && IsExpression(second.kind)
    ensures one.contents.children == [first] && other.contents.children == [second]
    ensures |template.contents.children| == 1 && template.contents.children[0] != null
    ensures template.contents.children[0].contents.literal == Text(text)
  {
    hide Rewritten, Copied;
    var name := new Node(Identifier, Contents(Text(text), "", [], []));
    template := new Node(ExpressionStatement, Contents(Nothing, "", [Operand], [name]));
    ghost var p := NamePlant(template, name, text);
    NameStands(template, name, text);
    ghost var q, q';
    var a, b;
    a, b, q, q' := UsedTwice(template, Substitute(text, first), Substitute(text, second), Some(p), {template, name});
    NameCopied(p, q, template, name, text);
    NameCopied(p, q', template, name, text);
    SubstitutedIn(q.value, text, first);
    SubstitutedIn(q'.value, text, second);
    one, other := a, b;
  }
}
