// What each kind of node is made of: the places it has, in order, what may
// stand in each, and what it says itself. Trees laid out so are compared as
// Equal's arms compare them, and a copy of one is laid out so too.
module AstLayout {
  import opened Common
  import opened Ast
  import opened AstNodes
  import opened AstModify

  /** Places a kind has once, a group it has any number of times, and places it has once after them. */
  datatype Layout = Layout(before: seq<Slot>, each: seq<Slot>, after: seq<Slot>)

  function LayoutOf(k: Kind): Layout {
    match k
    case Program => Layout([], [Statement], [])
    case BlockStatement => Layout([], [Statement], [])
    case ExpressionStatement => Layout([Operand], [], [])
    case LetStatement => Layout([BoundFirst], [Bound], [Value])
    case ReturnStatement => Layout([ReturnedFirst], [Returned], [])
    case ForInStatement => Layout([LoopBinding, LoopBinding, Iterable, Body], [], [])
    case WhileStatement => Layout([Condition, Body], [], [])
    case ForStatement => Layout([Init, Condition, Post, Body], [], [])
    case StructStatement => Layout([Name], [Field], [])
    case EnumStatement => Layout([Name], [Variant], [])
    case ImportStatement => Layout([Alias, Path], [], [])
    case PrefixExpression => Layout([Operand], [], [])
    case InfixExpression => Layout([Operand, Operand], [], [])
    case IndexExpression => Layout([Operand, Operand], [], [])
    case CallExpression => Layout([Function], [Argument], [])
    case AssignExpression => Layout([Operand, Value], [], [])
    case FieldExpression => Layout([Operand, Field], [], [])
    case MatchExpression => Layout([Subject], [Arm], [])
    case IfExpression => Layout([Condition, Consequence, Alternative], [], [])
    case FunctionLiteral => Layout([], [Parameter], [Body])
    case MacroLiteral => Layout([], [Parameter], [Body])
    case ArrayLiteral => Layout([], [Element], [])
    case TemplateLiteral => Layout([], [Part], [])
    case HashLiteral => Layout([], [PairKey, PairValue], [])
    case StructLiteral => Layout([Name], [FieldValue], [])
    case MatchArm => Layout([], [Pattern], [Body])
    case StructFieldValue => Layout([Name, Value], [], [])
    case _ => Layout([], [], []) // a leaf: a name, a literal, a break or a continue
  }

  /** What a kind says besides its children. */
  predicate Says(k: Kind, l: Literal) {
    match k
    case Identifier => l.Text?
    case IntegerLiteral => l.Integer?
    case FloatLiteral => l.Float?
    case StringLiteral => l.Text?
    case Boolean => l.Bool?
    case PrefixExpression => l.Operator?
    case InfixExpression => l.Operator?
    case AssignExpression => l.Operator?
    case FunctionLiteral => l.Text?
    case TemplateLiteral => l.Texts?
    case _ => l == Nothing
  }

  function Repeated(each: seq<Slot>, n: nat): (r: seq<Slot>)
    ensures |r| == n * |each|
  {
    if n == 0 then [] else each + Repeated(each, n - 1)
  }

  function PlacesFor(k: Kind, n: nat): seq<Slot> {
    LayoutOf(k).before + Repeated(LayoutOf(k).each, n) + LayoutOf(k).after
  }

  ghost predicate Laid(k: Kind, slots: seq<Slot>) {
    exists n: nat :: slots == PlacesFor(k, n)
  }

  /** In every node the kind's own places, with children of the types they are declared with, and its own literal. */
  ghost predicate LaidOut(t: Option<Tree>)
    requires Shaped(t)
    decreases t
  {
    t.Some? ==>
      && Laid(t.value.kind, t.value.slots) && Says(t.value.kind, t.value.literal)
      && forall i | 0 <= i < |t.value.children| ::
           Suits(t.value.slots[i], t.value.children[i]) && LaidOut(t.value.children[i])
  }

  /** The child is of the type the place is declared with, or there is none. */
  predicate Suits(s: Slot, t: Option<Tree>) {
    t.Some? ==> Fits(s, t.value.kind)
  }

  // ---------------------------------------------------------------------
  // Equal's arms
  // ---------------------------------------------------------------------

  lemma OneLength(n: nat, m: nat, size: nat)
    requires size > 0 && n * size == m * size
    ensures n == m
  {
  }

  lemma {:induction false} NoneRepeated(n: nat)
    ensures Repeated([], n) == []
  {
  }

  /** Nodes of one kind with as many children have the same places. */
  lemma {:induction false} SamePlaces(k: Kind, a: seq<Slot>, b: seq<Slot>)
    requires Laid(k, a) && Laid(k, b) && |a| == |b|
    ensures a == b
  {
    hide LayoutOf;
    var n: nat :| a == PlacesFor(k, n);
    var m: nat :| b == PlacesFor(k, m);
    var each := LayoutOf(k).each;
    if each == [] {
      NoneRepeated(n);
      NoneRepeated(m);
    } else {
      OneLength(n, m, |each|);
    }
  }

  lemma {:induction false} EqualHeadIs(a: Tree, b: Tree)
    requires Shaped(Some(a)) && Shaped(Some(b)) && LaidOut(Some(a)) && LaidOut(Some(b))
    ensures EqualHead(a, b) <==> a.kind == b.kind && SameLiteral(a.literal, b.literal) && |a.children| == |b.children|
  {
    hide Laid;
    if a.kind == b.kind && |a.children| == |b.children| {
      SamePlaces(a.kind, a.slots, b.slots);
    }
  }

  /** As the arms of Equal compare two trees, kind by kind: the literal, how many there are in the list a node holds, and
      the children in order. No arm asks what place a child has. */
  predicate ArmsEqual(a: Option<Tree>, b: Option<Tree>)
    decreases a
  {
    if a.None? || b.None? then a.None? && b.None?
    else
      && a.value.kind == b.value.kind && SameLiteral(a.value.literal, b.value.literal)
      && |a.value.children| == |b.value.children|
      && forall i | 0 <= i < |a.value.children| :: ArmsEqual(a.value.children[i], b.value.children[i])
  }

  /** Of trees laid out as their kinds are, that is Equal: what places the children have is settled by the rest. */
  lemma {:induction false} EqualIsArms(a: Option<Tree>, b: Option<Tree>)
    requires Shaped(a) && Shaped(b) && LaidOut(a) && LaidOut(b)
    ensures Equal(a, b) <==> ArmsEqual(a, b)
    decreases a
  {
    hide Laid, EqualHead;
    if a.Some? && b.Some? {
      EqualHeadIs(a.value, b.value);
      if |a.value.children| == |b.value.children| {
        forall i | 0 <= i < |a.value.children|
          ensures Equal(a.value.children[i], b.value.children[i]) <==> ArmsEqual(a.value.children[i], b.value.children[i])
        {
          EqualIsArms(a.value.children[i], b.value.children[i]);
        }
      }
    }
  }

  // ---------------------------------------------------------------------
  // Modify's arms
  // ---------------------------------------------------------------------

  /** The places the arm of Modify for a kind goes into, and none for a kind without one. */
  function ArmOf(k: Kind): set<Slot> {
    match k
    case Program => {Statement}
    case ExpressionStatement => {Operand}
    case InfixExpression => {Operand}
    case PrefixExpression => {Operand}
    case IndexExpression => {Operand}
    case CallExpression => {Function, Argument}
    case MatchExpression => {Subject, Arm}
    case MatchArm => {Body}
    case IfExpression => {Condition, Consequence, Alternative}
    case BlockStatement => {Statement}
    case ForInStatement => {Iterable, Body}
    case WhileStatement => {Condition, Body}
    case ForStatement => {Init, Condition, Post, Body}
    case ReturnStatement => {Returned, ReturnedFirst}
    case LetStatement => {Bound, Value}
    case AssignExpression => {Operand, Value}
    case FieldExpression => {Operand, Field}
    case FunctionLiteral => {Parameter, Body}
    case ArrayLiteral => {Element}
    case TemplateLiteral => {Part}
    case HashLiteral => {PairKey, PairValue}
    case StructLiteral => {Name, FieldValue}
    case StructFieldValue => {Name, Value}
    case StructStatement => {Name, Field}
    case EnumStatement => {Name, Variant}
    case _ => {}
  }

  lemma {:induction false} RepeatedOnly(each: seq<Slot>, n: nat, i: nat)
    requires i < |Repeated(each, n)|
    ensures Repeated(each, n)[i] in each
  {
    if i >= |each| {
      RepeatedOnly(each, n - 1, i - |each|);
    }
  }

  lemma {:induction false} PlaceIsOwn(k: Kind, slots: seq<Slot>, i: nat)
    requires Laid(k, slots) && i < |slots|
    ensures slots[i] in LayoutOf(k).before || slots[i] in LayoutOf(k).each || slots[i] in LayoutOf(k).after
  {
    hide LayoutOf, Repeated;
    var n: nat :| slots == PlacesFor(k, n);
    var l := LayoutOf(k);
    var middle := Repeated(l.each, n);
    if |l.before| <= i < |l.before| + |middle| {
      RepeatedOnly(l.each, n, i - |l.before|);
    }
  }

  /** Of the places a kind has, its arm leaves out the same ones whatever the kind is. */
  lemma ArmLeavesOut(k: Kind, s: Slot)
    requires s in LayoutOf(k).before || s in LayoutOf(k).each || s in LayoutOf(k).after
    ensures s in ArmOf(k) <==>
            k != MacroLiteral && k != ImportStatement && s != Pattern && s != LoopBinding && s != BoundFirst
  {
  }

  lemma {:induction false} RepeatedOne(s: Slot, n: nat, i: nat)
    requires i < n
    ensures |Repeated([s], n)| == n && Repeated([s], n)[i] == s
  {
    RepeatedOnly([s], n, i);
  }

  lemma {:induction false} LaidLetOrReturn(k: Kind, n: nat)
    requires k == LetStatement || k == ReturnStatement
    ensures LetOrReturn(k, PlacesFor(k, n), n)
  {
    hide Repeated;
    var s := if k == LetStatement then Bound else Returned;
    var slots := PlacesFor(k, n);
    assert LayoutOf(k).before == [if k == LetStatement then BoundFirst else ReturnedFirst] && LayoutOf(k).each == [s];
    assert |Repeated([s], n)| == n;
    forall i | 1 <= i <= n
      ensures slots[i] == s
    {
      RepeatedOne(s, n, i - 1);
    }
  }

  /** In a return the one held again is ReturnValue, and in a let Name, where there is a list. */
  lemma {:induction false} AgainIsFirst(k: Kind, slots: seq<Slot>, i: nat)
    requires Laid(k, slots) && i < |slots|
    ensures IsAgain(k, slots, i) <==>
            || (k == ReturnStatement && slots[i] == ReturnedFirst && Returned in slots)
            || (k == LetStatement && slots[i] == BoundFirst && Bound in slots)
  {
    hide PlacesFor, IndexOf;
    if k == ReturnStatement || k == LetStatement {
      var n: nat :| slots == PlacesFor(k, n);
      LaidLetOrReturn(k, n);
      AgainIsNext(k, slots, n);
      assert n > 0 ==> slots[1] in slots;
    }
  }

  /** Modify goes into a place of a node laid out as its kind is exactly if the arm for the kind does; a return's
      ReturnValue only where there is no list to take it from. */
  lemma {:induction false} WalksIff(k: Kind, slots: seq<Slot>, i: nat)
    requires Laid(k, slots) && i < |slots|
    ensures Walks(k, slots, i) <==>
            slots[i] in ArmOf(k) && !(k == ReturnStatement && slots[i] == ReturnedFirst && Returned in slots)
  {
    hide Laid, LayoutOf, ArmOf, IsAgain;
    PlaceIsOwn(k, slots, i);
    ArmLeavesOut(k, slots[i]);
    AgainIsFirst(k, slots, i);
  }

  // ---------------------------------------------------------------------
  // Copies
  // ---------------------------------------------------------------------

  /** What stands where a child is held twice suits the place it is held in again. */
  lemma {:induction false} AgainSuits(k: Kind, slots: seq<Slot>, t: Option<Tree>)
    requires Again(k, slots).Some? && Suits(slots[Again(k, slots).value.0], t)
    ensures Suits(slots[Again(k, slots).value.1], t)
  {
  }

  /** A copy of a tree laid out as its kinds are is laid out so too. */
  lemma {:induction false} CopyLaidOut(t: Option<Tree>)
    requires Shaped(t) && LaidOut(t)
    ensures Shaped(Copied(t)) && LaidOut(Copied(t))
    decreases t
  {
    hide Again, Shared, Laid, Copied, Fits;
    CopiedKind(t);
    if t.Some? {
      var a, c := t.value, Copied(t).value;
      forall i | 0 <= i < |a.children|
        ensures Shaped(c.children[i]) && LaidOut(c.children[i]) && Suits(a.slots[i], c.children[i])
      {
        var k := if IsAgain(a.kind, a.slots, i) then Again(a.kind, a.slots).value.0 else i;
        CopiedChild(a, i);
        CopyLaidOut(a.children[k]);
        CopiedKind(a.children[k]);
        assert Suits(a.slots[k], c.children[i]);
        if k != i {
          AgainSuits(a.kind, a.slots, c.children[i]);
        }
      }
    }
  }

  /** Nodes that stand for such a tree have children of the types their places are declared with. */
  lemma {:induction false} LaidIsWellTyped(p: Option<Plant>)
    requires HasShape(p) && LaidOut(TreeOf(p))
    ensures WellTyped(p)
    decreases p
  {
    hide Laid, Fits;
    if p.Some? {
      var t := TreeOf(p).value;
      forall i | 0 <= i < |p.value.children|
        ensures WellTyped(p.value.children[i])
        ensures Stored(p.value.slots[i], Root(p.value.children[i])) == Root(p.value.children[i])
      {
        assert t.children[i] == TreeOf(p.value.children[i]) && Suits(t.slots[i], t.children[i]);
        LaidIsWellTyped(p.value.children[i]);
      }
    }
  }
}
