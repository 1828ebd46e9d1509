// Syntax trees as values: what makes two of them the same program, and what a
// copy of one is.
module Ast {
  import opened Common

  /** Every kind of node, and the two records that are not nodes and stand in trees as if they were. */
  datatype Kind =
    | Program | BlockStatement | ExpressionStatement | LetStatement | ReturnStatement | ForInStatement
    | WhileStatement | ForStatement | StructStatement | EnumStatement | BreakStatement | ContinueStatement
    | ImportStatement
    | Identifier | IntegerLiteral | FloatLiteral | StringLiteral | Boolean | PrefixExpression | InfixExpression
    | IndexExpression | CallExpression | AssignExpression | FieldExpression | MatchExpression | IfExpression
    | FunctionLiteral | MacroLiteral | ArrayLiteral | TemplateLiteral | HashLiteral | StructLiteral
    | MatchArm | StructFieldValue

  /** What place a child has in the node that holds it. */
  datatype Slot =
    // an expression
    | Operand | Function | Argument | Subject | Pattern | Condition | Post | Iterable | Value | Element | Part
    | PairKey | PairValue | Returned | ReturnedFirst
    // a statement
    | Statement | Init
    // an identifier
    | Name | BoundFirst | Bound | Parameter | Field | Variant | LoopBinding | Alias
    // a block
    | Body | Consequence | Alternative
    // an import's path, a match arm, a struct literal's field
    | Path | Arm | FieldValue

  /** A float as a number, or NaN, which equals nothing. */
  datatype FloatValue = Number(real) | NaN

  /** What a node says besides its children: its value, name, operator or texts. */
  datatype Literal = Nothing | Text(string) | Integer(int) | Float(FloatValue) | Bool(bool) | Operator(string, bool)
                   | Texts(seq<string>)

  /** `note` is what Equal leaves out: the token with its position and spelling, and whether an arm was braced. */
  datatype Tree = Tree(kind: Kind, literal: Literal, note: string, slots: seq<Slot>, children: seq<Option<Tree>>)

  // ---------------------------------------------------------------------
  // The same program
  // ---------------------------------------------------------------------

  predicate SameLiteral(a: Literal, b: Literal) {
    a == b && a != Float(NaN)
  }

  predicate EqualHead(a: Tree, b: Tree) {
    && a.kind == b.kind && SameLiteral(a.literal, b.literal) && a.slots == b.slots
    && |a.children| == |b.children|
  }

  predicate Equal(a: Option<Tree>, b: Option<Tree>)
    decreases a
  {
    if a.None? || b.None? then a.None? && b.None?
    else EqualHead(a.value, b.value) && EqualChildren(a.value, b.value)
  }

  /** equalNodes, on all the children: pairwise, in order. */
  predicate EqualChildren(a: Tree, b: Tree)
    requires |a.children| == |b.children|
    decreases a
  {
    forall i | 0 <= i < |a.children| :: Equal(a.children[i], b.children[i])
  }

  lemma {:induction false} EqualSymmetric(a: Option<Tree>, b: Option<Tree>)
    requires Equal(a, b)
    ensures Equal(b, a)
    decreases a
  {
    if a.Some? {
      forall i | 0 <= i < |a.value.children|
        ensures Equal(b.value.children[i], a.value.children[i])
      {
        EqualSymmetric(a.value.children[i], b.value.children[i]);
      }
    }
  }

  lemma {:induction false} EqualTransitive(a: Option<Tree>, b: Option<Tree>, c: Option<Tree>)
    requires Equal(a, b) && Equal(b, c)
    ensures Equal(a, c)
    decreases a
  {
    if a.Some? {
      forall i | 0 <= i < |a.value.children|
        ensures Equal(a.value.children[i], c.value.children[i])
      {
        EqualTransitive(a.value.children[i], b.value.children[i], c.value.children[i]);
      }
    }
  }

  /** No literal in it is NaN. */
  predicate Numeric(t: Option<Tree>)
    decreases t
  {
    t.Some? ==> t.value.literal != Float(NaN) && forall i | 0 <= i < |t.value.children| :: Numeric(t.value.children[i])
  }

  /** Equal is an equivalence on the trees with no NaN in them, and a tree with one is not equal to itself. */
  lemma {:induction false} EqualReflexive(t: Option<Tree>)
    ensures Equal(t, t) <==> Numeric(t)
    decreases t
  {
    if t.Some? {
      forall i | 0 <= i < |t.value.children|
        ensures Equal(t.value.children[i], t.value.children[i]) <==> Numeric(t.value.children[i])
      {
        EqualReflexive(t.value.children[i]);
      }
    }
  }

  /** A tree without its notes. */
  function Stripped(t: Option<Tree>): Option<Tree>
    decreases t
  {
    if t.None? then None else
      Some(t.value.(note := "", children := seq(|t.value.children|, i requires 0 <= i < |t.value.children| =>
                                                                      Stripped(t.value.children[i]))))
  }

  /** Two trees are equal exactly if they are one tree but for their notes, with no NaN in it. */
  lemma {:induction false} EqualIff(a: Option<Tree>, b: Option<Tree>)
    ensures Equal(a, b) <==> Numeric(a) && Stripped(a) == Stripped(b)
    decreases a
  {
    if a.Some? && b.Some? {
      var x, y := a.value, b.value;
      var s, t := Stripped(a).value, Stripped(b).value;
      assert |s.children| == |x.children| && |t.children| == |y.children|;
      if |x.children| == |y.children| {
        forall i | 0 <= i < |x.children|
          ensures Equal(x.children[i], y.children[i]) <==> Numeric(x.children[i]) && s.children[i] == t.children[i]
        {
          EqualIff(x.children[i], y.children[i]);
          assert s.children[i] == Stripped(x.children[i]) && t.children[i] == Stripped(y.children[i]);
        }
        assert (forall i | 0 <= i < |x.children| :: s.children[i] == t.children[i]) <==> s.children == t.children;
      }
    }
  }

  // ---------------------------------------------------------------------
  // A child held twice: a let's Name is its first Names, a return's ReturnValue
  // its first ReturnValues
  // ---------------------------------------------------------------------

  function IndexOf(slots: seq<Slot>, s: Slot): (i: nat)
    ensures i <= |slots| && (i < |slots| ==> slots[i] == s) && forall k | 0 <= k < i :: slots[k] != s
  {
    if slots == [] || slots[0] == s then 0 else 1 + IndexOf(slots[1..], s)
  }

  /** Where the child held twice is held, and where it is held again. */
  function Again(kind: Kind, slots: seq<Slot>): (r: Option<(nat, nat)>)
    ensures r.Some? ==> r.value.0 < |slots| && r.value.1 < |slots| && r.value.0 != r.value.1
  {
    var (first, again) := if kind == LetStatement then (Bound, BoundFirst) else (Returned, ReturnedFirst);
    if (kind == LetStatement || kind == ReturnStatement) && IndexOf(slots, first) < |slots|
       && IndexOf(slots, again) < |slots|
    then Some((IndexOf(slots, first), IndexOf(slots, again))) else None
  }

  predicate IsAgain(kind: Kind, slots: seq<Slot>, i: nat) {
    Again(kind, slots).Some? && i == Again(kind, slots).value.1
  }

  /** A node's children, with the one held twice put in both its places. */
  function Shared<T>(kind: Kind, slots: seq<Slot>, children: seq<T>): (r: seq<T>)
    requires |slots| == |children|
    ensures |r| == |children|
    ensures forall i | 0 <= i < |r| ::
              r[i] == if IsAgain(kind, slots, i) then children[Again(kind, slots).value.0] else children[i]
  {
    var again := Again(kind, slots);
    if again.None? then children else children[again.value.1 := children[again.value.0]]
  }

  /** A child for every place. */
  predicate Shaped(t: Option<Tree>)
    decreases t
  {
    t.Some? ==> |t.value.slots| == |t.value.children| && forall i | 0 <= i < |t.value.children| :: Shaped(t.value.children[i])
  }

  // ---------------------------------------------------------------------
  // A copy
  // ---------------------------------------------------------------------

  function Copied(t: Option<Tree>): Option<Tree>
    requires Shaped(t)
    decreases t
  {
    if t.None? then None else
      var children := seq(|t.value.children|, i requires 0 <= i < |t.value.children| => Copied(t.value.children[i]));
      Some(t.value.(children := Shared(t.value.kind, t.value.slots, children)))
  }

  lemma {:induction false} CopiedChild(t: Tree, i: nat)
    requires Shaped(Some(t)) && i < |t.children|
    ensures Copied(Some(t)).Some? && |Copied(Some(t)).value.children| == |t.children|
    ensures Copied(Some(t)).value.children[i]
         == Copied(t.children[if IsAgain(t.kind, t.slots, i) then Again(t.kind, t.slots).value.0 else i])
  {
  }

  /** A let of names and a return of values, as they are laid out: the one held again, the list, and a let's value. */
  predicate LetOrReturn(kind: Kind, slots: seq<Slot>, n: nat) {
    if kind == LetStatement then
      && |slots| == n + 2 && slots[0] == BoundFirst && slots[n + 1] == Value
      && forall i | 1 <= i <= n :: slots[i] == Bound
    else
      && kind == ReturnStatement && |slots| == n + 1 && slots[0] == ReturnedFirst
      && forall i | 1 <= i <= n :: slots[i] == Returned
  }

  lemma {:induction false} AgainIsNext(kind: Kind, slots: seq<Slot>, n: nat)
    requires LetOrReturn(kind, slots, n)
    ensures Again(kind, slots) == if n > 0 then Some((1, 0)) else None
  {
    var first := if kind == LetStatement then Bound else Returned;
    assert slots[0] != first && IndexOf(slots, slots[0]) == 0;
    assert n == 0 ==> first !in slots;
    assert n > 0 ==> slots[1] == first;
  }

  lemma {:induction false} CopiedKind(t: Option<Tree>)
    requires Shaped(t)
    ensures Copied(t).Some? <==> t.Some?
    ensures t.Some? ==> Copied(t).value == t.value.(children := Copied(t).value.children)
    ensures t.Some? ==> |Copied(t).value.children| == |t.value.children|
  {
  }

  /** In a copy the one held again is the copy of the first of the list, where there is one; and every child is the copy
      of the child in its place, in every other node too. */
  lemma {:induction false} CopiedInPlace(t: Tree, n: nat, i: nat)
    requires Shaped(Some(t)) && i < |t.children|
    ensures Copied(Some(t)).Some? && |Copied(Some(t)).value.children| == |t.children|
    ensures LetOrReturn(t.kind, t.slots, n) ==>
              Copied(Some(t)).value.children[i] == Copied(t.children[if i == 0 && n > 0 then 1 else i])
    ensures t.kind != LetStatement && t.kind != ReturnStatement ==>
              Copied(Some(t)).value.children[i] == Copied(t.children[i])
    ensures var c := Copied(Some(t)).value;
            c.kind == t.kind && c.literal == t.literal && c.note == t.note && c.slots == t.slots
  {
    hide Copied;
    CopiedKind(Some(t));
    CopiedChild(t, i);
    if LetOrReturn(t.kind, t.slots, n) {
      AgainIsNext(t.kind, t.slots, n);
    }
  }

  /** The copy comes out the same: no NaN where it is copied, and where a child
      is held twice the two are equal. */
  predicate Copyable(t: Option<Tree>)
    requires Shaped(t)
    decreases t
  {
    t.Some? ==>
      && t.value.literal != Float(NaN)
      && forall i | 0 <= i < |t.value.children| ::
           if IsAgain(t.value.kind, t.value.slots, i)
           then Equal(t.value.children[i], t.value.children[Again(t.value.kind, t.value.slots).value.0])
           else Copyable(t.value.children[i])
  }

  lemma FirstIsCopied(t: Tree)
    requires Again(t.kind, t.slots).Some?
    ensures !IsAgain(t.kind, t.slots, Again(t.kind, t.slots).value.0)
  {
  }

  /** A tree equals its copy exactly when that holds of it. */
  lemma {:induction false} CopyIsEqual(t: Option<Tree>)
    requires Shaped(t)
    ensures Equal(t, Copied(t)) <==> Copyable(t)
    decreases t
  {
    hide Again, Shared;
    if t.Some? {
      var c := Copied(t).value;
      assert |c.children| == |t.value.children|;
      forall i | 0 <= i < |t.value.children|
        ensures !IsAgain(t.value.kind, t.value.slots, i) ==>
                  (Equal(t.value.children[i], c.children[i]) <==> Copyable(t.value.children[i]))
      {
        CopyIsEqual(t.value.children[i]);
        CopiedChild(t.value, i);
      }
      if Again(t.value.kind, t.value.slots).Some? {
        FirstIsCopied(t.value);
        AgainIsEqual(t.value, c);
      }
    }
  }

  /** Given that the child held twice equals its copy, where it is held again equals that copy if it equals it. */
  lemma {:induction false} AgainIsEqual(t: Tree, c: Tree)
    requires Shaped(Some(t)) && c == Copied(Some(t)).value && Again(t.kind, t.slots).Some?
    ensures var (first, again) := Again(t.kind, t.slots).value;
            |c.children| == |t.children| && (Equal(t.children[first], c.children[first]) ==>
              (Equal(t.children[again], c.children[again]) <==> Equal(t.children[again], t.children[first])))
  {
    hide Shared, Again, Equal;
    var (first, again) := Again(t.kind, t.slots).value;
    CopiedChild(t, first);
    CopiedChild(t, again);
    FirstIsCopied(t);
    assert c.children[first] == c.children[again];
    if Equal(t.children[first], c.children[first]) {
      EqualSymmetric(t.children[first], c.children[first]);
      if Equal(t.children[again], c.children[again]) {
        EqualTransitive(t.children[again], c.children[again], t.children[first]);
      }
      if Equal(t.children[again], t.children[first]) {
        EqualTransitive(t.children[again], t.children[first], c.children[again]);
      }
    }
  }

  /** As the parser leaves a tree: what is held twice is one child, and no literal is NaN. */
  predicate WellFormed(t: Option<Tree>)
    requires Shaped(t)
    decreases t
  {
    t.Some? ==>
      && t.value.literal != Float(NaN)
      && t.value.children == Shared(t.value.kind, t.value.slots, t.value.children)
      && forall i | 0 <= i < |t.value.children| :: WellFormed(t.value.children[i])
  }

  lemma {:induction false} WellFormedNumeric(t: Option<Tree>)
    requires Shaped(t) && WellFormed(t)
    ensures Numeric(t) && Copyable(t)
    decreases t
  {
    if t.Some? {
      forall i | 0 <= i < |t.value.children|
        ensures Numeric(t.value.children[i]) && Copyable(t.value.children[i])
        ensures IsAgain(t.value.kind, t.value.slots, i) ==>
                  Equal(t.value.children[i], t.value.children[Again(t.value.kind, t.value.slots).value.0])
      {
        WellFormedNumeric(t.value.children[i]);
        EqualReflexive(t.value.children[i]);
      }
    }
  }

  /** Such a tree equals its copy. */
  lemma {:induction false} CopyOfWellFormed(t: Option<Tree>)
    requires Shaped(t) && WellFormed(t)
    ensures Equal(t, Copied(t))
  {
    WellFormedNumeric(t);
    CopyIsEqual(t);
  }
}
