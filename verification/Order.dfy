// sort.Strings: byte order on strings, and a sort whose result is fixed by
// what is sorted and not by the order it came in.
module Order {

  predicate Leq(a: string, b: string) {
    a == [] || (b != [] && (a[0] < b[0] || (a[0] == b[0] && Leq(a[1..], b[1..]))))
  }

  lemma {:induction false} LeqTotal(a: string, b: string)
    ensures Leq(a, b) || Leq(b, a)
  {
    if a != [] && b != [] && a[0] == b[0] {
      LeqTotal(a[1..], b[1..]);
    }
  }

  lemma {:induction false} LeqAntisymmetric(a: string, b: string)
    requires Leq(a, b) && Leq(b, a)
    ensures a == b
  {
    if a != [] && b != [] {
      LeqAntisymmetric(a[1..], b[1..]);
      assert a == [a[0]] + a[1..] && b == [b[0]] + b[1..];
    }
  }

  lemma {:induction false} LeqTransitive(a: string, b: string, c: string)
    requires Leq(a, b) && Leq(b, c)
    ensures Leq(a, c)
  {
    if a != [] && a[0] == b[0] == c[0] {
      LeqTransitive(a[1..], b[1..], c[1..]);
    }
  }

  /** The two are the same before `i`, and the one is smaller there. */
  predicate SmallerAt(a: string, b: string, i: nat) {
    i < |a| && i < |b| && a[i] < b[i] && forall k | 0 <= k < i :: a[k] == b[k]
  }

  /** The one begins the other, or is smaller at the first character that differs. */
  ghost predicate Ascends(a: string, b: string) {
    a <= b || exists i: nat :: SmallerAt(a, b, i)
  }

  lemma {:induction false} AscendsStep(a: string, b: string)
    requires a != [] && b != []
    ensures Ascends(a, b) <==> a[0] < b[0] || (a[0] == b[0] && Ascends(a[1..], b[1..]))
  {
    var c, d := a[1..], b[1..];
    if a[0] < b[0] {
      assert SmallerAt(a, b, 0);
    } else if a[0] == b[0] {
      assert a <= b <==> c <= d by {
        assert a == [a[0]] + c && b == [b[0]] + d;
      }
      if i: nat :| SmallerAt(c, d, i) {
        assert SmallerAt(a, b, i + 1);
      }
      if i: nat :| SmallerAt(a, b, i) {
        assert SmallerAt(c, d, i - 1);
      }
    }
  }

  lemma {:induction false} LeqIff(a: string, b: string)
    ensures Leq(a, b) <==> Ascends(a, b)
  {
    hide Ascends;
    if a != [] && b != [] {
      AscendsStep(a, b);
      LeqIff(a[1..], b[1..]);
    } else {
      AscendsNone(a, b);
    }
  }

  lemma AscendsNone(a: string, b: string)
    requires a == [] || b == []
    ensures Ascends(a, b) <==> a == []
  {
  }

  predicate Sorted(s: seq<string>) {
    forall i, j | 0 <= i < j < |s| :: Leq(s[i], s[j])
  }

  function Insert(x: string, s: seq<string>): seq<string> {
    if s == [] || Leq(x, s[0]) then [x] + s else [s[0]] + Insert(x, s[1..])
  }

  function Sort(s: seq<string>): seq<string> {
    if s == [] then [] else Insert(s[0], Sort(s[1..]))
  }

  lemma {:induction false} InsertPermutes(x: string, s: seq<string>)
    ensures multiset(Insert(x, s)) == multiset{x} + multiset(s)
  {
    if s != [] && !Leq(x, s[0]) {
      InsertPermutes(x, s[1..]);
      assert s == [s[0]] + s[1..];
    }
  }

  lemma {:induction false} SortedCons(x: string, s: seq<string>)
    requires Sorted(s) && forall i | 0 <= i < |s| :: Leq(x, s[i])
    ensures Sorted([x] + s)
  {
  }

  lemma {:induction false} InsertSorts(x: string, s: seq<string>)
    requires Sorted(s)
    ensures Sorted(Insert(x, s))
  {
    hide Leq;
    if s == [] {
    } else if Leq(x, s[0]) {
      forall i | 0 <= i < |s|
        ensures Leq(x, s[i])
      {
        if i > 0 {
          LeqTransitive(x, s[0], s[i]);
        }
      }
      SortedCons(x, s);
    } else {
      var t := Insert(x, s[1..]);
      InsertSorts(x, s[1..]);
      InsertPermutes(x, s[1..]);
      LeqTotal(x, s[0]);
      forall i | 0 <= i < |t|
        ensures Leq(s[0], t[i])
      {
        assert t[i] in multiset(t);
        assert t[i] == x || t[i] in s[1..];
      }
      SortedCons(s[0], t);
    }
  }

  lemma {:induction false} SortSorts(s: seq<string>)
    ensures Sorted(Sort(s)) && multiset(Sort(s)) == multiset(s)
  {
    if s != [] {
      SortSorts(s[1..]);
      InsertSorts(s[0], Sort(s[1..]));
      InsertPermutes(s[0], Sort(s[1..]));
      assert s == [s[0]] + s[1..];
    }
  }

  lemma {:induction false} SortedLeast(a: seq<string>, x: string)
    requires Sorted(a) && x in a
    ensures Leq(a[0], x)
  {
    LeqReflexive(a[0]);
  }

  lemma RestOfMultiset(a: seq<string>)
    requires a != []
    ensures multiset(a[1..]) == multiset(a) - multiset{a[0]}
  {
    assert a == [a[0]] + a[1..];
  }

  /** A sorted sequence is fixed by what it holds. */
  lemma {:induction false} SortedUnique(a: seq<string>, b: seq<string>)
    requires Sorted(a) && Sorted(b) && multiset(a) == multiset(b)
    ensures a == b
    decreases |a|
  {
    hide Leq;
    assert |multiset(a)| == |multiset(b)|;
    if a != [] {
      assert a[0] in multiset(b) && b[0] in multiset(a);
      SortedLeast(a, b[0]);
      SortedLeast(b, a[0]);
      LeqAntisymmetric(a[0], b[0]);
      RestOfMultiset(a);
      RestOfMultiset(b);
      SortedUnique(a[1..], b[1..]);
      assert a == [a[0]] + a[1..] && b == [b[0]] + b[1..];
    }
  }

  lemma {:induction false} LeqReflexive(a: string)
    ensures Leq(a, a)
  {
    LeqTotal(a, a);
  }

  /** Sorting forgets the order it was given. */
  lemma {:induction false} SortForgetsOrder(a: seq<string>, b: seq<string>)
    requires multiset(a) == multiset(b)
    ensures Sort(a) == Sort(b)
  {
    SortSorts(a);
    SortSorts(b);
    SortedUnique(Sort(a), Sort(b));
  }

  /** Some enumeration of a set. */
  ghost function Enumerate(s: set<string>): (r: seq<string>)
    ensures multiset(r) == multiset(s)
  {
    if s == {} then [] else
      var x :| x in s;
      assert s == {x} + (s - {x});
      [x] + Enumerate(s - {x})
  }

  /** The one sorted enumeration of a set. */
  ghost function InOrder(s: set<string>): (r: seq<string>)
    ensures Sorted(r) && multiset(r) == multiset(s)
  {
    SortSorts(Enumerate(s));
    Sort(Enumerate(s))
  }

  lemma MembersInOrder(s: set<string>)
    ensures forall k :: k in InOrder(s) <==> k in s
  {
    var r := InOrder(s);
    assert forall k :: k in r <==> k in multiset(r);
  }

  /** However a set is handed over, sorting it gives the one order. */
  lemma {:induction false} InOrderWhateverOrder(s: set<string>, r: seq<string>)
    requires multiset(r) == multiset(s)
    ensures Sort(r) == InOrder(s)
  {
    SortForgetsOrder(r, Enumerate(s));
  }

  /** A set's members, gathered in whatever order they come and then sorted. */
  method SortedMembers(s: set<string>) returns (r: seq<string>)
    ensures r == InOrder(s)
  {
    hide Sort;
    var members, left := [], s;
    while left != {}
      invariant left <= s
      invariant multiset(members) == multiset(s - left)
      decreases left
    {
      var x :| x in left;
      members, left := members + [x], left - {x};
    }
    assert s - {} == s;
    InOrderWhateverOrder(s, members);
    return Sort(members);
  }
}
