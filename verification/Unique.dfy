// `unique`: the first of every group of values that count as one, in order.
module Unique {
  import opened Common
  import opened Text
  import opened Order
  import opened UniqueKey

  // ---------------------------------------------------------------------
  // Equality of values, for those a key cannot tell apart
  // ---------------------------------------------------------------------

  /** Floats by value: no NaN equals anything, and the two zeros are one. */
  predicate SameFloat(s: string, t: string) {
    (s == t && s != "NaN") || (s in ["0", "-0"] && t in ["0", "-0"])
  }

  predicate ValuesEqual(a: Value, b: Value)
    decreases a
  {
    match a
    case Float(text) => b.Float? && SameFloat(text, b.text)
    case Array(es) => b.Array? && |es| == |b.elements| && forall i | 0 <= i < |es| :: ValuesEqual(es[i], b.elements[i])
    case Hash(ps) => b.Hash? && |ps| == |b.pairs| && forall i | 0 <= i < |ps| :: HasEqual(a, i, b)
    case Struct(name, fs) =>
      b.Struct? && name == b.typeName && fs.Keys == b.fields.Keys &&
      forall k | k in fs :: ValuesEqual(fs[k], b.fields[k])
    case Other(kind, render, identity) =>
      b.Other? && kind == b.kind && identity == b.identity && (identity.None? ==> render == b.render)
    case _ => a == b
  }

  /** The other hash holds an equal value under the same key. */
  predicate HasEqual(a: Value, i: nat, b: Value)
    requires a.Hash? && i < |a.pairs| && b.Hash?
    decreases a, 0
  {
    exists j :: 0 <= j < |b.pairs| && a.pairs[i].0 == b.pairs[j].0 && ValuesEqual(a.pairs[i].1, b.pairs[j].1)
  }

  lemma {:induction false} EqualTransitive(a: Value, b: Value, c: Value)
    requires ValuesEqual(a, b) && ValuesEqual(b, c)
    ensures ValuesEqual(a, c)
    decreases a
  {
    match a
    case Array(es) =>
      forall i | 0 <= i < |es|
        ensures ValuesEqual(es[i], c.elements[i])
      {
        EqualTransitive(es[i], b.elements[i], c.elements[i]);
      }
    case Hash(ps) =>
      forall i | 0 <= i < |ps|
        ensures HasEqual(a, i, c)
      {
        assert HasEqual(a, i, b);
        var j :| 0 <= j < |b.pairs| && a.pairs[i].0 == b.pairs[j].0 && ValuesEqual(a.pairs[i].1, b.pairs[j].1);
        assert HasEqual(b, j, c);
        var k :| 0 <= k < |c.pairs| && b.pairs[j].0 == c.pairs[k].0 && ValuesEqual(b.pairs[j].1, c.pairs[k].1);
        EqualTransitive(a.pairs[i].1, b.pairs[j].1, c.pairs[k].1);
      }
    case Struct(_, fs) =>
      forall k | k in fs
        ensures ValuesEqual(fs[k], c.fields[k])
      {
        EqualTransitive(fs[k], b.fields[k], c.fields[k]);
      }
    case _ =>
  }

  // ---------------------------------------------------------------------
  // Equality, by what a value is equal to
  // ---------------------------------------------------------------------

  /** A value up to equality: a hash by its keys, a function by its identity, and one zero. */
  datatype Canon = NilCanon | FloatCanon(text: string) | IntegerCanon(n: int) | StringCanon(s: string)
                 | ArrayCanon(elements: seq<Canon>) | HashCanon(entries: map<Value, Canon>)
                 | StructCanon(typeName: string, fields: map<string, Canon>)
                 | FunctionCanon(kind: string, identity: nat) | OtherCanon(kind: string, render: string)

  predicate HasKey(ps: seq<(Value, Value)>, key: Value) {
    exists i :: 0 <= i < |ps| && ps[i].0 == key
  }

  function IndexOfKey(ps: seq<(Value, Value)>, key: Value): (i: nat)
    requires HasKey(ps, key)
    ensures i < |ps| && ps[i].0 == key
  {
    if ps[0].0 == key then 0
    else
      assert HasKey(ps[1..], key) by {
        var i :| 0 <= i < |ps| && ps[i].0 == key;
        assert ps[1..][i - 1] == ps[i];
      }
      1 + IndexOfKey(ps[1..], key)
  }

  function KeySet(ps: seq<(Value, Value)>): (keys: set<Value>)
    ensures forall key :: key in keys <==> HasKey(ps, key)
  {
    set i | 0 <= i < |ps| :: ps[i].0
  }

  ghost function CanonOf(v: Value): Canon
    decreases v
  {
    match v
    case Nil => NilCanon
    case Float(text) => FloatCanon(if text == "-0" then "0" else text)
    case Integer(n) => IntegerCanon(n)
    case String(s) => StringCanon(s)
    case Array(es) => ArrayCanon(seq(|es|, i requires 0 <= i < |es| => CanonOf(es[i])))
    case Hash(ps) => HashCanon(map key | key in KeySet(ps) :: CanonOf(ps[IndexOfKey(ps, key)].1))
    case Struct(name, fs) => StructCanon(name, map k | k in fs :: CanonOf(fs[k]))
    case Other(kind, render, identity) =>
      if identity.Some? then FunctionCanon(kind, identity.value) else OtherCanon(kind, render)
  }

  /** Each key once, in every hash of the value. */
  predicate ProperHashes(v: Value)
    decreases v
  {
    match v
    case Array(es) => forall i | 0 <= i < |es| :: ProperHashes(es[i])
    case Hash(ps) =>
      && (forall i, j | 0 <= i < j < |ps| :: ps[i].0 != ps[j].0)
      && (forall i | 0 <= i < |ps| :: ProperHashes(ps[i].1))
    case Struct(_, fs) => forall k | k in fs :: ProperHashes(fs[k])
    case _ => true
  }

  /** No part of the value, keys apart, is a NaN. */
  predicate NoNaN(v: Value)
    decreases v
  {
    match v
    case Float(text) => text != "NaN"
    case Array(es) => forall i | 0 <= i < |es| :: NoNaN(es[i])
    case Hash(ps) => forall i | 0 <= i < |ps| :: NoNaN(ps[i].1)
    case Struct(_, fs) => forall k | k in fs :: NoNaN(fs[k])
    case _ => true
  }

  /** Two values are equal exactly if neither holds a NaN and they are one up to equality. */
  lemma {:induction false} EqualIff(a: Value, b: Value)
    requires ProperHashes(a) && ProperHashes(b)
    ensures ValuesEqual(a, b) <==> NoNaN(a) && CanonOf(a) == CanonOf(b)
    decreases a, 1
  {
    match a
    case Array(es) => ArrayEqualIff(a, b);
    case Hash(ps) => HashEqualIff(a, b);
    case Struct(name, fs) => StructEqualIff(a, b);
    case _ =>
  }

  lemma {:induction false} ArrayEqualIff(a: Value, b: Value)
    requires a.Array? && ProperHashes(a) && ProperHashes(b)
    ensures ValuesEqual(a, b) <==> NoNaN(a) && CanonOf(a) == CanonOf(b)
    decreases a, 0
  {
    if b.Array? && |a.elements| == |b.elements| {
      forall i | 0 <= i < |a.elements|
        ensures ValuesEqual(a.elements[i], b.elements[i]) <==>
                NoNaN(a.elements[i]) && CanonOf(a).elements[i] == CanonOf(b).elements[i]
      {
        EqualIff(a.elements[i], b.elements[i]);
      }
    }
  }

  lemma {:induction false} StructEqualIff(a: Value, b: Value)
    requires a.Struct? && ProperHashes(a) && ProperHashes(b)
    ensures ValuesEqual(a, b) <==> NoNaN(a) && CanonOf(a) == CanonOf(b)
    decreases a, 0
  {
    if b.Struct? {
      assert CanonOf(a).fields.Keys == a.fields.Keys && CanonOf(b).fields.Keys == b.fields.Keys;
      if a.fields.Keys == b.fields.Keys {
        forall k | k in a.fields
          ensures ValuesEqual(a.fields[k], b.fields[k]) <==>
                  NoNaN(a.fields[k]) && CanonOf(a).fields[k] == CanonOf(b).fields[k]
        {
          EqualIff(a.fields[k], b.fields[k]);
        }
      }
    }
  }

  /** With each key once, a key is where it is found. */
  lemma {:induction false} EntryAt(v: Value, i: nat)
    requires v.Hash? && ProperHashes(v) && i < |v.pairs|
    ensures v.pairs[i].0 in CanonOf(v).entries && CanonOf(v).entries[v.pairs[i].0] == CanonOf(v.pairs[i].1)
  {
    var ps := v.pairs;
    assert HasKey(ps, ps[i].0);
    var k := IndexOfKey(ps, ps[i].0);
    assert k == i;
  }

  lemma {:induction false} EntriesAre(v: Value)
    requires v.Hash? && ProperHashes(v)
    ensures CanonOf(v).entries.Keys == KeySet(v.pairs) && |CanonOf(v).entries| == |v.pairs|
  {
    hide CanonOf, ProperHashes;
    assert CanonOf(v).entries.Keys == KeySet(v.pairs) by { CanonKeys(v); }
    KeysCount(v.pairs) by { DistinctOf(v); }
    assert |CanonOf(v).entries| == |CanonOf(v).entries.Keys|;
  }

  lemma {:induction false} CanonKeys(v: Value)
    requires v.Hash?
    ensures CanonOf(v).HashCanon? && CanonOf(v).entries.Keys == KeySet(v.pairs)
  {
  }

  predicate DistinctKeys(ps: seq<(Value, Value)>) {
    forall i, j | 0 <= i < j < |ps| :: ps[i].0 != ps[j].0
  }

  lemma {:induction false} DistinctOf(v: Value)
    requires v.Hash? && ProperHashes(v)
    ensures DistinctKeys(v.pairs)
  {
  }

  lemma {:induction false} KeysCount(ps: seq<(Value, Value)>)
    requires DistinctKeys(ps)
    ensures |KeySet(ps)| == |ps|
    decreases |ps|
  {
    if ps != [] {
      var n := |ps| - 1;
      KeysCount(ps[..n]);
      forall key
        ensures key in KeySet(ps) <==> key in KeySet(ps[..n]) || key == ps[n].0
      {
        if HasKey(ps, key) {
          var i :| 0 <= i < |ps| && ps[i].0 == key;
          assert i < n ==> ps[..n][i].0 == key;
        }
        if HasKey(ps[..n], key) {
          var i :| 0 <= i < n && ps[..n][i].0 == key;
          assert ps[i].0 == key;
        }
        assert ps[n].0 == ps[n].0 && HasKey(ps, ps[n].0);
      }
      assert KeySet(ps) == KeySet(ps[..n]) + {ps[n].0};
      assert ps[n].0 !in KeySet(ps[..n]);
    } else {
      assert KeySet(ps) == {};
    }
  }

  /** A pair of one hash with an equal one of the other, by entries. */
  lemma {:induction false} PairEqualIff(a: Value, i: nat, b: Value)
    requires a.Hash? && b.Hash? && ProperHashes(a) && ProperHashes(b) && i < |a.pairs|
    ensures var key := a.pairs[i].0;
            HasEqual(a, i, b) <==>
            && NoNaN(a.pairs[i].1) && key in CanonOf(b).entries && CanonOf(b).entries[key] == CanonOf(a.pairs[i].1)
    decreases a, 0, 0
  {
    hide CanonOf, NoNaN;
    var key := a.pairs[i].0;
    CanonKeys(b);
    if HasEqual(a, i, b) {
      var j :| 0 <= j < |b.pairs| && a.pairs[i].0 == b.pairs[j].0 && ValuesEqual(a.pairs[i].1, b.pairs[j].1);
      EqualIff(a.pairs[i].1, b.pairs[j].1);
      EntryAt(b, j);
    }
    if key in CanonOf(b).entries {
      var j := IndexOfKey(b.pairs, key);
      EqualIff(a.pairs[i].1, b.pairs[j].1);
      EntryAt(b, j);
    }
  }

  lemma {:induction false} HashEqualIff(a: Value, b: Value)
    requires a.Hash? && ProperHashes(a) && ProperHashes(b)
    ensures ValuesEqual(a, b) <==> NoNaN(a) && CanonOf(a) == CanonOf(b)
    decreases a, 0, 1
  {
    hide CanonOf, ProperHashes, HasEqual;
    CanonKeys(a);
    if b.Hash? {
      CanonKeys(b);
      EntriesAre(a);
      EntriesAre(b);
      forall i | 0 <= i < |a.pairs|
        ensures HasEqual(a, i, b) <==>
                && NoNaN(a.pairs[i].1) && a.pairs[i].0 in CanonOf(b).entries
                && CanonOf(b).entries[a.pairs[i].0] == CanonOf(a.pairs[i].1)
        ensures a.pairs[i].0 in CanonOf(a).entries && CanonOf(a).entries[a.pairs[i].0] == CanonOf(a.pairs[i].1)
      {
        PairEqualIff(a, i, b);
        EntryAt(a, i);
      }
      SameMaps(CanonOf(a).entries, CanonOf(b).entries);
      KeyIsPair(a);
    } else {
      NotHash(b);
    }
  }

  lemma {:induction false} NotHash(b: Value)
    requires !b.Hash?
    ensures !CanonOf(b).HashCanon?
  {
  }

  lemma {:induction false} KeyIsPair(a: Value)
    requires a.Hash?
    ensures forall key | key in KeySet(a.pairs) :: exists i :: 0 <= i < |a.pairs| && a.pairs[i].0 == key
  {
  }

  /** Maps that agree on every key of the one, and are as large, are the same. */
  lemma {:induction false} SameMaps(x: map<Value, Canon>, y: map<Value, Canon>)
    ensures x == y <==> |x| == |y| && forall key | key in x :: key in y && y[key] == x[key]
  {
    if |x| == |y| && forall key | key in x :: key in y && y[key] == x[key] {
      assert x.Keys <= y.Keys && |x.Keys| == |x| && |y.Keys| == |y|;
      SameSize(x.Keys, y.Keys);
      assert x == y;
    }
  }

  lemma SameSize(x: set<Value>, y: set<Value>)
    requires x <= y && |x| == |y|
    ensures x == y
  {
    if x != y {
      var key :| key in y && key !in x;
      assert |y - {key}| == |y| - 1 && x <= y - {key};
      SmallerSet(x, y - {key});
    }
  }

  lemma {:induction false} SmallerSet(x: set<Value>, y: set<Value>)
    requires x <= y
    ensures |x| <= |y|
  {
    if x != {} {
      var key :| key in x;
      SmallerSet(x - {key}, y - {key});
    }
  }

  lemma {:induction false} EqualReflexive(v: Value)
    requires ProperHashes(v)
    ensures ValuesEqual(v, v) <==> NoNaN(v)
  {
    EqualIff(v, v);
  }

  lemma {:induction false} EqualSymmetric(a: Value, b: Value)
    requires ProperHashes(a) && ProperHashes(b) && ValuesEqual(a, b)
    ensures ValuesEqual(b, a)
    decreases a
  {
    match a
    case Array(es) =>
      forall i | 0 <= i < |es|
        ensures ValuesEqual(b.elements[i], es[i])
      {
        EqualSymmetric(es[i], b.elements[i]);
      }
    case Hash(ps) =>
      forall j | 0 <= j < |b.pairs|
        ensures HasEqual(b, j, a)
      {
        var i := PairOf(a, b, j);
        EqualSymmetric(a.pairs[i].1, b.pairs[j].1);
      }
    case Struct(_, fs) =>
      forall k | k in fs
        ensures ValuesEqual(b.fields[k], fs[k])
      {
        EqualSymmetric(fs[k], b.fields[k]);
      }
    case _ =>
  }

  /** Of equal hashes, the pair of the one that a pair of the other is equal to. */
  lemma {:induction false} PairOf(a: Value, b: Value, j: nat) returns (i: nat)
    requires a.Hash? && b.Hash? && ProperHashes(a) && ProperHashes(b) && ValuesEqual(a, b) && j < |b.pairs|
    ensures i < |a.pairs| && a.pairs[i].0 == b.pairs[j].0 && ValuesEqual(a.pairs[i].1, b.pairs[j].1)
  {
    hide CanonOf, NoNaN;
    EqualIff(a, b);
    CanonKeys(a);
    CanonKeys(b);
    assert HasKey(b.pairs, b.pairs[j].0);
    assert b.pairs[j].0 in KeySet(a.pairs);
    i := IndexOfKey(a.pairs, b.pairs[j].0);
    assert HasEqual(a, i, b);
  }

  /** A key that is one value however it is compared. */
  predicate PlainKey(v: Value) {
    v.Nil? || v.Float? || v.Integer? || v.String? || (v.Other? && v.identity.None?)
  }

  /** No function, no NaN and no negative zero in the value, and in every hash plain keys, each once. */
  predicate Ordinary(v: Value)
    decreases v
  {
    match v
    case Float(text) => text != "NaN" && text != "-0"
    case Array(es) => forall i | 0 <= i < |es| :: Ordinary(es[i])
    case Hash(ps) => OrdinaryPairs(ps)
    case Struct(_, fs) => forall k | k in fs :: Ordinary(fs[k])
    case Other(_, _, identity) => identity.None?
    case _ => true
  }

  predicate OrdinaryPairs(ps: seq<(Value, Value)>)
    decreases ps
  {
    DistinctKeys(ps) && forall i | 0 <= i < |ps| :: OrdinaryPair(ps[i])
  }

  predicate OrdinaryPair(p: (Value, Value))
    decreases p
  {
    PlainKey(p.0) && Ordinary(p.1)
  }

  /** On such values equality is being the same: what has one key is what is equal. */
  lemma {:induction false} EqualIsSame(a: Value, b: Value)
    requires Ordinary(a) && Ordinary(b)
    ensures ValuesEqual(a, b) <==> Same(a, b)
    decreases a, 1
  {
    match a
    case Array(es) =>
      if b.Array? && |es| == |b.elements| {
        forall i | 0 <= i < |es|
          ensures ValuesEqual(es[i], b.elements[i]) <==> Same(es[i], b.elements[i])
        {
          EqualIsSame(es[i], b.elements[i]);
        }
      }
    case Hash(ps) =>
      if b.Hash? && |ps| == |b.pairs| {
        PairsAgree(ps, b.pairs);
        forall i | 0 <= i < |ps|
          ensures HasEqual(a, i, b) <==> EqualPair(ps[i], b.pairs)
        {
        }
      }
    case Struct(_, fs) =>
      if b.Struct? && fs.Keys == b.fields.Keys {
        forall k | k in fs
          ensures ValuesEqual(fs[k], b.fields[k]) <==> Same(fs[k], b.fields[k])
        {
          EqualIsSame(fs[k], b.fields[k]);
        }
      }
    case _ =>
  }

  predicate EqualPair(p: (Value, Value), qs: seq<(Value, Value)>) {
    exists j :: 0 <= j < |qs| && p.0 == qs[j].0 && ValuesEqual(p.1, qs[j].1)
  }

  lemma {:induction false} PairAgrees(p: (Value, Value), q: (Value, Value))
    requires OrdinaryPair(p) && OrdinaryPair(q)
    ensures SamePair(p, q) <==> p.0 == q.0 && ValuesEqual(p.1, q.1)
    decreases p
  {
    EqualIsSame(p.1, q.1);
  }

  lemma {:induction false} OrdinaryWithout(qs: seq<(Value, Value)>, j: nat)
    requires OrdinaryPairs(qs) && j < |qs|
    ensures OrdinaryPairs(Without(qs, j))
  {
    hide OrdinaryPair;
    var rest := Without(qs, j);
    assert forall i | 0 <= i < |rest| :: rest[i] == qs[if i < j then i else i + 1];
  }

  lemma {:induction false} EqualPairWithout(p: (Value, Value), qs: seq<(Value, Value)>, j: nat)
    requires j < |qs| && p.0 != qs[j].0
    ensures EqualPair(p, qs) <==> EqualPair(p, Without(qs, j))
  {
    hide ValuesEqual;
    var rest := Without(qs, j);
    if i :| 0 <= i < |qs| && p.0 == qs[i].0 && ValuesEqual(p.1, qs[i].1) {
      assert rest[if i < j then i else i - 1] == qs[i];
    }
    if i :| 0 <= i < |rest| && p.0 == rest[i].0 && ValuesEqual(p.1, rest[i].1) {
      assert rest[i] == qs[if i < j then i else i + 1];
    }
  }

  /** Pairs match one to one exactly if each has an equal one, there being as many. */
  lemma {:induction false} PairsAgree(ps: seq<(Value, Value)>, qs: seq<(Value, Value)>)
    requires OrdinaryPairs(ps) && OrdinaryPairs(qs) && |ps| == |qs|
    ensures SamePairs(ps, qs) <==> forall i | 0 <= i < |ps| :: EqualPair(ps[i], qs)
    decreases ps, 0
  {
    hide SamePair, ValuesEqual, OrdinaryPair;
    if ps != [] {
      if SamePairs(ps, qs) {
        var j :| 0 <= j < |qs| && SamePair(ps[0], qs[j]) && SamePairs(ps[1..], Without(qs, j));
        PairAgrees(ps[0], qs[j]);
        RestAgrees(ps, qs, j);
      }
      if forall i | 0 <= i < |ps| :: EqualPair(ps[i], qs) {
        assert EqualPair(ps[0], qs);
        var j :| 0 <= j < |qs| && ps[0].0 == qs[j].0 && ValuesEqual(ps[0].1, qs[j].1);
        PairAgrees(ps[0], qs[j]);
        RestAgrees(ps, qs, j);
      }
    }
  }

  lemma {:induction false} RestAgrees(ps: seq<(Value, Value)>, qs: seq<(Value, Value)>, j: nat)
    requires ps != [] && OrdinaryPairs(ps) && OrdinaryPairs(qs) && |ps| == |qs| && j < |qs| && ps[0].0 == qs[j].0
    ensures SamePairs(ps[1..], Without(qs, j)) <==> forall i | 1 <= i < |ps| :: EqualPair(ps[i], qs)
    decreases ps[1..], 1
  {
    hide SamePairs, EqualPair, OrdinaryPair;
    var rest := ps[1..];
    OrdinaryWithout(qs, j);
    assert OrdinaryPairs(rest) by {
      assert forall i | 0 <= i < |rest| :: rest[i] == ps[i + 1];
    }
    PairsAgree(rest, Without(qs, j));
    forall i | 1 <= i < |ps|
      ensures EqualPair(ps[i], qs) <==> EqualPair(rest[i - 1], Without(qs, j))
    {
      EqualPairWithout(ps[i], qs, j);
    }
    assert (forall i | 1 <= i < |ps| :: EqualPair(ps[i], qs)) <==>
           forall i | 0 <= i < |rest| :: EqualPair(rest[i], Without(qs, j)) by {
      if forall i | 1 <= i < |ps| :: EqualPair(ps[i], qs) {
        forall i | 0 <= i < |rest|
          ensures EqualPair(rest[i], Without(qs, j))
        {
          assert EqualPair(ps[i + 1], qs);
        }
      }
    }
  }

  /** HoldsFunction: hash keys are not searched, since none is a function. */
  predicate HoldsFunction(v: Value)
    decreases v
  {
    match v
    case Array(es) => exists i :: 0 <= i < |es| && HoldsFunction(es[i])
    case Hash(ps) => exists i :: 0 <= i < |ps| && HoldsFunction(ps[i].1)
    case Struct(_, fs) => exists k :: k in fs && HoldsFunction(fs[k])
    case Other(_, _, identity) => identity.Some?
    case _ => false
  }

  /** One value is directly part of another: an element, the value of a pair, or a field. */
  predicate PartOf(w: Value, v: Value) {
    match v
    case Array(es) => exists i :: 0 <= i < |es| && es[i] == w
    case Hash(ps) => exists i :: 0 <= i < |ps| && ps[i].1 == w
    case Struct(_, fs) => exists k :: k in fs && fs[k] == w
    case _ => false
  }

  predicate IsFunction(v: Value) {
    v.Other? && v.identity.Some?
  }

  /** Each value is part of the one before it, and the last is a function. */
  predicate LeadsToFunction(v: Value, parts: seq<Value>) {
    && parts != [] && parts[0] == v && IsFunction(parts[|parts| - 1])
    && forall i | 0 < i < |parts| :: PartOf(parts[i], parts[i - 1])
  }

  lemma {:induction false} LeadsOn(v: Value, w: Value, parts: seq<Value>)
    requires PartOf(w, v) && LeadsToFunction(w, parts)
    ensures LeadsToFunction(v, [v] + parts)
  {
    hide PartOf, IsFunction;
    var more := [v] + parts;
    forall i | 0 < i < |more|
      ensures PartOf(more[i], more[i - 1])
    {
      if i > 1 {
        assert PartOf(parts[i - 1], parts[i - 2]);
      }
    }
  }

  lemma {:induction false} FunctionFound(v: Value) returns (parts: seq<Value>)
    requires HoldsFunction(v)
    ensures LeadsToFunction(v, parts)
    decreases v
  {
    hide LeadsToFunction;
    match v
    case Array(es) =>
      var i :| 0 <= i < |es| && HoldsFunction(es[i]);
      parts := FunctionFound(es[i]);
      LeadsOn(v, es[i], parts);
      parts := [v] + parts;
    case Hash(ps) =>
      var i :| 0 <= i < |ps| && HoldsFunction(ps[i].1);
      parts := FunctionFound(ps[i].1);
      LeadsOn(v, ps[i].1, parts);
      parts := [v] + parts;
    case Struct(_, fs) =>
      var k :| k in fs && HoldsFunction(fs[k]);
      parts := FunctionFound(fs[k]);
      LeadsOn(v, fs[k], parts);
      parts := [v] + parts;
    case Other(_, _, _) =>
      parts := [v];
      OneFunction(v);
  }

  lemma OneFunction(v: Value)
    requires IsFunction(v)
    ensures LeadsToFunction(v, [v])
  {
  }

  lemma {:induction false} FunctionHeld(v: Value, parts: seq<Value>)
    requires LeadsToFunction(v, parts)
    ensures HoldsFunction(v)
    decreases |parts|
  {
    if |parts| > 1 {
      assert PartOf(parts[1], parts[0]);
      var rest := parts[1..];
      forall i | 0 < i < |rest|
        ensures PartOf(rest[i], rest[i - 1])
      {
        assert PartOf(parts[i + 1], parts[i]);
      }
      FunctionHeld(parts[1], rest);
    }
  }

  /** A value holds a function exactly if one is reached through elements, values of pairs and fields. */
  lemma {:induction false} HoldsFunctionIff(v: Value)
    ensures HoldsFunction(v) <==> exists parts :: LeadsToFunction(v, parts)
  {
    hide HoldsFunction, LeadsToFunction;
    if HoldsFunction(v) {
      var parts := FunctionFound(v);
    }
    if parts :| LeadsToFunction(v, parts) {
      FunctionHeld(v, parts);
    }
  }

  // ---------------------------------------------------------------------
  // What `unique` keeps
  // ---------------------------------------------------------------------

  /** `b` is one with `a`: equal to it where a function is held, the same value where not. */
  ghost predicate Duplicates(a: Value, b: Value) {
    if HoldsFunction(b) then HoldsFunction(a) && ValuesEqual(a, b) else !HoldsFunction(a) && Same(a, b)
  }

  ghost predicate IsFirst(els: seq<Value>, i: nat)
    requires i < |els|
  {
    forall j | 0 <= j < i :: !Duplicates(els[j], els[i])
  }

  ghost function Firsts(els: seq<Value>, n: nat): seq<Value>
    requires n <= |els|
  {
    if n == 0 then [] else Firsts(els, n - 1) + if IsFirst(els, n - 1) then [els[n - 1]] else []
  }

  lemma {:induction false} DuplicatesTransitive(a: Value, b: Value, c: Value)
    requires Duplicates(a, b) && Duplicates(b, c)
    ensures Duplicates(a, c)
  {
    hide HoldsFunction, Same, Key, ValuesEqual;
    if HoldsFunction(c) {
      EqualTransitive(a, b, c);
    } else {
      KeyIff(a, b);
      KeyIff(b, c);
      KeyIff(a, c);
    }
  }

  /** Every element is among those kept or is one with one of them; so each that is one with itself, as all are that hold
      no function, has its representative. */
  lemma {:induction false} EveryElementKept(els: seq<Value>, n: nat, i: nat)
    requires i < n <= |els|
    ensures exists k :: 0 <= k < |Firsts(els, n)| && (Firsts(els, n)[k] == els[i] || Duplicates(Firsts(els, n)[k], els[i]))
    ensures Duplicates(els[i], els[i]) ==>
              exists k :: 0 <= k < |Firsts(els, n)| && Duplicates(Firsts(els, n)[k], els[i])
    ensures !HoldsFunction(els[i]) ==> Duplicates(els[i], els[i])
    decreases n, i
  {
    hide HoldsFunction, Same, Key, ValuesEqual;
    var kept := Firsts(els, n - 1);
    KeyIff(els[i], els[i]);
    if i < n - 1 {
      EveryElementKept(els, n - 1, i);
      var k :| 0 <= k < |kept| && (kept[k] == els[i] || Duplicates(kept[k], els[i]));
      assert Firsts(els, n)[k] == kept[k];
    } else if IsFirst(els, i) {
      assert Firsts(els, n)[|kept|] == els[i];
    } else {
      var j :| 0 <= j < i && Duplicates(els[j], els[i]);
      EveryElementKept(els, n - 1, j);
      var k :| 0 <= k < |kept| && (kept[k] == els[j] || Duplicates(kept[k], els[j]));
      if kept[k] != els[j] {
        DuplicatesTransitive(kept[k], els[j], els[i]);
      }
      assert Firsts(els, n)[k] == kept[k];
    }
  }

  lemma {:induction false} KeptComesFrom(els: seq<Value>, n: nat, k: nat) returns (i: nat)
    requires n <= |els| && k < |Firsts(els, n)|
    ensures i < n && Firsts(els, n)[k] == els[i] && IsFirst(els, i)
    ensures Firsts(els, i) == Firsts(els, n)[..k]
  {
    hide IsFirst;
    var kept := Firsts(els, n - 1);
    if k < |kept| {
      i := KeptComesFrom(els, n - 1, k);
    } else {
      i := n - 1;
    }
  }

  /** No two of those kept are one. */
  lemma {:induction false} KeptDistinct(els: seq<Value>, a: nat, b: nat)
    requires a < b < |Firsts(els, |els|)|
    ensures !Duplicates(Firsts(els, |els|)[a], Firsts(els, |els|)[b])
  {
    hide Duplicates;
    var j := KeptComesFrom(els, |els|, b);
    var i := KeptComesFrom(els, j, a);
  }

  /** What counts as one: values equal up to equality, without a NaN, where a function is held; values of one form where
      none is. */
  lemma {:induction false} DuplicatesIff(a: Value, b: Value)
    requires ProperHashes(a) && ProperHashes(b)
    ensures Duplicates(a, b) <==>
            if HoldsFunction(b) then HoldsFunction(a) && NoNaN(a) && CanonOf(a) == CanonOf(b)
            else !HoldsFunction(a) && FormOf(a) == FormOf(b)
  {
    hide ValuesEqual, Same, HoldsFunction, CanonOf, FormOf, NoNaN;
    EqualIff(a, b);
    SameIff(a, b);
  }

  /** One identity is one function. */
  predicate IdentitiesProper(els: seq<Value>) {
    forall i, j | 0 <= i < |els| && 0 <= j < |els| && IsFunction(els[i]) && IsFunction(els[j])
                  && els[i].identity == els[j].identity :: els[i] == els[j]
  }

  /** Of the functions given, each identity is kept once. */
  lemma {:induction false} EachFunctionOnce(els: seq<Value>)
    requires IdentitiesProper(els)
    ensures var out := Firsts(els, |els|);
            && (forall a, b | 0 <= a < b < |out| && IsFunction(out[a]) && IsFunction(out[b]) ::
                  out[a].identity != out[b].identity)
            && (forall i | 0 <= i < |els| && IsFunction(els[i]) :: els[i] in out)
  {
    hide Firsts, ValuesEqual, Same, HoldsFunction;
    var out := Firsts(els, |els|);
    forall a, b | 0 <= a < b < |out| && IsFunction(out[a]) && IsFunction(out[b])
      ensures out[a].identity != out[b].identity
    {
      KeptDistinct(els, a, b);
      var i := KeptComesFrom(els, |els|, a);
      var j := KeptComesFrom(els, |els|, b);
      FunctionsAreOne(out[a], out[b]);
    }
    forall i | 0 <= i < |els| && IsFunction(els[i])
      ensures els[i] in out
    {
      EveryElementKept(els, |els|, i);
      var k :| 0 <= k < |out| && (out[k] == els[i] || Duplicates(out[k], els[i]));
      var j := KeptComesFrom(els, |els|, k);
      FunctionsAreOne(out[k], els[i]);
    }
  }

  /** A function counts as one with a function of its kind and identity, and with nothing else. */
  lemma {:induction false} FunctionsAreOne(a: Value, b: Value)
    requires IsFunction(b)
    ensures Duplicates(a, b) <==> IsFunction(a) && a.kind == b.kind && a.identity == b.identity
  {
  }

  // ---------------------------------------------------------------------
  // Writing a key
  // ---------------------------------------------------------------------

  lemma ElementTurn(es: seq<Value>, i: nat)
    requires i < |es|
    ensures Join(Keys(es[i..])) == Key(es[i]) + Join(Keys(es[i + 1..]))
  {
  }

  lemma {:induction false} FieldTurn(v: Value, names: seq<string>, i: nat)
    requires v.Struct? && i < |names| && forall k | k in names :: k in v.fields
    ensures names[i] in v.fields
    ensures FieldKeys(v, names[i..]) == Part('k', names[i]) + (Key(v.fields[names[i]]) + FieldKeys(v, names[i + 1..]))
  {
  }

  lemma PartTurn(parts: seq<string>, i: nat)
    requires i < |parts|
    ensures Join(parts[i..]) == parts[i] + Join(parts[i + 1..])
  {
  }

  method WriteElements(es: seq<Value>) returns (text: string)
    ensures text == Join(Keys(es))
    decreases es, 0
  {
    hide Key;
    text := "";
    var i: nat := 0;
    while i < |es|
      invariant i <= |es| && text + Join(Keys(es[i..])) == Join(Keys(es))
      decreases |es| - i
    {
      ElementTurn(es, i);
      var one := WriteKey(es[i]);
      Regroup(text, one, Join(Keys(es[i + 1..])));
      text, i := text + one, i + 1;
    }
  }

  method WritePairs(ps: seq<(Value, Value)>) returns (parts: seq<string>)
    ensures parts == PairKeys(ps)
    decreases ps, 0
  {
    hide Key;
    parts := [];
    var i: nat := 0;
    while i < |ps|
      invariant i <= |ps| && |parts| == i
      invariant forall k | 0 <= k < i :: parts[k] == PairKey(ps[k])
      decreases |ps| - i
    {
      var one := WritePair(ps[i]);
      parts, i := parts + [one], i + 1;
    }
    forall k | 0 <= k < |ps|
      ensures PairKeys(ps)[k] == parts[k]
    {
      PairKeysAt(ps, k);
    }
  }

  method WritePair(p: (Value, Value)) returns (text: string)
    ensures text == PairKey(p)
    decreases p
  {
    hide Key;
    var key := WriteKey(p.0);
    var value := WriteKey(p.1);
    return key + value;
  }

  method WriteFields(v: Value, names: seq<string>) returns (text: string)
    requires v.Struct? && forall k | k in names :: k in v.fields
    ensures text == FieldKeys(v, names)
    decreases v, 0
  {
    hide Key, Part, FieldKeys;
    text := "";
    var i: nat := 0;
    assert names[0..] == names;
    while i < |names|
      invariant i <= |names| && text + FieldKeys(v, names[i..]) == FieldKeys(v, names)
      decreases |names| - i
    {
      FieldTurn(v, names, i);
      var one := WriteKey(v.fields[names[i]]);
      Regroup(Part('k', names[i]), one, FieldKeys(v, names[i + 1..]));
      Regroup(text, Part('k', names[i]) + one, FieldKeys(v, names[i + 1..]));
      text, i := text + (Part('k', names[i]) + one), i + 1;
    }
    NoFields(v);
  }

  lemma {:induction false} NoFields(v: Value)
    requires v.Struct?
    ensures FieldKeys(v, []) == ""
  {
  }

  method WriteParts(parts: seq<string>) returns (text: string)
    ensures text == Join(parts)
  {
    text := "";
    var i: nat := 0;
    while i < |parts|
      invariant i <= |parts| && text + Join(parts[i..]) == Join(parts)
      decreases |parts| - i
    {
      PartTurn(parts, i);
      Regroup(text, parts[i], Join(parts[i + 1..]));
      text, i := text + parts[i], i + 1;
    }
  }

  /** uniqueKey. A hash's pairs are sorted once each is spelled, and a struct's
      names before any field is, so no map's order takes part. */
  method WriteKey(v: Value) returns (key: string)
    ensures key == Key(v)
    decreases v
  {
    match v
    case Nil => key := "z";
    case Float(text) => key := Part('f', text);
    case Integer(n) => key := Part('i', FormatInt(n));
    case String(s) => key := Part('s', s);
    case Array(es) =>
      var text := WriteElements(es);
      key := Count('a', |es|) + text;
    case Hash(ps) =>
      var parts := WritePairs(ps);
      var text := WriteParts(Sort(parts));
      key := Count('h', |parts|) + text;
    case Struct(name, fs) =>
      var names := SortedMembers(fs.Keys);
      MembersInOrder(fs.Keys);
      NamesCount(fs);
      var text := WriteFields(v, names);
      key := Part('t', name) + (Count('n', |names|) + text);
    case Other(kind, render, _) => key := Part('x', kind) + Part('r', render);
  }

  // ---------------------------------------------------------------------
  // The loop
  // ---------------------------------------------------------------------

  /** The keys of the elements so far that hold no function. */
  ghost predicate SeenKeys(seen: set<string>, els: seq<Value>, n: nat)
    requires n <= |els|
  {
    && (forall j | 0 <= j < n && !HoldsFunction(els[j]) :: Key(els[j]) in seen)
    && (forall s | s in seen :: exists j :: 0 <= j < n && !HoldsFunction(els[j]) && Key(els[j]) == s)
  }

  /** The elements so far that hold a function, each kept or equal to one kept. */
  ghost predicate KeptFunctions(functions: seq<Value>, els: seq<Value>, n: nat)
    requires n <= |els|
  {
    && (forall j | 0 <= j < n && HoldsFunction(els[j]) :: els[j] in functions || Covered(functions, els[j]))
    && (forall f | f in functions :: exists j :: 0 <= j < n && HoldsFunction(els[j]) && els[j] == f)
  }

  ghost predicate Covered(functions: seq<Value>, v: Value) {
    exists k :: 0 <= k < |functions| && ValuesEqual(functions[k], v)
  }

  lemma FirstByKey(seen: set<string>, els: seq<Value>, n: nat)
    requires n < |els| && SeenKeys(seen, els, n) && !HoldsFunction(els[n])
    ensures Key(els[n]) in seen <==> !IsFirst(els, n)
    ensures SeenKeys(seen + {Key(els[n])}, els, n + 1)
  {
    hide HoldsFunction, Key, Same;
    if Key(els[n]) in seen {
      var j :| 0 <= j < n && !HoldsFunction(els[j]) && Key(els[j]) == Key(els[n]);
      KeyIff(els[j], els[n]);
      assert Duplicates(els[j], els[n]);
    }
    if !IsFirst(els, n) {
      var j :| 0 <= j < n && Duplicates(els[j], els[n]);
      KeyIff(els[j], els[n]);
    }
  }

  lemma CoveredBy(functions: seq<Value>, els: seq<Value>, n: nat, j: nat)
    requires j < n < |els| && KeptFunctions(functions, els, n) && HoldsFunction(els[n])
    requires Duplicates(els[j], els[n])
    ensures Covered(functions, els[n])
  {
    hide HoldsFunction, ValuesEqual;
    if els[j] in functions {
      var k :| 0 <= k < |functions| && functions[k] == els[j];
    } else {
      var k :| 0 <= k < |functions| && ValuesEqual(functions[k], els[j]);
      EqualTransitive(functions[k], els[j], els[n]);
    }
  }

  lemma FirstByEquality(functions: seq<Value>, els: seq<Value>, n: nat)
    requires n < |els| && KeptFunctions(functions, els, n) && HoldsFunction(els[n])
    ensures Covered(functions, els[n]) <==> !IsFirst(els, n)
  {
    hide HoldsFunction, ValuesEqual;
    if Covered(functions, els[n]) {
      var k :| 0 <= k < |functions| && ValuesEqual(functions[k], els[n]);
      assert functions[k] in functions;
      var j :| 0 <= j < n && HoldsFunction(els[j]) && els[j] == functions[k];
      assert Duplicates(els[j], els[n]);
    }
    if !IsFirst(els, n) {
      var j :| 0 <= j < n && Duplicates(els[j], els[n]);
      CoveredBy(functions, els, n, j);
    }
  }

  lemma FunctionKept(functions: seq<Value>, els: seq<Value>, n: nat)
    requires n < |els| && KeptFunctions(functions, els, n) && HoldsFunction(els[n])
    ensures KeptFunctions(if Covered(functions, els[n]) then functions else functions + [els[n]], els, n + 1)
  {
    hide HoldsFunction, ValuesEqual;
    var more := functions + [els[n]];
    forall j | 0 <= j < n && HoldsFunction(els[j]) && els[j] !in functions
      ensures Covered(more, els[j])
    {
      var k :| 0 <= k < |functions| && ValuesEqual(functions[k], els[j]);
      assert more[k] == functions[k];
    }
  }

  lemma Passed(seen: set<string>, functions: seq<Value>, els: seq<Value>, n: nat)
    requires n < |els|
    ensures SeenKeys(seen, els, n) && HoldsFunction(els[n]) ==> SeenKeys(seen, els, n + 1)
    ensures KeptFunctions(functions, els, n) && !HoldsFunction(els[n]) ==> KeptFunctions(functions, els, n + 1)
  {
  }

  /** uniqueHoldsEqual. */
  method HoldsEqual(kept: seq<Value>, v: Value) returns (found: bool)
    ensures found <==> Covered(kept, v)
  {
    hide ValuesEqual;
    var i: nat := 0;
    while i < |kept|
      invariant i <= |kept| && forall k | 0 <= k < i :: !ValuesEqual(kept[k], v)
      decreases |kept| - i
    {
      if ValuesEqual(kept[i], v) {
        return true;
      }
      i := i + 1;
    }
    return false;
  }

  /** unique. */
  method Uniques(els: seq<Value>) returns (out: seq<Value>)
    ensures out == Firsts(els, |els|)
  {
    hide HoldsFunction, Key, SeenKeys, KeptFunctions, IsFirst, Covered;
    var seen, functions: seq<Value> := {}, [];
    out := [];
    var n: nat := 0;
    assert SeenKeys(seen, els, 0) && KeptFunctions(functions, els, 0) by { NothingYet(els); }
    while n < |els|
      invariant n <= |els| && out == Firsts(els, n)
      invariant SeenKeys(seen, els, n) && KeptFunctions(functions, els, n)
      decreases |els| - n
    {
      var el := els[n];
      Passed(seen, functions, els, n);
      if HoldsFunction(el) {
        FirstByEquality(functions, els, n);
        FunctionKept(functions, els, n);
        var held := HoldsEqual(functions, el);
        if !held {
          functions, out := functions + [el], out + [el];
        }
      } else {
        FirstByKey(seen, els, n);
        var key := WriteKey(el);
        if key !in seen {
          seen, out := seen + {key}, out + [el];
        } else {
          assert seen + {key} == seen;
        }
      }
      n := n + 1;
    }
  }

  lemma NothingYet(els: seq<Value>)
    ensures SeenKeys({}, els, 0) && KeptFunctions([], els, 0)
  {
  }
}
