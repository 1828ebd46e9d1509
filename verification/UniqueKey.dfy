// What `unique` files an element under: a spelling of a whole nested value in
// which every part carries its type and its length.
module UniqueKey {
  import opened Common
  import opened Text
  import opened Order

  /** A value, as far as a key or an equality reads it. A float is the shortest
      spelling that tells it from every other float; what has no case of its own
      is its type and its render, and a function has an identity besides. */
  datatype Value =
    | Nil
    | Float(text: string)
    | Integer(n: int)
    | String(s: string)
    | Array(elements: seq<Value>)
    | Hash(pairs: seq<(Value, Value)>)
    | Struct(typeName: string, fields: map<string, Value>)
    | Other(kind: string, render: string, identity: Option<nat>)

  // ---------------------------------------------------------------------
  // The same value: hash pairs in any order, struct fields by name
  // ---------------------------------------------------------------------

  function Without<T>(s: seq<T>, j: nat): seq<T>
    requires j < |s|
  {
    s[..j] + s[j + 1..]
  }

  ghost predicate Same(a: Value, b: Value)
    decreases a
  {
    match a
    case Array(es) => b.Array? && |es| == |b.elements| && forall i | 0 <= i < |es| :: Same(es[i], b.elements[i])
    case Hash(ps) => b.Hash? && SamePairs(ps, b.pairs)
    case Struct(name, fs) =>
      b.Struct? && name == b.typeName && fs.Keys == b.fields.Keys && forall k | k in fs :: Same(fs[k], b.fields[k])
    case Other(kind, render, _) => b.Other? && kind == b.kind && render == b.render
    case _ => a == b
  }

  ghost predicate SamePair(p: (Value, Value), q: (Value, Value))
    decreases p
  {
    Same(p.0, q.0) && Same(p.1, q.1)
  }

  /** The pairs of two hashes match one to one. */
  ghost predicate SamePairs(ps: seq<(Value, Value)>, qs: seq<(Value, Value)>)
    decreases ps
  {
    |ps| == |qs| &&
    (ps != [] ==> exists j :: 0 <= j < |qs| && SamePair(ps[0], qs[j]) && SamePairs(ps[1..], Without(qs, j)))
  }

  // ---------------------------------------------------------------------
  // The same value is the same form: a hash as its pairs, counted
  // ---------------------------------------------------------------------

  datatype Form = NilForm | FloatForm(text: string) | IntegerForm(n: int) | StringForm(s: string)
                | ArrayForm(elements: seq<Form>) | HashForm(pairs: multiset<(Form, Form)>)
                | StructForm(typeName: string, fields: map<string, Form>) | OtherForm(kind: string, render: string)

  ghost function FormOf(v: Value): Form
    decreases v
  {
    match v
    case Nil => NilForm
    case Float(text) => FloatForm(text)
    case Integer(n) => IntegerForm(n)
    case String(s) => StringForm(s)
    case Array(es) => ArrayForm(seq(|es|, i requires 0 <= i < |es| => FormOf(es[i])))
    case Hash(ps) => HashForm(multiset(PairForms(ps)))
    case Struct(name, fs) => StructForm(name, map k | k in fs :: FormOf(fs[k]))
    case Other(kind, render, _) => OtherForm(kind, render)
  }

  ghost function PairForm(p: (Value, Value)): (Form, Form)
    decreases p
  {
    (FormOf(p.0), FormOf(p.1))
  }

  ghost function PairForms(ps: seq<(Value, Value)>): (forms: seq<(Form, Form)>)
    ensures |forms| == |ps| && forall i | 0 <= i < |ps| :: forms[i] == PairForm(ps[i])
    decreases ps
  {
    seq(|ps|, i requires 0 <= i < |ps| => PairForm(ps[i]))
  }

  // ---------------------------------------------------------------------
  // The key
  // ---------------------------------------------------------------------

  function Part(tag: char, text: string): string {
    [tag] + Field(text)
  }

  function Count(tag: char, n: nat): string {
    [tag] + Counted(n)
  }

  function Join(parts: seq<string>): string {
    if parts == [] then "" else parts[0] + Join(parts[1..])
  }

  ghost function Key(v: Value): string
    decreases v
  {
    match v
    case Nil => "z"
    case Float(text) => Part('f', text)
    case Integer(n) => Part('i', FormatInt(n))
    case String(s) => Part('s', s)
    case Array(es) => Count('a', |es|) + Join(Keys(es))
    case Hash(ps) => Count('h', |ps|) + Join(Sort(PairKeys(ps)))
    case Struct(name, fs) => Part('t', name) + (Count('n', |fs|) + FieldKeys(v, FieldNames(fs)))
    case Other(kind, render, _) => Part('x', kind) + Part('r', render)
  }

  ghost function FieldNames(fs: map<string, Value>): (names: seq<string>)
    ensures forall k :: k in names <==> k in fs
  {
    MembersInOrder(fs.Keys);
    InOrder(fs.Keys)
  }

  ghost function Keys(es: seq<Value>): (keys: seq<string>)
    ensures |keys| == |es|
    decreases es
  {
    if es == [] then [] else [Key(es[0])] + Keys(es[1..])
  }

  ghost function PairKey(p: (Value, Value)): string
    decreases p
  {
    Key(p.0) + Key(p.1)
  }

  ghost function PairKeys(ps: seq<(Value, Value)>): (keys: seq<string>)
    ensures |keys| == |ps|
    decreases ps
  {
    if ps == [] then [] else [PairKey(ps[0])] + PairKeys(ps[1..])
  }

  ghost function FieldKeys(v: Value, names: seq<string>): string
    requires v.Struct? && forall k | k in names :: k in v.fields
    decreases v, |names|
  {
    if names == [] then "" else
      Part('k', names[0]) + (Key(v.fields[names[0]]) + FieldKeys(v, names[1..]))
  }

  // ---------------------------------------------------------------------
  // Every part ends where its own length says
  // ---------------------------------------------------------------------

  lemma PartSplits(tag: char, a: string, x: string, b: string, y: string)
    requires Part(tag, a) + x == Part(tag, b) + y
    ensures a == b && x == y
  {
    assert Part(tag, a) + x == [tag] + (Field(a) + x);
    assert Part(tag, b) + y == [tag] + (Field(b) + y);
    assert Field(a) + x == ([tag] + (Field(a) + x))[1..] == Field(b) + y;
    FieldSplits(a, x, b, y);
  }

  lemma CountSplits(tag: char, n: nat, x: string, m: nat, y: string)
    requires Count(tag, n) + x == Count(tag, m) + y
    ensures n == m && x == y
  {
    assert Count(tag, n) + x == [tag] + (Counted(n) + x);
    assert Count(tag, m) + y == [tag] + (Counted(m) + y);
    assert Counted(n) + x == ([tag] + (Counted(n) + x))[1..] == Counted(m) + y;
    CountedSplits(n, x, m, y);
  }

  function Tag(v: Value): char {
    match v
    case Nil => 'z'
    case Float(_) => 'f'
    case Integer(_) => 'i'
    case String(_) => 's'
    case Array(_) => 'a'
    case Hash(_) => 'h'
    case Struct(_, _) => 't'
    case Other(_, _, _) => 'x'
  }

  lemma {:induction false} KeyTag(v: Value, x: string)
    ensures Key(v) + x != "" && (Key(v) + x)[0] == Tag(v)
  {
  }

  lemma Regroup(a: string, b: string, c: string)
    ensures (a + b) + c == a + (b + c)
  {
  }

  /** Where one key ends is settled by the key: whatever follows the keys of two
      values, if the whole is the same then so are the values and what follows. */
  lemma {:induction false} Splits(a: Value, x: string, b: Value, y: string)
    requires Key(a) + x == Key(b) + y
    ensures x == y && Same(a, b)
    decreases a
  {
    KeyTag(a, x);
    KeyTag(b, y);
    match a
    case Nil =>
      assert x == (Key(a) + x)[1..] == y;
    case Float(text) => PartSplits('f', text, x, b.text, y);
    case Integer(n) =>
      PartSplits('i', FormatInt(n), x, FormatInt(b.n), y);
      FormatIntInjective(n, b.n);
    case String(s) => PartSplits('s', s, x, b.s, y);
    case Array(es) => ArraySplits(a, x, b, y);
    case Hash(ps) => HashSplits(a, x, b, y);
    case Struct(name, fs) => StructSplits(a, x, b, y);
    case Other(kind, render, _) =>
      Regroup(Part('x', kind), Part('r', render), x);
      Regroup(Part('x', b.kind), Part('r', b.render), y);
      PartSplits('x', kind, Part('r', render) + x, b.kind, Part('r', b.render) + y);
      PartSplits('r', render, x, b.render, y);
  }

  lemma {:induction false} ArraySplits(a: Value, x: string, b: Value, y: string)
    requires a.Array? && b.Array? && Key(a) + x == Key(b) + y
    ensures x == y && Same(a, b)
    decreases a, 0
  {
    var es, fs := a.elements, b.elements;
    Regroup(Count('a', |es|), Join(Keys(es)), x);
    Regroup(Count('a', |fs|), Join(Keys(fs)), y);
    CountSplits('a', |es|, Join(Keys(es)) + x, |fs|, Join(Keys(fs)) + y);
    ElementsSplit(es, x, fs, y);
  }

  lemma {:induction false} ElementsSplit(es: seq<Value>, x: string, fs: seq<Value>, y: string)
    requires |es| == |fs| && Join(Keys(es)) + x == Join(Keys(fs)) + y
    ensures x == y && forall i | 0 <= i < |es| :: Same(es[i], fs[i])
    decreases es
  {
    hide Key, Same;
    if es == [] {
      assert x == "" + x == "" + y == y;
    } else {
      JoinCons(Key(es[0]), Keys(es[1..]), x);
      JoinCons(Key(fs[0]), Keys(fs[1..]), y);
      Splits(es[0], Join(Keys(es[1..])) + x, fs[0], Join(Keys(fs[1..])) + y);
      ElementsSplit(es[1..], x, fs[1..], y);
      assert forall i | 1 <= i < |es| :: es[i] == es[1..][i - 1] && fs[i] == fs[1..][i - 1];
    }
  }

  lemma {:induction false} JoinCons(first: string, rest: seq<string>, x: string)
    ensures Join([first] + rest) + x == first + (Join(rest) + x)
  {
  }

  lemma {:induction false} PairSplits(p: (Value, Value), x: string, q: (Value, Value), y: string)
    requires PairKey(p) + x == PairKey(q) + y
    ensures x == y && SamePair(p, q) && PairKey(p) == PairKey(q)
    decreases p
  {
    hide Key, Same;
    Regroup(Key(p.0), Key(p.1), x);
    Regroup(Key(q.0), Key(q.1), y);
    Splits(p.0, Key(p.1) + x, q.0, Key(q.1) + y);
    Splits(p.1, x, q.1, y);
    assert PairKey(p) == (PairKey(p) + x)[..|PairKey(p) + x| - |x|];
    assert PairKey(q) == (PairKey(q) + y)[..|PairKey(q) + y| - |y|];
  }

  /** Every one of `parts` is the key of one of `ps`. */
  ghost predicate FromPairs(parts: seq<string>, ps: seq<(Value, Value)>) {
    forall i | 0 <= i < |parts| :: IsPairKey(parts[i], ps)
  }

  ghost predicate IsPairKey(part: string, ps: seq<(Value, Value)>) {
    exists k :: 0 <= k < |ps| && PairKey(ps[k]) == part
  }

  lemma {:induction false} PairPartsSplit(ps: seq<(Value, Value)>, s: seq<string>, x: string, qs: seq<(Value, Value)>,
                                          t: seq<string>, y: string)
    requires FromPairs(s, ps) && FromPairs(t, qs) && |s| == |t|
    requires Join(s) + x == Join(t) + y
    ensures s == t && x == y
    decreases ps, |s|
  {
    hide PairKey, SamePair;
    if s == [] {
      assert x == "" + x == "" + y == y;
    } else {
      assert IsPairKey(s[0], ps) && IsPairKey(t[0], qs);
      var k :| 0 <= k < |ps| && PairKey(ps[k]) == s[0];
      var j :| 0 <= j < |qs| && PairKey(qs[j]) == t[0];
      assert s == [s[0]] + s[1..] && t == [t[0]] + t[1..];
      JoinCons(s[0], s[1..], x);
      JoinCons(t[0], t[1..], y);
      PairSplits(ps[k], Join(s[1..]) + x, qs[j], Join(t[1..]) + y);
      PairPartsSplit(ps, s[1..], x, qs, t[1..], y);
    }
  }

  lemma {:induction false} PairKeysAt(ps: seq<(Value, Value)>, i: nat)
    requires i < |ps|
    ensures PairKeys(ps)[i] == PairKey(ps[i])
  {
    hide PairKey;
    if i > 0 {
      PairKeysAt(ps[1..], i - 1);
    }
  }

  lemma {:induction false} PairKeysWithout(ps: seq<(Value, Value)>, j: nat)
    requires j < |ps|
    ensures PairKeys(Without(ps, j)) == Without(PairKeys(ps), j)
  {
    hide PairKey;
    if j == 0 {
      assert Without(ps, 0) == ps[1..];
    } else {
      PairKeysWithout(ps[1..], j - 1);
      assert Without(ps, j) == [ps[0]] + Without(ps[1..], j - 1);
      assert Without(ps, j)[1..] == Without(ps[1..], j - 1);
    }
  }

  lemma MultisetWithout<T>(s: seq<T>, j: nat)
    requires j < |s|
    ensures multiset(s) == multiset{s[j]} + multiset(Without(s, j))
  {
    assert s == s[..j] + [s[j]] + s[j + 1..];
  }

  lemma {:induction false} SortFromPairs(ps: seq<(Value, Value)>)
    ensures FromPairs(Sort(PairKeys(ps)), ps) && |Sort(PairKeys(ps))| == |ps|
  {
    hide PairKey;
    var keys := PairKeys(ps);
    SortSorts(keys);
    assert |multiset(Sort(keys))| == |multiset(keys)|;
    forall i | 0 <= i < |Sort(keys)|
      ensures IsPairKey(Sort(keys)[i], ps)
    {
      assert Sort(keys)[i] in multiset(keys);
      var k :| 0 <= k < |keys| && keys[k] == Sort(keys)[i];
      PairKeysAt(ps, k);
    }
  }

  lemma {:induction false} HashSplits(a: Value, x: string, b: Value, y: string)
    requires a.Hash? && b.Hash? && Key(a) + x == Key(b) + y
    ensures x == y && Same(a, b)
    decreases a, 0
  {
    var ps, qs := a.pairs, b.pairs;
    var s, t := Sort(PairKeys(ps)), Sort(PairKeys(qs));
    Regroup(Count('h', |ps|), Join(s), x);
    Regroup(Count('h', |qs|), Join(t), y);
    CountSplits('h', |ps|, Join(s) + x, |qs|, Join(t) + y);
    SortFromPairs(ps);
    SortFromPairs(qs);
    PairPartsSplit(ps, s, x, qs, t, y);
    SortSorts(PairKeys(ps));
    SortSorts(PairKeys(qs));
    MatchPairs(ps, qs);
  }

  lemma {:induction false} RestMatches(ps: seq<(Value, Value)>, qs: seq<(Value, Value)>, j: nat)
    requires ps != [] && j < |qs| && PairKeys(ps)[0] == PairKeys(qs)[j]
    ensures multiset(PairKeys(ps)) == multiset(PairKeys(qs))
       <==> multiset(PairKeys(ps[1..])) == multiset(PairKeys(Without(qs, j)))
  {
    hide PairKey;
    PairKeysWithout(qs, j);
    MultisetWithout(PairKeys(qs), j);
    MultisetWithout(PairKeys(ps), 0);
    assert Without(PairKeys(ps), 0) == PairKeys(ps[1..]);
    CancelOne(PairKeys(ps)[0], multiset(PairKeys(ps[1..])), multiset(PairKeys(Without(qs, j))));
  }

  lemma CancelOne<T>(x: T, a: multiset<T>, b: multiset<T>)
    ensures multiset{x} + a == multiset{x} + b <==> a == b
  {
    assert a == (multiset{x} + a) - multiset{x} && b == (multiset{x} + b) - multiset{x};
  }

  /** Pairs with the same keys, counted, match one to one. */
  lemma {:induction false} MatchPairs(ps: seq<(Value, Value)>, qs: seq<(Value, Value)>)
    requires multiset(PairKeys(ps)) == multiset(PairKeys(qs))
    ensures SamePairs(ps, qs)
    decreases ps, 0
  {
    hide PairKey, SamePair, Without;
    assert |multiset(PairKeys(ps))| == |multiset(PairKeys(qs))|;
    if ps != [] {
      assert PairKeys(ps)[0] in multiset(PairKeys(qs));
      var j :| 0 <= j < |qs| && PairKeys(qs)[j] == PairKeys(ps)[0];
      PairKeysAt(qs, j);
      PairSplits(ps[0], "", qs[j], "");
      RestMatches(ps, qs, j);
      MatchPairs(ps[1..], Without(qs, j));
    }
  }

  lemma HeadingSplits(a: string, n: nat, f: string, x: string, b: string, m: nat, g: string, y: string)
    requires (Part('t', a) + (Count('n', n) + f)) + x == (Part('t', b) + (Count('n', m) + g)) + y
    ensures a == b && n == m && f + x == g + y
  {
    hide Part, Count;
    var c, d := Count('n', n), Count('n', m);
    Regroup(Part('t', a), c + f, x);
    Regroup(Part('t', b), d + g, y);
    PartSplits('t', a, c + f + x, b, d + g + y);
    Regroup(c, f, x);
    Regroup(d, g, y);
    CountSplits('n', n, f + x, m, g + y);
  }

  lemma {:induction false} StructSplits(a: Value, x: string, b: Value, y: string)
    requires a.Struct? && b.Struct? && Key(a) + x == Key(b) + y
    ensures x == y && Same(a, b)
    decreases a, 0
  {
    hide Part, Count, FieldNames, FieldKeys;
    var fs, gs := a.fields, b.fields;
    var ns, ms := FieldNames(fs), FieldNames(gs);
    HeadingSplits(a.typeName, |fs|, FieldKeys(a, ns), x, b.typeName, |gs|, FieldKeys(b, ms), y);
    NamesCount(fs);
    NamesCount(gs);
    FieldsSplit(a, ns, x, b, ms, y);
    assert forall k :: k in fs <==> k in ns;
  }

  lemma NamesCount(fs: map<string, Value>)
    ensures |FieldNames(fs)| == |fs|
  {
    assert |multiset(FieldNames(fs))| == |multiset(fs.Keys)| == |fs.Keys|;
  }

  lemma {:induction false} FieldsSplit(a: Value, ns: seq<string>, x: string, b: Value, ms: seq<string>, y: string)
    requires a.Struct? && b.Struct? && |ns| == |ms|
    requires (forall k | k in ns :: k in a.fields) && forall k | k in ms :: k in b.fields
    requires FieldKeys(a, ns) + x == FieldKeys(b, ms) + y
    ensures x == y && ns == ms && forall k | k in ns :: Same(a.fields[k], b.fields[k])
    decreases a, 0, |ns|
  {
    hide Key, Same;
    if ns == [] {
      assert x == "" + x == "" + y == y;
    } else {
      var u, v := Key(a.fields[ns[0]]), Key(b.fields[ms[0]]);
      var c, d := FieldKeys(a, ns[1..]), FieldKeys(b, ms[1..]);
      Regroup(Part('k', ns[0]), u + c, x);
      Regroup(Part('k', ms[0]), v + d, y);
      PartSplits('k', ns[0], u + c + x, ms[0], v + d + y);
      Regroup(u, c, x);
      Regroup(v, d, y);
      Splits(a.fields[ns[0]], c + x, b.fields[ms[0]], d + y);
      FieldsSplit(a, ns[1..], x, b, ms[1..], y);
      assert ns == [ns[0]] + ns[1..] && ms == [ms[0]] + ms[1..];
    }
  }

  // ---------------------------------------------------------------------
  // The same value is the same form
  // ---------------------------------------------------------------------

  /** Two values are the same exactly if they have one form. */
  lemma {:induction false} SameIff(a: Value, b: Value)
    ensures Same(a, b) <==> FormOf(a) == FormOf(b)
    decreases a, 1
  {
    match a
    case Array(es) =>
      if b.Array? && |es| == |b.elements| {
        forall i | 0 <= i < |es|
          ensures Same(es[i], b.elements[i]) <==> FormOf(a).elements[i] == FormOf(b).elements[i]
        {
          SameIff(es[i], b.elements[i]);
        }
      }
    case Hash(ps) =>
      if b.Hash? {
        PairsIff(ps, b.pairs);
      }
    case Struct(name, fs) => StructIff(a, b);
    case _ =>
  }

  lemma {:induction false} StructIff(a: Value, b: Value)
    requires a.Struct?
    ensures Same(a, b) <==> FormOf(a) == FormOf(b)
    decreases a, 0
  {
    if b.Struct? && a.fields.Keys == b.fields.Keys {
      forall k | k in a.fields
        ensures Same(a.fields[k], b.fields[k]) <==> FormOf(a).fields[k] == FormOf(b).fields[k]
      {
        SameIff(a.fields[k], b.fields[k]);
      }
    } else if b.Struct? {
      assert FormOf(a).fields.Keys == a.fields.Keys && FormOf(b).fields.Keys == b.fields.Keys;
    }
  }

  lemma {:induction false} PairIff(p: (Value, Value), q: (Value, Value))
    ensures SamePair(p, q) <==> PairForm(p) == PairForm(q)
    decreases p
  {
    hide Same, FormOf;
    SameIff(p.0, q.0);
    SameIff(p.1, q.1);
  }

  lemma {:induction false} PairFormsWithout(ps: seq<(Value, Value)>, j: nat)
    requires j < |ps|
    ensures PairForms(Without(ps, j)) == Without(PairForms(ps), j)
  {
    hide PairForm;
  }

  lemma {:induction false} PairsIff(ps: seq<(Value, Value)>, qs: seq<(Value, Value)>)
    ensures SamePairs(ps, qs) <==> multiset(PairForms(ps)) == multiset(PairForms(qs))
    decreases ps, 0
  {
    hide PairForm, SamePair, Without;
    var fs, gs := PairForms(ps), PairForms(qs);
    assert |multiset(fs)| == |ps| && |multiset(gs)| == |qs|;
    if ps != [] {
      assert Without(fs, 0) == PairForms(ps[1..]) by { PairFormsWithout(ps, 0); WithoutFirst(ps); }
      MultisetWithout(fs, 0);
      if SamePairs(ps, qs) {
        var j :| 0 <= j < |qs| && SamePair(ps[0], qs[j]) && SamePairs(ps[1..], Without(qs, j));
        FirstMatches(ps, qs, j);
      }
      if multiset(fs) == multiset(gs) {
        assert fs[0] in multiset(gs);
        var j :| 0 <= j < |gs| && gs[j] == fs[0];
        PairIff(ps[0], qs[j]);
        FirstMatches(ps, qs, j);
      }
    }
  }

  lemma WithoutFirst<T>(s: seq<T>)
    requires s != []
    ensures Without(s, 0) == s[1..]
  {
  }

  /** With a first pair that matches, the rest decide. */
  lemma {:induction false} FirstMatches(ps: seq<(Value, Value)>, qs: seq<(Value, Value)>, j: nat)
    requires ps != [] && j < |qs| && SamePair(ps[0], qs[j])
    requires Without(PairForms(ps), 0) == PairForms(ps[1..])
    ensures multiset(PairForms(ps)) == multiset(PairForms(qs)) <==> SamePairs(ps[1..], Without(qs, j))
    decreases ps, 0, 0
  {
    hide PairForm, SamePair, Without, SamePairs;
    var fs, gs := PairForms(ps), PairForms(qs);
    PairIff(ps[0], qs[j]);
    PairFormsWithout(qs, j);
    MultisetWithout(fs, 0);
    MultisetWithout(gs, j);
    PairsIff(ps[1..], Without(qs, j));
    CancelOne(fs[0], multiset(PairForms(ps[1..])), multiset(Without(gs, j)));
  }

  // ---------------------------------------------------------------------
  // The other way: the same value has the same key
  // ---------------------------------------------------------------------

  lemma {:induction false} SameKey(a: Value, b: Value)
    requires Same(a, b)
    ensures Key(a) == Key(b)
    decreases a
  {
    match a
    case Array(es) => SameElements(es, b.elements);
    case Hash(ps) =>
      PairsMatch(ps, b.pairs);
      SortForgetsOrder(PairKeys(ps), PairKeys(b.pairs));
    case Struct(name, fs) =>
      assert fs.Keys == b.fields.Keys;
      assert |fs| == |fs.Keys| == |b.fields|;
      SameFields(a, b, FieldNames(fs));
    case _ =>
  }

  lemma {:induction false} SameElements(es: seq<Value>, fs: seq<Value>)
    requires |es| == |fs| && forall i | 0 <= i < |es| :: Same(es[i], fs[i])
    ensures Keys(es) == Keys(fs)
    decreases es
  {
    if es != [] {
      SameKey(es[0], fs[0]);
      SameElements(es[1..], fs[1..]);
    }
  }

  lemma {:induction false} SamePairKey(p: (Value, Value), q: (Value, Value))
    requires SamePair(p, q)
    ensures PairKey(p) == PairKey(q)
    decreases p
  {
    hide Key, Same;
    SameKey(p.0, q.0);
    SameKey(p.1, q.1);
  }

  lemma {:induction false} PairsMatch(ps: seq<(Value, Value)>, qs: seq<(Value, Value)>)
    requires SamePairs(ps, qs)
    ensures multiset(PairKeys(ps)) == multiset(PairKeys(qs))
    decreases ps
  {
    hide SamePair, PairKey, Without;
    if ps != [] {
      var j :| 0 <= j < |qs| && SamePair(ps[0], qs[j]) && SamePairs(ps[1..], Without(qs, j));
      SamePairKey(ps[0], qs[j]);
      PairKeysAt(qs, j);
      PairsMatch(ps[1..], Without(qs, j));
      RestMatches(ps, qs, j);
    }
  }

  lemma {:induction false} SameFields(a: Value, b: Value, names: seq<string>)
    requires a.Struct? && b.Struct? && a.fields.Keys == b.fields.Keys
    requires forall k | k in a.fields :: Same(a.fields[k], b.fields[k])
    requires forall k | k in names :: k in a.fields
    ensures FieldKeys(a, names) == FieldKeys(b, names)
    decreases a, 0, |names|
  {
    hide Key, Same;
    if names != [] {
      SameKey(a.fields[names[0]], b.fields[names[0]]);
      SameFields(a, b, names[1..]);
    }
  }

  /** Two values get one key exactly when they are the same value. */
  lemma {:induction false} KeyIff(a: Value, b: Value)
    ensures Key(a) == Key(b) <==> Same(a, b)
  {
    if Key(a) == Key(b) {
      Splits(a, "", b, "");
    }
    if Same(a, b) {
      SameKey(a, b);
    }
  }

  /** No key is the beginning of another. */
  lemma {:induction false} PrefixFree(a: Value, b: Value)
    requires Key(a) <= Key(b)
    ensures Key(a) == Key(b) && Same(a, b)
  {
    hide Key, Same;
    var rest := Key(b)[|Key(a)|..];
    assert Key(a) + rest == Key(b) + "";
    Splits(a, rest, b, "");
  }
}
