// The copy the cache keeps and the copy it hands out: a value over objects that
// may be shared, may loop and may be changed in place, rebuilt in objects of
// its own.
module CacheCopy {
  import opened Common

  /** Values a program cannot change in place; a float is its bits. */
  datatype Scalar = String(text: string) | Integer(int) | Float(bits: nat) | Boolean(bool) | Null

  datatype Value = Nil | Plain(scalar: Scalar) | Object(obj: Obj)

  type Mark = string

  /** What an object holds. A hash files each pair under its hash key. */
  datatype Contents =
    | Bytes(bytes: seq<bv8>, mark: Option<Mark>)
    | Array(elements: seq<Value>)
    | Hash(pairs: map<string, (Value, Value)>)
    | Struct(typeName: string, fieldOrder: seq<string>, fields: map<string, Value>)
    | EnumValue(typeName: string, tag: string, payload: Value)
    | Other // a function, a handle, an error, …: nothing the cache holds

  class Obj {
    var contents: Contents

    constructor (contents: Contents)
      ensures this.contents == contents
    {
      this.contents := contents;
    }
  }

  /** What a value says, whatever objects say it. */
  datatype Tree =
    | NilTree
    | PlainTree(scalar: Scalar)
    | BytesTree(bytes: seq<bv8>, mark: Option<Mark>)
    | ArrayTree(elements: seq<Tree>)
    | HashTree(pairs: map<string, (Tree, Tree)>)
    | StructTree(typeName: string, fieldOrder: seq<string>, fields: map<string, Tree>)
    | EnumTree(typeName: string, tag: string, payload: Tree)

  const DEPTH: nat := 64

  /** `v` says `t`, and every object it says it with is in `home`. */
  ghost predicate Says(v: Value, t: Tree, home: set<Obj>)
    reads home
    decreases t
  {
    match t
    case NilTree => v == Nil
    case PlainTree(s) => v == Plain(s)
    case _ => v.Object? && v.obj in home && Holds(v.obj.contents, t, home)
  }

  ghost predicate Holds(c: Contents, t: Tree, home: set<Obj>)
    reads home
    decreases t, 0
  {
    match t
    case NilTree => false
    case PlainTree(_) => false
    case BytesTree(bytes, mark) => c == Bytes(bytes, mark)
    case ArrayTree(ts) =>
      c.Array? && |c.elements| == |ts| && forall i | 0 <= i < |ts| :: Says(c.elements[i], ts[i], home)
    case HashTree(ps) =>
      c.Hash? && c.pairs.Keys == ps.Keys &&
      forall k | k in ps :: Says(c.pairs[k].0, ps[k].0, home) && Says(c.pairs[k].1, ps[k].1, home)
    case StructTree(name, order, fs) =>
      c.Struct? && c.typeName == name && c.fieldOrder == order && c.fields.Keys == fs.Keys &&
      forall k | k in fs :: Says(c.fields[k], fs[k], home)
    case EnumTree(name, tag, p) => c.EnumValue? && c.typeName == name && c.tag == tag && Says(c.payload, p, home)
  }

  /** `t` goes at most `n` levels down. */
  ghost predicate Fits(t: Tree, n: int)
    decreases t
  {
    0 <= n &&
    match t
    case ArrayTree(ts) => forall i | 0 <= i < |ts| :: Fits(ts[i], n - 1)
    case HashTree(ps) => forall k | k in ps :: Fits(ps[k].0, n - 1) && Fits(ps[k].1, n - 1)
    case StructTree(_, _, fs) => forall k | k in fs :: Fits(fs[k], n - 1)
    case EnumTree(_, _, p) => Fits(p, n - 1)
    case _ => true
  }

  ghost predicate PartOf(u: Tree, t: Tree) {
    match t
    case ArrayTree(ts) => u in ts
    case HashTree(ps) => exists k | k in ps :: u == ps[k].0 || u == ps[k].1
    case StructTree(_, _, fs) => exists k | k in fs :: u == fs[k]
    case EnumTree(_, _, p) => u == p
    case _ => false
  }

  /** There is a way `n` parts down from `t`. */
  ghost predicate GoesDown(t: Tree, n: nat)
    decreases n
  {
    n > 0 ==> exists u :: PartOf(u, t) && GoesDown(u, n - 1)
  }

  lemma {:induction false} PartFits(t: Tree, u: Tree, n: nat)
    requires Fits(t, n) && PartOf(u, t)
    ensures Fits(u, n - 1)
  {
  }

  lemma {:induction false} PartsFit(t: Tree, n: nat)
    requires forall u | PartOf(u, t) :: Fits(u, n - 1)
    ensures Fits(t, n)
  {
    match t
    case ArrayTree(ts) =>
      forall i | 0 <= i < |ts| ensures Fits(ts[i], n - 1) {
        assert PartOf(ts[i], t);
      }
    case HashTree(ps) =>
      forall k | k in ps ensures Fits(ps[k].0, n - 1) && Fits(ps[k].1, n - 1) {
        assert PartOf(ps[k].0, t) && PartOf(ps[k].1, t);
      }
    case StructTree(_, _, fs) =>
      forall k | k in fs ensures Fits(fs[k], n - 1) {
        assert PartOf(fs[k], t);
      }
    case EnumTree(_, _, p) =>
      assert PartOf(p, t);
    case _ =>
  }

  /** What fits is what has no way down longer than that: of what the cache holds, none of sixty-five parts. */
  lemma {:induction false} FitsIff(t: Tree, n: nat)
    ensures Fits(t, n) <==> !GoesDown(t, n + 1)
    decreases n
  {
    hide Fits, PartOf;
    forall u | PartOf(u, t)
      ensures Fits(u, n - 1) <==> !GoesDown(u, n)
      ensures Fits(t, n) ==> Fits(u, n - 1)
    {
      if n > 0 {
        FitsIff(u, n - 1);
      } else {
        FitsNone(u);
      }
      if Fits(t, n) {
        PartFits(t, u, n);
      }
    }
    if forall u | PartOf(u, t) :: Fits(u, n - 1) {
      PartsFit(t, n);
    }
  }

  lemma {:induction false} FitsNone(t: Tree)
    ensures !Fits(t, -1)
  {
  }

  lemma {:induction false} KeptIff(t: Tree)
    ensures Fits(t, DEPTH) <==> !GoesDown(t, 65)
  {
    FitsIff(t, 64);
  }

  /** Nothing `v` says goes at most `n` levels down: it goes deeper, loops, or
      holds something that is not the cache's to hold. */
  ghost predicate Unfit(v: Value, home: set<Obj>, n: int)
    reads home
  {
    forall t | Says(v, t, home) :: !Fits(t, n)
  }

  ghost predicate In(v: Value, home: set<Obj>) {
    v.Object? ==> v.obj in home
  }

  ghost predicate HoldsOnly(c: Contents, home: set<Obj>) {
    match c
    case Array(es) => forall i | 0 <= i < |es| :: In(es[i], home)
    case Hash(ps) => forall k | k in ps :: In(ps[k].0, home) && In(ps[k].1, home)
    case Struct(_, _, fs) => forall k | k in fs :: In(fs[k], home)
    case EnumValue(_, _, p) => In(p, home)
    case _ => true
  }

  /** Objects that hold only one another. */
  ghost predicate Closed(home: set<Obj>)
    reads home
  {
    forall o | o in home :: HoldsOnly(o.contents, home)
  }

  lemma {:induction false} ClosedWith(home: set<Obj>, o: Obj)
    requires Closed(home) && HoldsOnly(o.contents, home + {o})
    ensures Closed(home + {o})
  {
  }

  lemma {:induction false} ClosedHolds(o: Obj, home: set<Obj>)
    requires Closed(home) && o in home
    ensures HoldsOnly(o.contents, home)
  {
  }

  lemma {:induction false} ClosedNone()
    ensures Closed({})
  {
  }

  lemma {:induction false} ClosedJoin(a: set<Obj>, b: set<Obj>)
    requires Closed(a) && Closed(b)
    ensures Closed(a + b)
  {
  }

  lemma {:induction false} SaysWider(v: Value, t: Tree, home: set<Obj>, more: set<Obj>)
    requires Says(v, t, home) && home <= more
    ensures Says(v, t, more)
    decreases t
  {
    match t
    case ArrayTree(ts) =>
      forall i | 0 <= i < |ts| {
        SaysWider(v.obj.contents.elements[i], ts[i], home, more);
      }
    case HashTree(ps) =>
      var was := v.obj.contents.pairs;
      forall k | k in ps
        ensures Says(was[k].0, ps[k].0, more) && Says(was[k].1, ps[k].1, more)
      {
        SaysWider(was[k].0, ps[k].0, home, more);
        SaysWider(was[k].1, ps[k].1, home, more);
      }
    case StructTree(_, _, fs) =>
      forall k | k in fs {
        SaysWider(v.obj.contents.fields[k], fs[k], home, more);
      }
    case EnumTree(_, _, p) => SaysWider(v.obj.contents.payload, p, home, more);
    case _ =>
  }

  /** A value says one thing at most: nothing, where it loops or holds what no tree has. */
  lemma {:induction false} SaysOnce(v: Value, t: Tree, u: Tree, home: set<Obj>)
    requires Says(v, t, home) && Says(v, u, home)
    ensures t == u
    decreases t
  {
    match t
    case ArrayTree(ts) =>
      forall i | 0 <= i < |ts|
        ensures ts[i] == u.elements[i]
      {
        SaysOnce(v.obj.contents.elements[i], ts[i], u.elements[i], home);
      }
    case HashTree(ps) =>
      forall k | k in ps
        ensures ps[k] == u.pairs[k]
      {
        SaysOnce(v.obj.contents.pairs[k].0, ps[k].0, u.pairs[k].0, home);
        SaysOnce(v.obj.contents.pairs[k].1, ps[k].1, u.pairs[k].1, home);
      }
    case StructTree(_, _, fs) =>
      forall k | k in fs
        ensures fs[k] == u.fields[k]
      {
        SaysOnce(v.obj.contents.fields[k], fs[k], u.fields[k], home);
      }
    case EnumTree(_, _, p) => SaysOnce(v.obj.contents.payload, p, u.payload, home);
    case _ =>
  }

  /** What a copy has to be. */
  ghost predicate Copied(from: Value, copy: Value, t: Tree, world: set<Obj>, home: set<Obj>, n: int)
    reads world, home
  {
    Says(from, t, world) && Says(copy, t, home) && Fits(t, n)
  }

  lemma {:induction false} CopiedWider(from: Value, copy: Value, t: Tree, world: set<Obj>, home: set<Obj>, more: set<Obj>, n: int)
    requires Copied(from, copy, t, world, home, n) && home <= more
    ensures Copied(from, copy, t, world, more, n)
  {
    SaysWider(copy, t, home, more);
  }

  // ---------------------------------------------------------------------
  // From the parts of a value to the value
  // ---------------------------------------------------------------------

  lemma {:induction false} ArrayCopied(v: Value, o: Obj, ts: seq<Tree>, world: set<Obj>, home: set<Obj>, n: int)
    requires v.Object? && v.obj in world && v.obj.contents.Array? && o.contents.Array? && 0 <= n
    requires |v.obj.contents.elements| == |o.contents.elements| == |ts|
    requires forall i | 0 <= i < |ts| ::
               Copied(v.obj.contents.elements[i], o.contents.elements[i], ts[i], world, home, n - 1)
    requires Closed(home)
    ensures Copied(v, Object(o), ArrayTree(ts), world, home + {o}, n)
    ensures Closed(home + {o})
  {
    forall i | 0 <= i < |ts|
      ensures Says(o.contents.elements[i], ts[i], home + {o})
    {
      SaysWider(o.contents.elements[i], ts[i], home, home + {o});
    }
    ClosedWith(home, o);
  }

  lemma {:induction false} ArrayUnfit(v: Value, i: nat, world: set<Obj>, n: int)
    requires v.Object? && v.obj in world && v.obj.contents.Array? && i < |v.obj.contents.elements|
    requires Unfit(v.obj.contents.elements[i], world, n - 1)
    ensures Unfit(v, world, n)
  {
  }

  lemma {:induction false} HashCopied(v: Value, o: Obj, ts: map<string, (Tree, Tree)>, world: set<Obj>, home: set<Obj>, n: int)
    requires v.Object? && v.obj in world && v.obj.contents.Hash? && o.contents.Hash? && 0 <= n
    requires v.obj.contents.pairs.Keys == o.contents.pairs.Keys == ts.Keys
    requires forall k | k in ts ::
               PairCopied(v.obj.contents.pairs[k], o.contents.pairs[k], ts[k], world, home, n - 1)
    requires Closed(home)
    ensures Copied(v, Object(o), HashTree(ts), world, home + {o}, n)
    ensures Closed(home + {o})
  {
    var was, made := v.obj.contents.pairs, o.contents.pairs;
    forall k | k in ts
      ensures Says(made[k].0, ts[k].0, home + {o}) && Says(made[k].1, ts[k].1, home + {o})
    {
      assert PairCopied(was[k], made[k], ts[k], world, home, n - 1);
      SaysWider(made[k].0, ts[k].0, home, home + {o});
      SaysWider(made[k].1, ts[k].1, home, home + {o});
    }
    ClosedWith(home, o);
    assert Holds(v.obj.contents, HashTree(ts), world) by {
      forall k | k in ts
        ensures Says(was[k].0, ts[k].0, world) && Says(was[k].1, ts[k].1, world)
      {
        assert PairCopied(was[k], made[k], ts[k], world, home, n - 1);
      }
    }
    forall k | k in ts
      ensures Fits(ts[k].0, n - 1) && Fits(ts[k].1, n - 1)
    {
      assert PairCopied(was[k], made[k], ts[k], world, home, n - 1);
    }
  }

  ghost predicate PairCopied(from: (Value, Value), copy: (Value, Value), t: (Tree, Tree), world: set<Obj>,
                             home: set<Obj>, n: int)
    reads world, home
  {
    Copied(from.0, copy.0, t.0, world, home, n) && Copied(from.1, copy.1, t.1, world, home, n)
  }

  lemma {:induction false} PairCopiedWider(from: (Value, Value), copy: (Value, Value), t: (Tree, Tree), world: set<Obj>, home: set<Obj>,
                        more: set<Obj>, n: int)
    requires PairCopied(from, copy, t, world, home, n) && home <= more
    ensures PairCopied(from, copy, t, world, more, n)
  {
    CopiedWider(from.0, copy.0, t.0, world, home, more, n);
    CopiedWider(from.1, copy.1, t.1, world, home, more, n);
  }

  lemma {:induction false} HashUnfit(v: Value, k: string, world: set<Obj>, n: int)
    requires v.Object? && v.obj in world && v.obj.contents.Hash? && k in v.obj.contents.pairs
    requires PairUnfit(v.obj.contents.pairs[k], world, n - 1)
    ensures Unfit(v, world, n)
  {
  }

  ghost predicate PairUnfit(p: (Value, Value), home: set<Obj>, n: int)
    reads home
  {
    Unfit(p.0, home, n) || Unfit(p.1, home, n)
  }

  lemma {:induction false} StructCopied(v: Value, o: Obj, ts: map<string, Tree>, world: set<Obj>, home: set<Obj>, n: int)
    requires v.Object? && v.obj in world && v.obj.contents.Struct? && 0 <= n
    requires o.contents.Struct? && o.contents.typeName == v.obj.contents.typeName
    requires o.contents.fieldOrder == v.obj.contents.fieldOrder
    requires v.obj.contents.fields.Keys == o.contents.fields.Keys == ts.Keys
    requires forall k | k in ts ::
               Copied(v.obj.contents.fields[k], o.contents.fields[k], ts[k], world, home, n - 1)
    requires Closed(home)
    ensures Copied(v, Object(o), StructTree(v.obj.contents.typeName, v.obj.contents.fieldOrder, ts), world, home + {o}, n)
    ensures Closed(home + {o})
  {
    forall k | k in ts
      ensures Says(o.contents.fields[k], ts[k], home + {o})
    {
      SaysWider(o.contents.fields[k], ts[k], home, home + {o});
    }
    ClosedWith(home, o);
  }

  lemma {:induction false} StructUnfit(v: Value, k: string, world: set<Obj>, n: int)
    requires v.Object? && v.obj in world && v.obj.contents.Struct? && k in v.obj.contents.fields
    requires Unfit(v.obj.contents.fields[k], world, n - 1)
    ensures Unfit(v, world, n)
  {
  }

  lemma {:induction false} EnumCopied(v: Value, o: Obj, t: Tree, world: set<Obj>, home: set<Obj>, n: int)
    requires v.Object? && v.obj in world && v.obj.contents.EnumValue? && 0 <= n
    requires o.contents.EnumValue? && o.contents.typeName == v.obj.contents.typeName
    requires o.contents.tag == v.obj.contents.tag
    requires Copied(v.obj.contents.payload, o.contents.payload, t, world, home, n - 1)
    requires Closed(home)
    ensures Copied(v, Object(o), EnumTree(v.obj.contents.typeName, v.obj.contents.tag, t), world, home + {o}, n)
    ensures Closed(home + {o})
  {
    SaysWider(o.contents.payload, t, home, home + {o});
    ClosedWith(home, o);
  }

  lemma {:induction false} OtherUnfit(v: Value, world: set<Obj>, n: int)
    requires v.Object? && v.obj.contents.Other?
    ensures Unfit(v, world, n)
  {
  }

  lemma {:induction false} EnumUnfit(v: Value, world: set<Obj>, n: int)
    requires v.Object? && v.obj in world && v.obj.contents.EnumValue?
    requires Unfit(v.obj.contents.payload, world, n - 1)
    ensures Unfit(v, world, n)
  {
  }

  // ---------------------------------------------------------------------
  // The copy
  // ---------------------------------------------------------------------

  method CopyElements(es: seq<Value>, depth: nat, ghost world: set<Obj>)
    returns (ok: bool, copies: seq<Value>, ghost ts: seq<Tree>, ghost home: set<Obj>)
    requires depth <= DEPTH && Closed(world)
    requires forall i | 0 <= i < |es| :: In(es[i], world)
    ensures fresh(home) && Closed(home)
    ensures ok ==> |copies| == |ts| == |es|
    ensures ok ==> forall i | 0 <= i < |es| :: Copied(es[i], copies[i], ts[i], world, home, DEPTH - depth - 1)
    ensures !ok ==> exists i :: 0 <= i < |es| && Unfit(es[i], world, DEPTH - depth - 1)
    decreases DEPTH + 1 - depth, 0
  {
    hide Copied, Unfit, Closed;
    ClosedNone();
    copies, ts, home := [], [], {};
    var i: nat := 0;
    while i < |es|
      invariant i <= |es| && |copies| == |ts| == i
      invariant fresh(home) && Closed(home)
      invariant forall k | 0 <= k < i :: Copied(es[k], copies[k], ts[k], world, home, DEPTH - depth - 1)
      decreases |es| - i
    {
      var good, copy; ghost var t, own;
      good, copy, t, own := Copy(es[i], depth + 1, world);
      if !good {
        return false, copies, ts, home;
      }
      forall k | 0 <= k < i {
        CopiedWider(es[k], copies[k], ts[k], world, home, home + own, DEPTH - depth - 1);
      }
      CopiedWider(es[i], copy, t, world, own, home + own, DEPTH - depth - 1);
      ClosedJoin(home, own);
      copies, ts, home, i := copies + [copy], ts + [t], home + own, i + 1;
    }
    ok := true;
  }

  method CopyPair(p: (Value, Value), depth: nat, ghost world: set<Obj>)
    returns (ok: bool, copy: (Value, Value), ghost t: (Tree, Tree), ghost home: set<Obj>)
    requires depth <= DEPTH && Closed(world) && In(p.0, world) && In(p.1, world)
    ensures fresh(home) && Closed(home)
    ensures ok ==> PairCopied(p, copy, t, world, home, DEPTH - depth - 1)
    ensures !ok ==> PairUnfit(p, world, DEPTH - depth - 1)
    decreases DEPTH + 1 - depth, 0
  {
    hide Copied, Unfit, Closed;
    ghost var n := DEPTH - depth - 1;
    copy, t := p, (NilTree, NilTree);
    var key, item; ghost var u, w, more;
    ok, key, u, home := Copy(p.0, depth + 1, world);
    if !ok {
      return;
    }
    ok, item, w, more := Copy(p.1, depth + 1, world);
    if !ok {
      return;
    }
    CopiedWider(p.0, key, u, world, home, home + more, n);
    CopiedWider(p.1, item, w, world, more, home + more, n);
    ClosedJoin(home, more);
    copy, t, home := (key, item), (u, w), home + more;
  }

  method CopyPairs(ps: map<string, (Value, Value)>, depth: nat, ghost world: set<Obj>)
    returns (ok: bool, copies: map<string, (Value, Value)>, ghost ts: map<string, (Tree, Tree)>, ghost home: set<Obj>)
    requires depth <= DEPTH && Closed(world)
    requires forall k | k in ps :: In(ps[k].0, world) && In(ps[k].1, world)
    ensures fresh(home) && Closed(home)
    ensures ok ==> copies.Keys == ts.Keys == ps.Keys
    ensures ok ==> forall k | k in ps :: PairCopied(ps[k], copies[k], ts[k], world, home, DEPTH - depth - 1)
    ensures !ok ==> exists k :: k in ps && PairUnfit(ps[k], world, DEPTH - depth - 1)
    decreases DEPTH + 1 - depth, 1
  {
    hide PairCopied, PairUnfit, Closed;
    ClosedNone();
    copies, ts, home := map[], map[], {};
    var left := ps.Keys;
    while left != {}
      invariant left <= ps.Keys && copies.Keys == ts.Keys == ps.Keys - left
      invariant fresh(home) && Closed(home)
      invariant forall k | k in ps && k !in left :: PairCopied(ps[k], copies[k], ts[k], world, home, DEPTH - depth - 1)
      decreases left
    {
      var k :| k in left;
      var good, copy; ghost var t, own;
      good, copy, t, own := CopyPair(ps[k], depth, world);
      if !good {
        return false, copies, ts, home;
      }
      forall j | j in ps && j !in left {
        PairCopiedWider(ps[j], copies[j], ts[j], world, home, home + own, DEPTH - depth - 1);
      }
      PairCopiedWider(ps[k], copy, t, world, own, home + own, DEPTH - depth - 1);
      ClosedJoin(home, own);
      copies, ts, home, left := copies[k := copy], ts[k := t], home + own, left - {k};
    }
    ok := true;
  }

  method CopyFields(fs: map<string, Value>, depth: nat, ghost world: set<Obj>)
    returns (ok: bool, copies: map<string, Value>, ghost ts: map<string, Tree>, ghost home: set<Obj>)
    requires depth <= DEPTH && Closed(world)
    requires forall k | k in fs :: In(fs[k], world)
    ensures fresh(home) && Closed(home)
    ensures ok ==> copies.Keys == ts.Keys == fs.Keys
    ensures ok ==> forall k | k in fs :: Copied(fs[k], copies[k], ts[k], world, home, DEPTH - depth - 1)
    ensures !ok ==> exists k :: k in fs && Unfit(fs[k], world, DEPTH - depth - 1)
    decreases DEPTH + 1 - depth, 0
  {
    hide Copied, Unfit, Closed;
    ClosedNone();
    copies, ts, home := map[], map[], {};
    var left := fs.Keys;
    while left != {}
      invariant left <= fs.Keys && copies.Keys == ts.Keys == fs.Keys - left
      invariant fresh(home) && Closed(home)
      invariant forall k | k in fs && k !in left :: Copied(fs[k], copies[k], ts[k], world, home, DEPTH - depth - 1)
      decreases left
    {
      var k :| k in left;
      var good, copy; ghost var t, own;
      good, copy, t, own := Copy(fs[k], depth + 1, world);
      if !good {
        return false, copies, ts, home;
      }
      forall j | j in fs && j !in left {
        CopiedWider(fs[j], copies[j], ts[j], world, home, home + own, DEPTH - depth - 1);
      }
      CopiedWider(fs[k], copy, t, world, own, home + own, DEPTH - depth - 1);
      ClosedJoin(home, own);
      copies, ts, home, left := copies[k := copy], ts[k := t], home + own, left - {k};
    }
    ok := true;
  }

  /** cacheCopy: a copy that says the same with objects that did not exist
      before, or a refusal exactly where nothing the value says fits. It ends
      on a value that holds itself, because each level down is counted. */
  method Copy(v: Value, depth: nat, ghost world: set<Obj>)
    returns (ok: bool, copy: Value, ghost t: Tree, ghost home: set<Obj>)
    requires depth <= DEPTH + 1 && Closed(world) && In(v, world)
    ensures fresh(home) && Closed(home)
    ensures ok ==> Copied(v, copy, t, world, home, DEPTH - depth)
    ensures !ok ==> Unfit(v, world, DEPTH - depth)
    decreases DEPTH + 1 - depth, 3
  {
    copy, t, home := v, NilTree, {};
    if depth > DEPTH {
      return false, copy, t, home;
    }
    if !v.Object? {
      t := if v.Nil? then NilTree else PlainTree(v.scalar);
      return true, copy, t, home;
    }
    var c := v.obj.contents;
    if c.Other? {
      OtherUnfit(v, world, DEPTH - depth);
      return false, copy, t, home;
    }
    if c.Bytes? {
      var o := new Obj(c);
      return true, Object(o), BytesTree(c.bytes, c.mark), {o};
    }
    ok, copy, t, home := CopyContainer(v, depth, world);
  }

  method CopyContainer(v: Value, depth: nat, ghost world: set<Obj>)
    returns (ok: bool, copy: Value, ghost t: Tree, ghost home: set<Obj>)
    requires depth <= DEPTH && Closed(world) && In(v, world)
    requires v.Object? && !v.obj.contents.Other? && !v.obj.contents.Bytes?
    ensures fresh(home) && Closed(home)
    ensures ok ==> Copied(v, copy, t, world, home, DEPTH - depth)
    ensures !ok ==> Unfit(v, world, DEPTH - depth)
    decreases DEPTH + 1 - depth, 2
  {
    hide Copied, Unfit, PairCopied, PairUnfit, Closed;
    ghost var n := DEPTH - depth;
    copy, t := v, NilTree;
    ClosedHolds(v.obj, world);
    match v.obj.contents
    case Array(elements) =>
      var es; ghost var ts;
      ok, es, ts, home := CopyElements(elements, depth, world);
      if ok {
        var o := new Obj(Array(es));
        ArrayCopied(v, o, ts, world, home, n);
        copy, t, home := Object(o), ArrayTree(ts), home + {o};
      } else {
        ghost var i :| 0 <= i < |elements| && Unfit(elements[i], world, n - 1);
        ArrayUnfit(v, i, world, n);
      }
    case Hash(pairs) =>
      var ps; ghost var ts;
      ok, ps, ts, home := CopyPairs(pairs, depth, world);
      if ok {
        var o := new Obj(Hash(ps));
        HashCopied(v, o, ts, world, home, n);
        copy, t, home := Object(o), HashTree(ts), home + {o};
      } else {
        ghost var k :| k in pairs && PairUnfit(pairs[k], world, n - 1);
        HashUnfit(v, k, world, n);
      }
    case Struct(name, order, fields) =>
      var fs; ghost var ts;
      ok, fs, ts, home := CopyFields(fields, depth, world);
      if ok {
        var o := new Obj(Struct(name, order, fs));
        StructCopied(v, o, ts, world, home, n);
        copy, t, home := Object(o), StructTree(name, order, ts), home + {o};
      } else {
        ghost var k :| k in fields && Unfit(fields[k], world, n - 1);
        StructUnfit(v, k, world, n);
      }
    case EnumValue(name, tag, payload) =>
      var p; ghost var u;
      ok, p, u, home := Copy(payload, depth + 1, world);
      if ok {
        var o := new Obj(EnumValue(name, tag, p));
        EnumCopied(v, o, u, world, home, n);
        copy, t, home := Object(o), EnumTree(name, tag, u), home + {o};
      } else {
        EnumUnfit(v, world, n);
      }
  }
}
