// The uid of a chain event: a digest of every property the event carries but
// the uid itself, framed and in key order.
module ChainUid {
  import opened Text
  import opened Digest
  import opened Order

  /** A node's properties, all text. */
  type Props = map<string, string>

  /** disclosureNode.get: an absent property reads as "". */
  function Get(props: Props, key: string): string {
    if key in props then props[key] else ""
  }

  predicate ShortProps(props: Props) {
    forall k | k in props :: Short(k) && Short(props[k])
  }

  /** caseChainSpec.key. */
  function Key(prefix: string, name: string): string {
    prefix + "." + name
  }

  /** The properties a chain adds to an event are four different ones. */
  lemma KeysDistinct(prefix: string)
    ensures Key(prefix, "uid") != Key(prefix, "seq")
    ensures Key(prefix, "uid") != Key(prefix, "prev_uid")
    ensures Key(prefix, "uid") != Key(prefix, "chain")
    ensures Key(prefix, "seq") != Key(prefix, "prev_uid")
    ensures Key(prefix, "seq") != Key(prefix, "chain")
    ensures Key(prefix, "chain") != Key(prefix, "prev_uid")
  {
    var n := |prefix| + 1;
    assert Key(prefix, "uid")[n] == 'u' && Key(prefix, "seq")[n] == 's';
    assert Key(prefix, "prev_uid")[n] == 'p' && Key(prefix, "chain")[n] == 'c';
  }

  // ---------------------------------------------------------------------
  // What is hashed
  // ---------------------------------------------------------------------

  /** Each key followed by its value. */
  function Flat(keys: seq<string>, props: Props): seq<string> {
    if keys == [] then [] else [keys[0], Get(props, keys[0])] + Flat(keys[1..], props)
  }

  lemma {:induction false} FlatInjective(ks: seq<string>, a: Props, ls: seq<string>, b: Props)
    requires Flat(ks, a) == Flat(ls, b)
    ensures ks == ls && forall k | k in ks :: Get(a, k) == Get(b, k)
  {
    if ks != [] && ls != [] {
      var x, y := Flat(ks, a), Flat(ls, b);
      assert x[0] == ks[0] && x[1] == Get(a, ks[0]) && x[2..] == Flat(ks[1..], a);
      assert y[0] == ls[0] && y[1] == Get(b, ls[0]) && y[2..] == Flat(ls[1..], b);
      FlatInjective(ks[1..], a, ls[1..], b);
      assert ks == [ks[0]] + ks[1..] && ls == [ls[0]] + ls[1..];
    }
  }

  lemma {:induction false} FlatShort(keys: seq<string>, props: Props)
    requires ShortProps(props) && forall k | k in keys :: k in props
    ensures AllShort(Flat(keys, props))
  {
    if keys != [] {
      FlatShort(keys[1..], props);
      assert keys[0] in props;
    }
  }

  function Heading(prefix: string): seq<string> {
    ["mutant-case-chain-v1", prefix]
  }

  /** The properties a uid covers: all but the uid itself. */
  function Covered(prefix: string, props: Props): set<string> {
    props.Keys - {Key(prefix, "uid")}
  }

  ghost function UidFields(prefix: string, props: Props): seq<string> {
    Heading(prefix) + Flat(InOrder(Covered(prefix, props)), props)
  }

  /** The bytes an event's uid is a digest of. */
  ghost function UidText(prefix: string, props: Props): string {
    Frames(UidFields(prefix, props))
  }

  ghost function Uid(h: Hash, prefix: string, props: Props): Hex {
    Sum(h, UidText(prefix, props))
  }

  lemma {:induction false} FlatAt(keys: seq<string>, props: Props, i: nat)
    requires i < |keys|
    ensures |Flat(keys, props)| == 2 * |keys|
    ensures Flat(keys, props)[2 * i] == keys[i] && Flat(keys, props)[2 * i + 1] == Get(props, keys[i])
  {
    FlatLength(keys[1..], props);
    if i > 0 {
      FlatAt(keys[1..], props, i - 1);
    }
  }

  lemma {:induction false} FlatLength(keys: seq<string>, props: Props)
    ensures |Flat(keys, props)| == 2 * |keys|
  {
    if keys != [] {
      FlatLength(keys[1..], props);
    }
  }

  /** What is framed: a heading, the chain's prefix, and each property but the uid with its value, in key order. */
  lemma {:induction false} UidTextIs(prefix: string, props: Props, i: nat)
    requires i < |InOrder(Covered(prefix, props))|
    ensures var keys, fields := InOrder(Covered(prefix, props)), UidFields(prefix, props);
            && UidText(prefix, props) == Frames(fields) && |fields| == 2 + 2 * |keys|
            && fields[0] == "mutant-case-chain-v1" && fields[1] == prefix
            && keys[i] in props && keys[i] != prefix + ".uid"
            && fields[2 + 2 * i] == keys[i] && fields[3 + 2 * i] == props[keys[i]]
  {
    hide InOrder, Flat;
    var keys := InOrder(Covered(prefix, props));
    FlatAt(keys, props, i);
    MembersInOrder(Covered(prefix, props));
    assert keys[i] in keys;
    assert Key(prefix, "uid") == prefix + ".uid";
  }

  lemma {:induction false} FieldsShort(prefix: string, props: Props)
    requires Short(prefix) && ShortProps(props)
    ensures AllShort(Heading(prefix) + Flat(InOrder(Covered(prefix, props)), props))
  {
    MembersInOrder(Covered(prefix, props));
    FlatShort(InOrder(Covered(prefix, props)), props);
  }

  lemma SameFieldsSameFlat(prefix: string, x: seq<string>, y: seq<string>)
    requires Heading(prefix) + x == Heading(prefix) + y
    ensures x == y
  {
    assert x == (Heading(prefix) + x)[2..] && y == (Heading(prefix) + y)[2..];
  }

  /** No two events of a chain hash the same bytes unless they carry the same properties. */
  lemma UidTextInjective(prefix: string, a: Props, b: Props)
    requires Short(prefix) && ShortProps(a) && ShortProps(b) && UidText(prefix, a) == UidText(prefix, b)
    ensures a - {Key(prefix, "uid")} == b - {Key(prefix, "uid")}
  {
    hide InOrder, Heading, Flat, Frames, Key, ShortProps, Covered, Get;
    var s, t := Covered(prefix, a), Covered(prefix, b);
    FieldsShort(prefix, a);
    FieldsShort(prefix, b);
    FramesInjective(Heading(prefix) + Flat(InOrder(s), a), Heading(prefix) + Flat(InOrder(t), b));
    SameFieldsSameFlat(prefix, Flat(InOrder(s), a), Flat(InOrder(t), b));
    FlatInjective(InOrder(s), a, InOrder(t), b);
    SameOrderSameSet(s, t);
    SameOnCovered(prefix, a, b);
  }

  lemma SameOrderSameSet(s: set<string>, t: set<string>)
    requires InOrder(s) == InOrder(t)
    ensures s == t && forall k | k in s :: k in InOrder(s)
  {
    hide InOrder;
    MembersInOrder(s);
    MembersInOrder(t);
    assert forall k :: k in s <==> k in InOrder(s);
  }

  lemma SameOnCovered(prefix: string, a: Props, b: Props)
    requires Covered(prefix, a) == Covered(prefix, b)
    requires forall k | k in Covered(prefix, a) :: Get(a, k) == Get(b, k)
    ensures a - {Key(prefix, "uid")} == b - {Key(prefix, "uid")}
  {
  }

  /** The keys a uid covers, in whatever order the map hands them over. */
  method CollectKeys(prefix: string, props: Props) returns (keys: seq<string>)
    ensures multiset(keys) == multiset(Covered(prefix, props))
  {
    hide Key;
    var uidKey := Key(prefix, "uid");
    keys := [];
    var left := props.Keys;
    while left != {}
      invariant left <= props.Keys
      invariant multiset(keys) == multiset(Covered(prefix, props) - left)
      decreases left
    {
      var key :| key in left;
      left := left - {key};
      if key != uidKey {
        keys := keys + [key];
      }
    }
    assert Covered(prefix, props) - {} == Covered(prefix, props);
  }

  lemma {:induction false} FlatEnds(props: Props)
    ensures Flat([], props) == []
  {
  }

  lemma {:induction false} FlatTurn(keys: seq<string>, i: nat, props: Props)
    requires i < |keys|
    ensures Flat(keys[i..], props) == [keys[i], Get(props, keys[i])] + Flat(keys[i + 1..], props)
  {
  }

  method WriteFields(keys: seq<string>, props: Props) returns (flat: seq<string>)
    ensures flat == Flat(keys, props)
  {
    hide Get, Flat;
    flat := [];
    var i: nat := 0;
    assert keys[0..] == keys;
    while i < |keys|
      invariant i <= |keys|
      invariant flat + Flat(keys[i..], props) == Flat(keys, props)
      decreases |keys| - i
    {
      FlatTurn(keys, i, props);
      flat := flat + [keys[i], Get(props, keys[i])];
      i := i + 1;
    }
    FlatEnds(props);
    assert keys[i..] == [] && flat + [] == flat;
  }

  /** caseChainUID. */
  method CaseChainUid(h: Hash, prefix: string, props: Props) returns (uid: Hex)
    ensures uid == Uid(h, prefix, props)
  {
    hide InOrder, Sum, Heading, Frames, Covered;
    var keys := CollectKeys(prefix, props);
    InOrderWhateverOrder(Covered(prefix, props), keys);
    var flat := WriteFields(Sort(keys), props);
    uid := Sum(h, Frames(Heading(prefix) + flat));
  }
}
