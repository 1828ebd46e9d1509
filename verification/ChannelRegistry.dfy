// The handles channels are known by: how many may be open at once, and which
// closed ones stay addressable.
module ChannelRegistry {
  import opened Common

  const MAX_LIVE: nat := 1024
  const MAX_RETAINED: nat := 4096

  function Members(s: seq<int>): set<int> {
    set h | h in s
  }

  ghost predicate Distinct(s: seq<int>) {
    forall i, j | 0 <= i < j < |s| :: s[i] != s[j]
  }

  /** The last of what was retired, as much of it as is kept. */
  function Kept(retired: seq<int>): seq<int> {
    if |retired| > MAX_RETAINED then retired[|retired| - MAX_RETAINED..] else retired
  }

  ghost predicate Counted(live: int, unretired: set<int>) {
    live == |unretired| <= MAX_LIVE
  }

  /** Handles handed out are below the next, and each is retired once at most. */
  ghost predicate Handed(nextID: int, unretired: set<int>, retired: seq<int>) {
    && Distinct(retired)
    && (forall h | h in unretired :: h < nextID && h !in retired)
    && (forall h | h in retired :: h < nextID)
  }

  /** Every handle not retired can be looked up, and the retired ones still kept. */
  ghost predicate Addressable(channels: map<int, bool>, unretired: set<int>, closed: seq<int>) {
    channels.Keys == unretired + Members(closed) && forall h | h in closed :: channels[h]
  }

  class Registry {
    /** Each handle's channel, which is whether it has been closed. */
    var channels: map<int, bool>
    var nextID: int
    var live: int
    var closed: seq<int>
    /** Handles handed out and not retired, and those retired, in order. */
    ghost var unretired: set<int>
    ghost var retired: seq<int>

    ghost predicate Valid()
      reads this
    {
      && Counted(live, unretired) && Handed(nextID, unretired, retired)
      && closed == Kept(retired) && Addressable(channels, unretired, closed)
    }

    constructor ()
      ensures Valid() && channels == map[] && unretired == {} && retired == []
    {
      channels, nextID, live, closed := map[], 1, 0, [];
      unretired, retired := {}, [];
    }

    /** registerChannel: a handle never handed out before, or a refusal at the limit. */
    method Register() returns (handle: Option<int>)
      requires Valid()
      modifies this
      ensures Valid() && retired == old(retired)
      ensures handle.None? <==> |old(unretired)| == 1024
      ensures handle.None? ==> channels == old(channels) && unretired == old(unretired)
      ensures handle.Some? ==> handle.value !in old(unretired) && handle.value !in retired
      ensures handle.Some? ==> channels == old(channels)[handle.value := false]
      ensures handle.Some? ==> unretired == old(unretired) + {handle.value}
    {
      hide Kept, Counted, Addressable, Handed, Members;
      AtLimit(live, unretired);
      if live >= MAX_LIVE {
        return None;
      }
      var id := nextID;
      HandedMore(nextID, unretired, retired);
      CountedMore(live, unretired, id);
      AddressableMore(channels, unretired, closed, id);
      nextID, live := nextID + 1, live + 1;
      channels, unretired := channels[id := false], unretired + {id};
      return Some(id);
    }

    /** The closed handle retired longest ago goes, past the limit. */
    method Evict()
      requires |closed| <= MAX_RETAINED + 1 && Distinct(closed) && forall k | k in closed :: k !in unretired
      requires channels.Keys == unretired + Members(closed)
      modifies `channels, `closed
      ensures closed == if |old(closed)| > MAX_RETAINED then old(closed)[1..] else old(closed)
      ensures channels.Keys == unretired + Members(closed)
      ensures forall k | k in channels :: k in old(channels) && channels[k] == old(channels)[k]
    {
      hide Members, Distinct;
      while |closed| > MAX_RETAINED
        invariant closed == old(closed) || (|old(closed)| > MAX_RETAINED && closed == old(closed)[1..])
        invariant channels.Keys == unretired + Members(closed)
        invariant forall k | k in channels :: k in old(channels) && channels[k] == old(channels)[k]
        decreases |closed|
      {
        Evicts(channels.Keys, unretired, closed);
        channels := channels - {closed[0]};
        closed := closed[1..];
      }
    }

    /** retireChannel: one fewer open. The handle just closed stays, and no
        handle still open goes; past the limit the one retired longest ago does. */
    method Retire(h: int)
      requires Valid() && h in unretired && h in channels && channels[h]
      modifies this
      ensures Valid() && unretired == old(unretired) - {h} && retired == old(retired) + [h]
      ensures h in channels && forall k | k in channels :: k in old(channels) && channels[k] == old(channels)[k]
    {
      hide Kept, Handed, Distinct, Addressable, Counted, Members;
      WasAddressable(channels, unretired, closed, h);
      HandedLess(nextID, unretired, retired, h);
      CountedLess(live, unretired, h);
      KeptMore(retired, h);
      LastKept(retired + [h]);
      live := live - 1;
      unretired, retired := unretired - {h}, retired + [h];
      closed := closed + [h];
      Evict();
      StillAddressable(old(channels), old(unretired), old(closed), channels, unretired, closed, h);
      IsMember(closed, h);
    }

    /** closeChannel and then retireChannel: true for the first close of a
        channel and false for every other. */
    method Close(h: int) returns (first: Option<bool>)
      requires Valid() && forall k | k in unretired :: !channels[k]
      modifies this
      ensures Valid() && forall k | k in unretired :: !channels[k]
      ensures first == if h !in old(channels) then None else Some(h in old(unretired))
      ensures first == Some(true) ==> unretired == old(unretired) - {h} && retired == old(retired) + [h] && h in channels
      ensures first != Some(true) ==> unretired == old(unretired) && retired == old(retired) && channels == old(channels)
    {
      if h !in channels {
        return None;
      }
      if channels[h] {
        return Some(false);
      }
      assert h in unretired;
      channels := channels[h := true];
      Retire(h);
      return Some(true);
    }
  }

  lemma KeptMore(retired: seq<int>, h: int)
    requires Distinct(retired) && h !in retired
    ensures |Kept(retired)| <= MAX_RETAINED && Distinct(Kept(retired) + [h]) && Distinct(retired + [h])
    ensures |Kept(retired)| < MAX_RETAINED ==> Kept(retired + [h]) == Kept(retired) + [h]
    ensures |Kept(retired)| == MAX_RETAINED ==> Kept(retired + [h]) == (Kept(retired) + [h])[1..]
    ensures forall k | k in Kept(retired) + [h] :: k in retired + [h]
  {
  }

  lemma HandedLess(nextID: int, unretired: set<int>, retired: seq<int>, h: int)
    requires Handed(nextID, unretired, retired) && h in unretired
    ensures Handed(nextID, unretired - {h}, retired + [h])
    ensures Distinct(retired) && h !in retired && forall k | k in retired :: k !in unretired
  {
  }

  lemma WasAddressable(channels: map<int, bool>, unretired: set<int>, closed: seq<int>, h: int)
    requires Addressable(channels, unretired, closed) && h in unretired
    ensures channels.Keys == unretired - {h} + Members(closed + [h])
  {
  }

  lemma StillAddressable(was: map<int, bool>, before: set<int>, kept: seq<int>, now: map<int, bool>, unretired: set<int>,
                         closed: seq<int>, h: int)
    requires Addressable(was, before, kept) && h in was && was[h]
    requires now.Keys == unretired + Members(closed)
    requires closed == kept + [h] || (kept != [] && closed == kept[1..] + [h])
    requires forall k | k in now :: k in was && now[k] == was[k]
    ensures Addressable(now, unretired, closed)
  {
  }

  lemma HandedMore(nextID: int, unretired: set<int>, retired: seq<int>)
    requires Handed(nextID, unretired, retired)
    ensures nextID !in unretired && nextID !in retired && Handed(nextID + 1, unretired + {nextID}, retired)
    ensures forall k | k in Kept(retired) :: k != nextID
  {
  }

  lemma AddressableMore(channels: map<int, bool>, unretired: set<int>, closed: seq<int>, h: int)
    requires Addressable(channels, unretired, closed) && h !in closed
    ensures Addressable(channels[h := false], unretired + {h}, closed)
  {
  }

  lemma AtLimit(live: int, unretired: set<int>)
    requires Counted(live, unretired)
    ensures live >= MAX_LIVE <==> |unretired| == MAX_LIVE
  {
  }

  lemma CountedLess(live: int, unretired: set<int>, h: int)
    requires Counted(live, unretired) && h in unretired
    ensures Counted(live - 1, unretired - {h})
  {
  }

  lemma CountedMore(live: int, unretired: set<int>, h: int)
    requires Counted(live, unretired) && live < MAX_LIVE && h !in unretired
    ensures Counted(live + 1, unretired + {h})
  {
  }

  lemma IsMember(s: seq<int>, h: int)
    requires h in s
    ensures h in Members(s)
  {
  }

  lemma LastKept(retired: seq<int>)
    requires retired != []
    ensures retired[|retired| - 1] in Kept(retired)
  {
  }

  lemma Evicts(keys: set<int>, unretired: set<int>, closed: seq<int>)
    requires closed != [] && Distinct(closed) && keys == unretired + Members(closed)
    requires forall k | k in closed :: k !in unretired
    ensures keys - {closed[0]} == unretired + Members(closed[1..])
  {
  }

  /** What can be looked up is bounded, and nothing open is ever dropped. */
  lemma Bounded(r: Registry)
    requires r.Valid()
    ensures r.unretired <= r.channels.Keys
    ensures r.live == |r.unretired| <= 1024 && |r.closed| <= 4096
    ensures |r.channels| <= 5120
  {
    MembersCount(r.closed);
    UnionCount(r.unretired, Members(r.closed));
    assert |r.channels| == |r.channels.Keys|;
  }

  /** A handle can be looked up exactly if it is not retired, or is one of the last 4096 that were. */
  lemma {:induction false} AddressableIff(r: Registry, h: int)
    requires r.Valid()
    ensures h in r.channels <==>
            h in r.unretired || exists i :: 0 <= i < |r.retired| && |r.retired| - 4096 <= i && r.retired[i] == h
  {
    var kept := Kept(r.retired);
    var from := |r.retired| - |kept|;
    assert forall i | 0 <= i < |kept| :: kept[i] == r.retired[from + i];
    assert h in Members(kept) <==> h in kept;
    if i :| from <= i < |r.retired| && r.retired[i] == h {
      assert kept[i - from] == h;
    }
  }

  lemma {:induction false} MembersCount(s: seq<int>)
    ensures |Members(s)| <= |s|
  {
    if s != [] {
      MembersCount(s[1..]);
      assert Members(s) == Members(s[1..]) + {s[0]};
      UnionCount(Members(s[1..]), {s[0]});
    }
  }

  lemma {:induction false} UnionCount(a: set<int>, b: set<int>)
    ensures |a + b| <= |a| + |b|
    decreases b
  {
  }
}
