// One named cache: entries with their expiry in one map, values in another,
// and counters; against the single map with expiry it stands for.
module Cache {
  import opened Common
  import opened Order
  import opened CacheCopy

  // ---------------------------------------------------------------------
  // Expiry, in nanoseconds
  // ---------------------------------------------------------------------

  const SECOND := 1_000_000_000
  const TWO_63 := 0x8000_0000_0000_0000

  /** A product of two int64 values, as an int64. */
  function Wrapped(x: int): int {
    (x + TWO_63) % (2 * TWO_63) - TWO_63
  }

  /** No time to live means no expiry; otherwise it is counted in nanoseconds of 64 bits. */
  function Expiry(now: int, ttl: nat): Option<int> {
    if ttl == 0 then None else Some(now + Wrapped(ttl * SECOND))
  }

  /** A time to live is kept to the second up to 9223372036 of them, some 292
      years. Past that the product does not fit, and the entry lives shorter. */
  lemma {:induction false} ExpiryExact(now: int, ttl: nat)
    requires 0 < ttl
    ensures Expiry(now, ttl) == Some(now + ttl * SECOND) <==> ttl <= 9_223_372_036
  {
  }

  predicate Expired(expiry: Option<int>, now: int) {
    expiry.Some? && now > expiry.value
  }

  /** The first times to live that do not fit are past when they are put. */
  lemma {:induction false} ExpiredWhenPut(now: int, ttl: nat)
    requires 9_223_372_037 <= ttl <= 18_446_744_073
    ensures Expired(Expiry(now, ttl), now)
  {
    assert Wrapped(ttl * SECOND) == ttl * SECOND - 2 * TWO_63;
  }

  // ---------------------------------------------------------------------
  // The map the cache stands for: nothing leaves it by growing old
  // ---------------------------------------------------------------------

  type Ideal = map<string, (Tree, Option<int>)>

  ghost predicate Live(ideal: Ideal, key: string, now: int) {
    key in ideal && !Expired(ideal[key].1, now)
  }

  ghost function LiveKeys(ideal: Ideal, now: int): set<string> {
    set k | k in ideal && Live(ideal, k, now)
  }

  /** A key put with no time to live is alive at any time; one put with a time to live, to the last nanosecond of it. */
  lemma {:induction false} AliveUntil(ideal: Ideal, key: string, now: int, ttl: nat, at: int)
    requires key in ideal && ideal[key].1 == Expiry(now, ttl)
    ensures ttl == 0 ==> Live(ideal, key, at)
    ensures 0 < ttl <= 9_223_372_036 ==> (Live(ideal, key, at) <==> at <= now + ttl * 1_000_000_000)
  {
    if 0 < ttl {
      ExpiryExact(now, ttl);
    }
  }

  datatype Stats = Stats(hits: nat, misses: nat, puts: nat, deletes: nat, expires: nat, clears: nat)

  type Entries = map<string, Option<int>>

  /** Each stored value says its tree, with objects of the store's own. */
  ghost predicate Stored(values: map<string, Value>, trees: map<string, Tree>, home: set<Obj>)
    reads home
  {
    && Closed(home) && values.Keys == trees.Keys
    && forall k | k in values :: Says(values[k], trees[k], home) && Fits(trees[k], DEPTH)
  }

  /** An entry is what the map it stands for has; one that is gone from the
      entries and not from that map had expired. */
  ghost predicate Agrees(entries: Entries, trees: map<string, Tree>, ideal: Ideal, clock: int) {
    && (forall k | k in entries :: k in trees && k in ideal && ideal[k] == (trees[k], entries[k]))
    && (forall k | k in ideal && k !in entries :: Expired(ideal[k].1, clock))
  }

  lemma {:induction false} AgreesLater(entries: Entries, trees: map<string, Tree>, ideal: Ideal, clock: int, now: int)
    requires Agrees(entries, trees, ideal, clock) && clock <= now
    ensures Agrees(entries, trees, ideal, now)
  {
  }

  lemma {:induction false} AgreesPut(entries: Entries, trees: map<string, Tree>, ideal: Ideal, clock: int, key: string, t: Tree,
                  expiry: Option<int>)
    requires Agrees(entries, trees, ideal, clock)
    ensures Agrees(entries[key := expiry], trees[key := t], ideal[key := (t, expiry)], clock)
  {
  }

  lemma {:induction false} AgreesExpire(entries: Entries, trees: map<string, Tree>, ideal: Ideal, clock: int, key: string)
    requires Agrees(entries, trees, ideal, clock) && key in entries && Expired(entries[key], clock)
    ensures Agrees(entries - {key}, trees, ideal, clock)
  {
  }

  lemma {:induction false} AgreesDelete(entries: Entries, trees: map<string, Tree>, ideal: Ideal, clock: int, key: string, t: Tree)
    requires Agrees(entries, trees, ideal, clock)
    ensures Agrees(entries - {key}, trees[key := t], ideal - {key}, clock)
  {
  }

  lemma {:induction false} OneFewer(entries: Entries, key: string)
    requires key in entries
    ensures |entries - {key}| == |entries| - 1
  {
  }

  /** Under a clock that does not go back, an entry answers as the map does. */
  lemma {:induction false} EntryAnswers(entries: Entries, trees: map<string, Tree>, ideal: Ideal, clock: int, key: string, now: int)
    requires Agrees(entries, trees, ideal, clock) && clock <= now
    ensures key in entries && !Expired(entries[key], now) <==> Live(ideal, key, now)
    ensures Live(ideal, key, now) ==> ideal[key].0 == trees[key]
  {
  }

  /** Whether there is an entry says whether the key is alive, unless the entry is expired and held still. */
  lemma {:induction false} EntrySaysAliveIff(entries: Entries, trees: map<string, Tree>, ideal: Ideal, clock: int,
                                             key: string, now: int)
    requires Agrees(entries, trees, ideal, clock) && clock <= now
    ensures (key in entries <==> Live(ideal, key, now)) <==> !(key in entries && Expired(entries[key], now))
    ensures entries.Keys == LiveKeys(ideal, now) ==> (key in entries <==> Live(ideal, key, now))
  {
    EntryAnswers(entries, trees, ideal, clock, key, now);
    assert key in entries <==> key in entries.Keys;
  }

  lemma {:induction false} AllAlive(entries: Entries, trees: map<string, Tree>, ideal: Ideal, now: int)
    requires Agrees(entries, trees, ideal, now)
    requires forall k | k in entries :: !Expired(entries[k], now)
    ensures entries.Keys == LiveKeys(ideal, now)
  {
  }

  lemma {:induction false} StoredAt(values: map<string, Value>, trees: map<string, Tree>, home: set<Obj>, key: string)
    requires Stored(values, trees, home) && key in trees
    ensures key in values && Says(values[key], trees[key], home) && Fits(trees[key], DEPTH)
    ensures Closed(home) && In(values[key], home)
  {
  }

  lemma {:induction false} StoredMore(values: map<string, Value>, trees: map<string, Tree>, home: set<Obj>, key: string, copy: Value, t: Tree,
                   own: set<Obj>)
    requires Stored(values, trees, home) && Closed(own) && Says(copy, t, own) && Fits(t, DEPTH)
    ensures Stored(values[key := copy], trees[key := t], home + own)
  {
    hide Closed, Fits, Says;
    forall k | k in values
      ensures Says(values[k], trees[k], home + own)
    {
      SaysWider(values[k], trees[k], home, home + own);
    }
    SaysWider(copy, t, own, home + own);
    ClosedJoin(home, own);
  }

  class Store {
    var entries: Entries
    var values: map<string, Value>
    var stats: Stats
    /** What each stored value says, and the objects they all say it with. */
    ghost var trees: map<string, Tree>
    ghost var home: set<Obj>
    ghost var ideal: Ideal
    ghost var gets: nat
    ghost var clock: int

    ghost predicate Valid()
      reads this, home
    {
      Stored(values, trees, home) && Agrees(entries, trees, ideal, clock) && stats.hits + stats.misses == gets
    }

    constructor ()
      ensures Valid() && ideal == map[] && gets == 0 && home == {}
    {
      entries, values, stats := map[], map[], Stats(0, 0, 0, 0, 0, 0);
      trees, home, ideal, gets := map[], {}, map[], 0;
    }

    /** cacheSetValue: a copy of `v` under `key`. */
    method SetValue(key: string, v: Value, ghost world: set<Obj>) returns (ok: bool)
      requires Stored(values, trees, home) && Closed(world) && In(v, world)
      modifies `values, `trees, `home
      ensures Stored(values, trees, home) && fresh(home - old(home)) && old(home) <= home
      ensures ok ==> key in trees && trees == old(trees)[key := trees[key]]
      ensures ok ==> Says(v, trees[key], world) && Fits(trees[key], DEPTH)
      ensures !ok ==> Unfit(v, world, DEPTH) && values == old(values) && trees == old(trees) && home == old(home)
    {
      hide Closed, Unfit, Fits, Says, Stored;
      var copy; ghost var t, own;
      ok, copy, t, own := Copy(v, 0, world);
      if ok {
        StoredMore(values, trees, home, key, copy, t, own);
        values, trees, home := values[key := copy], trees[key := t], home + own;
      }
    }

    /** cache_put: the key now stands for what the value says now, until the
        time given; a negative time to live and a value that cannot be copied are
        refused, and change nothing. */
    method Put(key: string, v: Value, ttl: int, now: int, ghost world: set<Obj>) returns (ok: bool)
      requires Valid() && clock <= now && Closed(world) && In(v, world)
      modifies this
      ensures Valid() && clock == now && gets == old(gets)
      ensures fresh(home - old(home)) && old(home) <= home
      ensures ok ==> 0 <= ttl
      ensures ok ==> exists t :: Says(v, t, world) && Fits(t, DEPTH) && ideal == old(ideal)[key := (t, Expiry(now, ttl))]
      ensures !ok ==> (ttl < 0 || Unfit(v, world, DEPTH)) && ideal == old(ideal)
      ensures stats == if ok then old(stats).(puts := old(stats).puts + 1) else old(stats)
    {
      hide Closed, Unfit, Fits, Says, Stored, Agrees, Expiry;
      AgreesLater(entries, trees, ideal, clock, now);
      clock := now;
      if ttl < 0 {
        return false;
      }
      ghost var before := trees;
      ok := SetValue(key, v, world);
      if ok {
        AgreesPut(entries, before, ideal, now, key, trees[key], Expiry(now, ttl));
        entries := entries[key := Expiry(now, ttl)];
        stats := stats.(puts := stats.puts + 1);
        ideal := ideal[key := (trees[key], Expiry(now, ttl))];
      }
    }

    /** cache_get: what the map holds under the key if it is alive, in objects
        made for this answer. The branch for an entry whose value has gone
        cannot be taken here, and the copy of what was copied in cannot fail. */
    method Get(key: string, now: int) returns (found: bool, value: Value, ghost own: set<Obj>)
      requires Valid() && clock <= now
      modifies this
      ensures Valid() && clock == now && ideal == old(ideal) && home == old(home)
      ensures found <==> Live(ideal, key, now)
      ensures found ==> Says(value, ideal[key].0, own)
      ensures fresh(own)
      ensures gets == old(gets) + 1
      ensures stats.hits == old(stats.hits) + if found then 1 else 0
      ensures stats.expires == old(stats.expires) + if key in old(entries) && !found then 1 else 0
      ensures stats == old(stats).(hits := stats.hits, misses := stats.misses, expires := stats.expires)
    {
      hide Closed, Fits, Says, Stored, Live, Copied, Unfit;
      EntryAnswers(entries, trees, ideal, clock, key, now);
      AgreesLater(entries, trees, ideal, clock, now);
      value, own, clock, gets := Nil, {}, now, gets + 1;
      found := key in entries;
      if found && Expired(entries[key], now) {
        AgreesExpire(entries, trees, ideal, now, key);
        entries := entries - {key};
        stats := stats.(expires := stats.expires + 1);
        found := false;
      }
      if !found {
        stats := stats.(misses := stats.misses + 1);
        return;
      }
      stats := stats.(hits := stats.hits + 1);
      StoredAt(values, trees, home, key);
      ghost var t;
      found, value, t, own := Copy(values[key], 0, home);
      GetSays(values[key], trees[key], home, found, value, t, own);
    }

    /** cache_delete: the key stands for nothing afterwards. It answers for the
        entry: at any time, that is whether the key is alive exactly if it is not
        an expired entry held still; so it is, straight after a cleanup. */
    method Delete(key: string) returns (existed: bool)
      requires Valid()
      modifies this
      ensures Valid() && clock == old(clock) && gets == old(gets)
      ensures ideal == old(ideal) - (if existed then {key} else {})
      ensures existed <==> key in old(entries)
      ensures forall now | old(clock) <= now ::
                (existed <==> Live(old(ideal), key, now)) <==> !(key in old(entries) && Expired(old(entries)[key], now))
      ensures old(entries).Keys == LiveKeys(old(ideal), clock) ==> (existed <==> Live(old(ideal), key, clock))
      ensures !Live(ideal, key, clock)
      ensures stats == if existed then old(stats).(deletes := old(stats).deletes + 1) else old(stats)
      ensures fresh(home - old(home))
    {
      hide Closed, Fits, Says, Stored, Unfit, Agrees, LiveKeys;
      EntryAnswers(entries, trees, ideal, clock, key, clock);
      forall now | clock <= now
        ensures (key in entries <==> Live(ideal, key, now)) <==> !(key in entries && Expired(entries[key], now))
      {
        EntrySaysAliveIff(entries, trees, ideal, clock, key, now);
      }
      EntrySaysAliveIff(entries, trees, ideal, clock, key, clock);
      existed := key in entries;
      if existed {
        EntryHeld(entries, trees, ideal, clock, key);
        entries := entries - {key};
        stats := stats.(deletes := stats.deletes + 1);
        ClosedNone();
        var ok := SetValue(key, Plain(Null), {});
        NullFits(ok);
        AgreesDelete(old(entries), old(trees), ideal, clock, key, trees[key]);
        ideal := ideal - {key};
      }
    }

    /** cacheCleanupExpiredLocked: the entries left are those alive now. */
    method CleanupExpired(now: int)
      requires Valid() && clock <= now
      modifies this
      ensures Valid() && clock == now && gets == old(gets) && ideal == old(ideal) && home == old(home)
      ensures entries.Keys == LiveKeys(ideal, now)
      ensures |entries| + stats.expires == |old(entries)| + old(stats.expires)
      ensures stats == old(stats).(expires := stats.expires)
    {
      hide Stored, Agrees, LiveKeys;
      AgreesLater(entries, trees, ideal, clock, now);
      clock := now;
      var left := entries.Keys;
      while left != {}
        invariant Stored(values, trees, home) && Agrees(entries, trees, ideal, now)
        invariant left <= entries.Keys
        invariant forall k | k in entries && k !in left :: !Expired(entries[k], now)
        invariant |entries| + stats.expires == |old(entries)| + old(stats.expires)
        invariant stats == old(stats).(expires := stats.expires)
        modifies `entries, `stats
        decreases left
      {
        var k :| k in left;
        left := left - {k};
        if Expired(entries[k], now) {
          AgreesExpire(entries, trees, ideal, now, k);
          OneFewer(entries, k);
          entries := entries - {k};
          stats := stats.(expires := stats.expires + 1);
        }
      }
      AllAlive(entries, trees, ideal, now);
    }

    /** cache_keys: the keys alive now, in order. */
    method Keys(now: int) returns (keys: seq<string>)
      requires Valid() && clock <= now
      modifies this
      ensures Valid() && clock == now && ideal == old(ideal) && home == old(home) && gets == old(gets)
      ensures keys == InOrder(LiveKeys(ideal, now)) && stats == old(stats).(expires := stats.expires)
    {
      hide Stored, Agrees, LiveKeys;
      CleanupExpired(now);
      keys := SortedMembers(entries.Keys);
    }

    /** cache_stats: how many keys are alive now, beside the counters. */
    method Statistics(now: int) returns (items: nat, s: Stats)
      requires Valid() && clock <= now
      modifies this
      ensures Valid() && clock == now && ideal == old(ideal) && home == old(home) && gets == old(gets)
      ensures items == |LiveKeys(ideal, now)| && s == stats && s.hits + s.misses == gets
      ensures stats == old(stats).(expires := stats.expires)
    {
      hide Stored, Agrees, LiveKeys;
      CleanupExpired(now);
      assert |entries| == |entries.Keys|;
      return |entries|, stats;
    }

    method Clear() returns (removed: nat)
      requires Valid()
      modifies this
      ensures Valid() && ideal == map[] && gets == old(gets) && removed == |old(entries)|
      ensures stats == old(stats).(clears := old(stats).clears + 1)
    {
      removed := |entries|;
      entries, values, stats := map[], map[], stats.(clears := stats.clears + 1);
      trees, home, ideal := map[], {}, map[];
      ClosedNone();
    }
  }

  lemma {:induction false} EntryHeld(entries: Entries, trees: map<string, Tree>, ideal: Ideal, clock: int, key: string)
    requires Agrees(entries, trees, ideal, clock) && key in entries
    ensures key in ideal
  {
  }

  lemma {:induction false} NullFits(ok: bool)
    requires !ok ==> Unfit(Plain(Null), {}, DEPTH)
    ensures ok
  {
    assert Says(Plain(Null), PlainTree(Null), {}) && Fits(PlainTree(Null), DEPTH);
  }

  /** A copy of what has already been copied in says the same, and is made. */
  lemma {:induction false} GetSays(v: Value, said: Tree, home: set<Obj>, ok: bool, copy: Value, t: Tree, own: set<Obj>)
    requires Says(v, said, home) && Fits(said, DEPTH)
    requires ok ==> Copied(v, copy, t, home, own, DEPTH)
    requires !ok ==> Unfit(v, home, DEPTH)
    ensures ok && t == said && Says(copy, said, own)
  {
    if ok {
      SaysOnce(v, said, t, home);
    }
  }

  /** What is done to a value after it was put, or to one a get handed out, a
      later get does not see: here every object of either is overwritten with
      anything at all, and the second get still says what was put. */
  method Isolated(store: Store, key: string, v: Value, now: int, later: int, last: int, ghost t: Tree, world: set<Obj>)
    returns (second: Value, ghost own: set<Obj>)
    requires store.Valid() && store.clock <= now <= later <= last
    requires Closed(world) && In(v, world) && world !! store.home
    requires Says(v, t, world) && Fits(t, DEPTH)
    modifies store, world
    ensures Says(second, t, own) && fresh(own)
  {
    hide Closed, Fits, Says, Unfit, Stored, Agrees;
    var ok := store.Put(key, v, 0, now, world);
    PutSays(v, t, world, store.ideal, key, ok);
    modify world;
    var found, first; ghost var mine;
    found, first, mine := store.Get(key, later);
    modify mine;
    found, second, own := store.Get(key, last);
  }

  lemma {:induction false} PutSays(v: Value, t: Tree, world: set<Obj>, ideal: Ideal, key: string, ok: bool)
    requires Says(v, t, world) && Fits(t, DEPTH)
    requires ok ==> exists u :: Says(v, u, world) && key in ideal && ideal[key] == (u, None)
    requires !ok ==> Unfit(v, world, DEPTH)
    ensures ok && key in ideal && ideal[key] == (t, None)
  {
    if ok {
      var u :| Says(v, u, world) && key in ideal && ideal[key] == (u, None);
      SaysOnce(v, t, u, world);
    }
  }
}
