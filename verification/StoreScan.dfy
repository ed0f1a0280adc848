/** SCAN over the live store: what the pages of `Scan` are worth in terms of the keys that are stored. */
module StoreScan {
  import opened Basics
  import opened S3Fifo
  import opened Store
  import opened Sharded
  import opened Glob
  import Scan
  import Startup

  type Slots = Scan.Shards

  // ---------------------------------------------------------------- listings

  /** A shard in the order in which its iterator yields it, each key once. */
  ghost predicate ListsShard(slots: seq<Scan.Slot>, shard: map<Bytes, Entry>) {
    && (forall i, j :: 0 <= i < j < |slots| ==> slots[i].key != slots[j].key)
    && (forall i :: 0 <= i < |slots| ==> slots[i].key in shard && slots[i].expiry == shard[slots[i].key].expiry)
    && (forall k :: k in shard ==> exists i :: 0 <= i < |slots| && slots[i].key == k)
  }

  ghost predicate ListsShards(slots: Slots, shards: Shards) {
    |slots| == |shards| && forall s :: 0 <= s < |slots| ==> ListsShard(slots[s], shards[s])
  }

  lemma {:induction false} ListsShardSnoc(slots: seq<Scan.Slot>, m: map<Bytes, Entry>, k: Bytes, e: Entry)
    requires ListsShard(slots, m) && k !in m
    ensures ListsShard(slots + [Scan.Slot(k, e.expiry)], m[k := e])
  {
    var all, m' := slots + [Scan.Slot(k, e.expiry)], m[k := e];
    forall x | x in m' ensures exists i :: 0 <= i < |all| && all[i].key == x {
      if x == k {
        assert all[|slots|].key == x;
      } else {
        var i :| 0 <= i < |slots| && slots[i].key == x;
        assert all[i].key == x;
      }
    }
  }

  /** The iterator of one shard. */
  method SlotsOf(shard: map<Bytes, Entry>) returns (slots: seq<Scan.Slot>)
    ensures ListsShard(slots, shard) && |slots| == |shard|
  {
    slots := [];
    var rest := shard;
    assert shard - rest.Keys == map[];
    while rest.Keys != {}
      invariant rest.Keys <= shard.Keys && forall k :: k in rest ==> rest[k] == shard[k]
      invariant ListsShard(slots, shard - rest.Keys) && |slots| + |rest| == |shard|
      decreases |rest|
    {
      var k :| k in rest.Keys;
      Startup.VisitOne(shard, rest, k);
      ListsShardSnoc(slots, shard - rest.Keys, k, shard[k]);
      slots := slots + [Scan.Slot(k, rest[k].expiry)];
      rest := rest - {k};
    }
    assert shard - rest.Keys == shard;
  }

  /** `scan` over the live store. */
  method ScanStore(store: ShardedStore, cursor: nat, hint: nat, pattern: Option<Bytes>, now: nat)
    returns (next: nat, keys: seq<Bytes>, ghost slots: Slots)
    requires store.Valid() && forall s :: 0 <= s < |store.shards| ==> |store.shards[s]| <= Scan.BASE
    ensures ListsShards(slots, store.shards)
    ensures (next, keys) == Scan.PageOf(slots, cursor, Scan.Query(Scan.Clamp(hint), pattern, now))
  {
    hide Merged, Partitioned, ListsShard, Scan.PageOf;
    var listing: Slots := [];
    for s := 0 to |store.shards|
      invariant |listing| == s && forall i :: 0 <= i < s ==> ListsShard(listing[i], store.shards[i]) && |listing[i]| <= Scan.BASE
    {
      var part := SlotsOf(store.shards[s]);
      listing := listing + [part];
    }
    next, keys := Scan.ScanPage(listing, cursor, hint, pattern, now);
    slots := listing;
  }

  // ---------------------------------------------------------------- the listing as one list

  lemma {:induction false} FlatSlot(cfg: Config, slots: Slots, shards: Shards, i: nat) returns (s: nat, pos: nat)
    requires Partitioned(cfg, shards) && ListsShards(slots, shards) && i < |Scan.Flat(slots)|
    ensures s < |slots| && pos < |slots[s]| && i == Scan.Offset(slots, s) + pos && Scan.Flat(slots)[i] == slots[s][pos]
    ensures var k := slots[s][pos].key;
            s == ShardOf(cfg, k) && k in Merged(cfg, shards) && Merged(cfg, shards)[k].expiry == slots[s][pos].expiry
  {
    hide Merged;
    Scan.Located(slots, i);
    s, pos := Scan.Locate(slots, i).0, Scan.Locate(slots, i).1;
    Scan.FlatAt(slots, s, pos);
    assert ListsShard(slots[s], shards[s]);
    MergedAt(cfg, shards, slots[s][pos].key);
  }

  lemma {:induction false} FlatDistinct(cfg: Config, slots: Slots, shards: Shards)
    requires Partitioned(cfg, shards) && ListsShards(slots, shards)
    ensures Scan.DistinctKeys(Scan.Flat(slots))
  {
    hide Merged, Partitioned, Scan.Flat;
    var flat := Scan.Flat(slots);
    forall i, j | 0 <= i < j < |flat| ensures flat[i].key != flat[j].key {
      var s, pos := FlatSlot(cfg, slots, shards, i);
      var t, pos' := FlatSlot(cfg, slots, shards, j);
      assert ListsShard(slots[s], shards[s]);
    }
  }

  /** Every stored key is somewhere in the list. */
  lemma {:induction false} FlatHolds(cfg: Config, slots: Slots, shards: Shards, k: Bytes) returns (i: nat)
    requires Partitioned(cfg, shards) && ListsShards(slots, shards) && k in Merged(cfg, shards)
    ensures i < |Scan.Flat(slots)| && Scan.Flat(slots)[i] == Scan.Slot(k, Merged(cfg, shards)[k].expiry)
  {
    hide Merged, Scan.Flat;
    MergedAt(cfg, shards, k);
    var s := ShardOf(cfg, k);
    assert ListsShard(slots[s], shards[s]);
    var pos :| 0 <= pos < |slots[s]| && slots[s][pos].key == k;
    Scan.FlatAt(slots, s, pos);
    i := Scan.Offset(slots, s) + pos;
  }

  // ---------------------------------------------------------------- what an iteration is worth

  /** The keys a client asks for: those that live and match. */
  ghost function Sought(entries: map<Bytes, Entry>, q: Scan.Query): set<Bytes> {
    set k | k in LiveEntries(entries, q.now) && (q.pattern.Some? ==> Matches(k, q.pattern.value))
  }

  /** The keys at the places where pages stop. */
  ghost function SkippedKeys(slots: Slots, q: Scan.Query): set<Bytes> {
    var flat := Scan.Flat(slots);
    set i | i in Scan.SteppedOver(flat, 0, q) && 0 <= i < |flat| :: flat[i].key
  }

  lemma {:induction false} SoughtAt(entries: map<Bytes, Entry>, q: Scan.Query, k: Bytes)
    ensures k in Sought(entries, q) <==> k in entries && Scan.Hit(Scan.Slot(k, entries[k].expiry), q)
  {
    hide Matches;
  }

  lemma {:induction false} WantedIsSought(cfg: Config, slots: Slots, shards: Shards, q: Scan.Query, k: Bytes)
    requires Partitioned(cfg, shards) && ListsShards(slots, shards)
    ensures var flat := Scan.Flat(slots);
            Scan.Wanted(flat, 0, |flat|, Scan.SteppedOver(flat, 0, q), k, q)
            <==> k in Sought(Merged(cfg, shards), q) && k !in SkippedKeys(slots, q)
  {
    hide Merged, ListsShards, Scan.Flat, Scan.SteppedOver, Sought, Scan.Hit;
    var flat := Scan.Flat(slots);
    var skip := Scan.SteppedOver(flat, 0, q);
    SoughtAt(Merged(cfg, shards), q, k);
    FlatDistinct(cfg, slots, shards);
    if Scan.Wanted(flat, 0, |flat|, skip, k, q) {
      var i :| 0 <= i < |flat| && i !in skip && Scan.Hit(flat[i], q) && flat[i].key == k;
      var s, pos := FlatSlot(cfg, slots, shards, i);
      assert flat[i] == Scan.Slot(k, Merged(cfg, shards)[k].expiry);
    }
    if k in Sought(Merged(cfg, shards), q) && k !in SkippedKeys(slots, q) {
      var i := FlatHolds(cfg, slots, shards, k);
      assert i !in skip;
    }
  }

  /**
   * A full iteration over a store that does not change meanwhile returns each key once, and
   * exactly the live matching keys of the store other than those at which a page stops. Nothing
   * is missing if and only if no page stops at such a key.
   */
  lemma {:induction false} StoreIteration(store: ShardedStore, slots: Slots, q: Scan.Query)
    requires store.Valid() && ListsShards(slots, store.shards)
    requires forall s :: 0 <= s < |slots| ==> |slots[s]| <= Scan.BASE
    ensures var keys := Scan.Iterate(slots, 0, q);
            var sought := Sought(store.Entries(), q);
            && Distinct(keys)
            && Elements(keys) == sought - SkippedKeys(slots, q)
            && (Elements(keys) == sought <==> sought !! SkippedKeys(slots, q))
  {
    hide Merged, Partitioned, ListsShards, Scan.Flat, Scan.Iterate, Sought, SkippedKeys, Scan.Wanted, Scan.DistinctKeys;
    var keys := Scan.Iterate(slots, 0, q);
    FlatDistinct(store.cfg, slots, store.shards);
    assert |slots| > 0 by { OneShardAtLeast(store.cfg, slots, store.shards); }
    Scan.FullIteration(slots, q);
    forall k ensures k in keys <==> k in Sought(store.Entries(), q) && k !in SkippedKeys(slots, q) {
      WantedIsSought(store.cfg, slots, store.shards, q, k);
    }
  }

  lemma {:induction false} OneShardAtLeast(cfg: Config, slots: Slots, shards: Shards)
    requires Partitioned(cfg, shards) && ListsShards(slots, shards)
    ensures |slots| > 0
  {
  }
}
