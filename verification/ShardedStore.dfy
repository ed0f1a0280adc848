/**
 * `ShardedStore` of src/store.rs: shard maps, the memory counter and one queue object per shard,
 * changed in place. Every method is proved against the operation of the same meaning in `Store`.
 */
module Sharded {
  import opened Basics
  import opened S3Fifo
  import opened Sums
  import opened Store
  import opened Accounting

  type Shards = seq<map<Bytes, Entry>>

  /** Every key is stored in the shard its hash selects. */
  ghost predicate Partitioned(cfg: Config, shards: Shards) {
    && |shards| == cfg.numShards
    && forall i, k :: 0 <= i < |shards| && k in shards[i] ==> ShardOf(cfg, k) == i
  }

  ghost function AllKeys(shards: Shards): set<Bytes> {
    set i, k | 0 <= i < |shards| && k in shards[i] :: k
  }

  /** The shard maps as one map. */
  ghost function Merged(cfg: Config, shards: Shards): map<Bytes, Entry>
    requires |shards| == cfg.numShards
  {
    map k | k in AllKeys(shards) && k in shards[ShardOf(cfg, k)] :: shards[ShardOf(cfg, k)][k]
  }

  lemma {:induction false} MergedAt(cfg: Config, shards: Shards, k: Bytes)
    requires |shards| == cfg.numShards
    ensures k in Merged(cfg, shards) <==> k in shards[ShardOf(cfg, k)]
    ensures k in Merged(cfg, shards) ==> Merged(cfg, shards)[k] == shards[ShardOf(cfg, k)][k]
  {
  }

  /** The shards hold exactly what this map holds for a key. */
  ghost predicate AgreeAt(cfg: Config, shards: Shards, m: map<Bytes, Entry>, k: Bytes)
    requires |shards| == cfg.numShards
  {
    var shard := shards[ShardOf(cfg, k)];
    (k in m <==> k in shard) && (k in m ==> m[k] == shard[k])
  }

  lemma {:induction false} SameMerged(cfg: Config, shards: Shards, m: map<Bytes, Entry>)
    requires |shards| == cfg.numShards
    requires forall k :: AgreeAt(cfg, shards, m, k)
    ensures Merged(cfg, shards) == m
  {
    forall k ensures k in Merged(cfg, shards) <==> k in m {
      assert AgreeAt(cfg, shards, m, k);
    }
    forall k | k in m ensures Merged(cfg, shards)[k] == m[k] {
      assert AgreeAt(cfg, shards, m, k);
    }
  }

  lemma {:induction false} MergedPut(cfg: Config, shards: Shards, k: Bytes, e: Entry)
    requires Partitioned(cfg, shards)
    ensures var i := ShardOf(cfg, k);
            && Partitioned(cfg, shards[i := shards[i][k := e]])
            && Merged(cfg, shards[i := shards[i][k := e]]) == Merged(cfg, shards)[k := e]
  {
    var i := ShardOf(cfg, k);
    var after := shards[i := shards[i][k := e]];
    assert Partitioned(cfg, after);
    SameMerged(cfg, after, Merged(cfg, shards)[k := e]) by {
      hide Merged;
      var merged := Merged(cfg, shards)[k := e];
      forall j ensures AgreeAt(cfg, after, merged, j) {
        MergedAt(cfg, shards, j);
      }
    }
  }

  lemma {:induction false} MergedTake(cfg: Config, shards: Shards, k: Bytes)
    requires Partitioned(cfg, shards)
    ensures var i := ShardOf(cfg, k);
            && Partitioned(cfg, shards[i := shards[i] - {k}])
            && Merged(cfg, shards[i := shards[i] - {k}]) == Merged(cfg, shards) - {k}
  {
    var i := ShardOf(cfg, k);
    var after := shards[i := shards[i] - {k}];
    assert Partitioned(cfg, after);
    SameMerged(cfg, after, Merged(cfg, shards) - {k}) by {
      hide Merged;
      forall j ensures AgreeAt(cfg, after, Merged(cfg, shards) - {k}, j) {
        MergedAt(cfg, shards, j);
      }
    }
  }

  lemma {:induction false} MergedDrop(cfg: Config, shards: Shards, i: nat)
    requires Partitioned(cfg, shards) && i < |shards|
    ensures Partitioned(cfg, shards[i := map[]])
    ensures Merged(cfg, shards[i := map[]]) == Merged(cfg, shards) - shards[i].Keys
    ensures shards[i].Keys <= Merged(cfg, shards).Keys
  {
    var after := shards[i := map[]];
    assert Partitioned(cfg, after);
    forall k | k in shards[i] ensures k in Merged(cfg, shards) {
      MergedAt(cfg, shards, k);
    }
    SameMerged(cfg, after, Merged(cfg, shards) - shards[i].Keys) by {
      hide Merged;
      forall k ensures AgreeAt(cfg, after, Merged(cfg, shards) - shards[i].Keys, k) {
        MergedAt(cfg, shards, k);
      }
    }
  }

  lemma {:induction false} MergedNothing(cfg: Config, shards: Shards)
    requires |shards| == cfg.numShards && forall i :: 0 <= i < |shards| ==> shards[i] == map[]
    ensures Merged(cfg, shards) == map[]
  {
  }

  lemma {:induction false} SizeOfRest<K, V>(m: map<K, V>, part: set<K>)
    requires part <= m.Keys
    ensures |m - part| + |part| == |m|
  {
    assert (m - part).Keys == m.Keys - part;
    assert |(m - part).Keys| == |m.Keys| - |part|;
  }

  lemma {:induction false} LiveWithout(m: map<Bytes, Entry>, k: Bytes, now: nat)
    ensures LiveEntries(m - {k}, now) == LiveEntries(m, now) - {k}
  {
  }

  /** The shards with the first `i` emptied. */
  ghost function Blanked(shards: Shards, i: nat): (r: Shards)
    ensures |r| == |shards|
  {
    seq(|shards|, j requires 0 <= j < |shards| => if j < i then map[] else shards[j])
  }

  /** The entries a loop over the shards has yet to visit. */
  ghost function Ahead(cfg: Config, shards: Shards, i: nat): map<Bytes, Entry>
    requires |shards| == cfg.numShards
  {
    Merged(cfg, Blanked(shards, i))
  }

  lemma {:induction false} AllAhead(cfg: Config, shards: Shards)
    requires |shards| == cfg.numShards
    ensures Ahead(cfg, shards, 0) == Merged(cfg, shards) && Ahead(cfg, shards, |shards|) == map[]
  {
    assert Blanked(shards, 0) == shards;
    MergedNothing(cfg, Blanked(shards, |shards|));
  }

  lemma {:induction false} OneAhead(cfg: Config, shards: Shards, i: nat)
    requires Partitioned(cfg, shards) && i < |shards|
    ensures Ahead(cfg, shards, i + 1) == Ahead(cfg, shards, i) - shards[i].Keys
    ensures forall k :: k in shards[i] ==> k in Ahead(cfg, shards, i) && Ahead(cfg, shards, i)[k] == shards[i][k]
  {
    var here := Blanked(shards, i);
    assert Blanked(shards, i + 1) == here[i := map[]] && here[i] == shards[i];
    assert Partitioned(cfg, here);
    MergedDrop(cfg, here, i);
    forall k | k in shards[i] ensures k in Merged(cfg, here) && Merged(cfg, here)[k] == shards[i][k] {
      MergedAt(cfg, here, k);
    }
  }

  lemma {:induction false} LiveAhead(m: map<Bytes, Entry>, part: map<Bytes, Entry>, now: nat)
    requires forall k :: k in part ==> k in m && m[k] == part[k]
    ensures LiveEntries(m - part.Keys, now) == LiveEntries(m, now) - LiveEntries(part, now).Keys
    ensures forall k :: k in LiveEntries(part, now) ==> k in LiveEntries(m, now) && LiveEntries(m, now)[k] == part[k]
  {
  }

  /** The keys gathered so far and those still to visit make up the whole. */
  ghost predicate Split(keys: seq<Bytes>, left: map<Bytes, Entry>, all: map<Bytes, Entry>) {
    && Elements(keys) + left.Keys == all.Keys
    && Elements(keys) !! left.Keys
  }

  lemma {:induction false} SplitJoin(keys: seq<Bytes>, found: seq<Bytes>, left: map<Bytes, Entry>, left': map<Bytes, Entry>, all: map<Bytes, Entry>)
    requires Split(keys, left, all) && Distinct(keys) && Distinct(found)
    requires Elements(found) <= left.Keys && left'.Keys == left.Keys - Elements(found)
    ensures Split(keys + found, left', all) && Distinct(keys + found)
  {
    assert Elements(keys + found) == Elements(keys) + Elements(found);
    forall x, y | 0 <= x < |keys| && 0 <= y < |found| ensures keys[x] != found[y] {
      assert keys[x] in Elements(keys) && found[y] in Elements(found);
    }
  }

  lemma {:induction false} SplitStep(keys: seq<Bytes>, left: map<Bytes, Entry>, all: map<Bytes, Entry>, k: Bytes)
    requires Split(keys, left, all) && Distinct(keys)
    ensures k in left ==> Split(keys + [k], left - {k}, all) && Distinct(keys + [k])
    ensures k !in left ==> Split(keys, left - {k}, all)
  {
    if k in left {
      assert k !in Elements(keys);
      assert Elements(keys + [k]) == Elements(keys) + {k};
    } else {
      assert left - {k} == left;
    }
  }

  /** One shard's part of `keys`. */
  method LiveOfShard(shard: map<Bytes, Entry>, now: nat) returns (keys: seq<Bytes>)
    ensures Distinct(keys) && Elements(keys) == LiveEntries(shard, now).Keys
  {
    keys := [];
    var rest := shard;
    while rest.Keys != {}
      invariant rest.Keys <= shard.Keys
      invariant Distinct(keys) && Split(keys, LiveEntries(rest, now), LiveEntries(shard, now))
      decreases |rest|
    {
      var k :| k in rest.Keys;
      LiveWithout(rest, k, now);
      SplitStep(keys, LiveEntries(rest, now), LiveEntries(shard, now), k);
      if !Expired(rest[k].expiry, now) {
        keys := keys + [k];
      }
      rest := rest - {k};
    }
    assert LiveEntries(rest, now).Keys == {};
  }

  /** One shard's part of the flush accounting. */
  method BytesOfShard(shard: map<Bytes, Entry>, now: nat) returns (total: nat)
    ensures total == Total(LiveEntries(shard, now))
  {
    total := 0;
    var rest := shard;
    while rest.Keys != {}
      invariant total + Total(LiveEntries(rest, now)) == Total(LiveEntries(shard, now))
      decreases |rest|
    {
      var k :| k in rest.Keys;
      LiveWithout(rest, k, now);
      if !Expired(rest[k].expiry, now) {
        SumRemove(LiveEntries(rest, now), EntrySize, k);
        var size := CalculateEntrySize(k, rest[k].value);
        total := total + size;
      } else {
        assert LiveEntries(rest, now) - {k} == LiveEntries(rest, now);
      }
      rest := rest - {k};
    }
    assert LiveEntries(rest, now).Keys == {};
  }

  /** The loop of `calculate_entry_size` over the fields of a hash. */
  method FieldsSize(fields: map<Bytes, Bytes>) returns (size: nat)
    ensures size == FieldBytes(fields)
  {
    size := 0;
    var rest := fields;
    while rest.Keys != {}
      invariant size + FieldBytes(rest) == FieldBytes(fields)
      decreases |rest|
    {
      var field :| field in rest.Keys;
      SumRemove(rest, PairSize, field);
      size := size + |field| + |rest[field]|;
      rest := rest - {field};
    }
  }

  /** `calculate_entry_size`. */
  method CalculateEntrySize(key: Bytes, value: Value) returns (size: nat)
    ensures size == Size(key, value)
  {
    match value {
      case Str(bytes) => size := |key| + |bytes| + 64;
      case Hash(fields) =>
        var n := FieldsSize(fields);
        size := |key| + 64 + 128 + n;
    }
  }

  const NO_DRAW: Pick := Pick(None, [])

  lemma {:induction false} NothingDrawn(cfg: Config, db: Db)
    ensures EvictOne(cfg, db, NO_DRAW) == (db, 0)
  {
  }

  lemma {:induction false} UntrackFrame(cfg: Config, db: Db, k: Bytes)
    ensures Untrack(cfg, db, k).entries == db.entries && Untrack(cfg, db, k).used == db.used
  {
  }

  lemma {:induction false} EmptyIsLeast(k: Bytes, value: Value)
    requires value.Hash?
    ensures Size(k, Hash(map[])) <= Size(k, value)
  {
    assert FieldBytes(map[]) == 0;
  }

  class ShardedStore {
    const cfg: Config
    const queues: seq<S3FifoQueues>
    var shards: Shards
    var used: nat

    /** Keys are where their hash puts them, and every shard has its own queues. */
    ghost predicate Shaped()
      reads this
    {
      && Partitioned(cfg, shards)
      && |queues| == cfg.numShards
      && (forall i :: 0 <= i < |queues| ==> queues[i].caps == cfg.caps)
      && (forall i, j :: 0 <= i < j < |queues| ==> queues[i] != queues[j])
    }

    /** Under a limit, moreover, the counter covers all that is stored: no refund can underflow it. */
    ghost predicate Valid()
      reads this
    {
      Shaped() && (cfg.maxMemory > 0 ==> Total(Entries()) <= used)
    }

    ghost function Entries(): map<Bytes, Entry>
      requires Shaped()
      reads this
    {
      Merged(cfg, shards)
    }

    ghost function QueueViews(): (views: seq<Queues>)
      reads queues
      ensures |views| == |queues|
    {
      seq(|queues|, i requires 0 <= i < |queues| reads queues => queues[i].View())
    }

    ghost function View(): Db
      requires Shaped()
      reads this, queues
    {
      Db(Entries(), used, QueueViews())
    }

    constructor (cfg: Config)
      ensures Valid() && this.cfg == cfg && View() == Fresh(cfg) && fresh(queues)
    {
      var qs: seq<S3FifoQueues> := [];
      while |qs| < cfg.numShards
        invariant |qs| <= cfg.numShards && fresh(qs)
        invariant forall i :: 0 <= i < |qs| ==> qs[i].caps == cfg.caps && qs[i].View() == EMPTY
        invariant forall i, j :: 0 <= i < j < |qs| ==> qs[i] != qs[j]
      {
        var q := new S3FifoQueues(cfg.caps);
        qs := qs + [q];
      }
      this.cfg, queues, used := cfg, qs, 0;
      shards := seq(cfg.numShards, _ => map[]);
    }

    // -------------------------------------------------------------- shard access

    /** `shard.get`. */
    function Lookup(k: Bytes): (e: Option<Entry>)
      requires Shaped()
      reads this
      ensures e == if k in Entries() then Some(Entries()[k]) else None
    {
      MergedAt(cfg, shards, k);
      var shard := shards[ShardOf(cfg, k)];
      if k in shard then Some(shard[k]) else None
    }

    /** `shard.insert`. */
    method Put(k: Bytes, e: Entry)
      requires Shaped()
      modifies this`shards
      ensures Shaped() && Entries() == old(Entries())[k := e]
    {
      MergedPut(cfg, shards, k, e);
      var i := ShardOf(cfg, k);
      shards := shards[i := shards[i][k := e]];
    }

    /** `shard.remove`. */
    method Take(k: Bytes)
      requires Shaped()
      modifies this`shards
      ensures Shaped() && Entries() == old(Entries()) - {k}
    {
      MergedTake(cfg, shards, k);
      var i := ShardOf(cfg, k);
      shards := shards[i := shards[i] - {k}];
    }

    /** The counter moves only under a memory limit. */
    method Add(size: nat)
      modifies this`used
      ensures used == Charge(cfg, old(used), size)
    {
      if cfg.maxMemory > 0 {
        used := used + size;
      }
    }

    /** A subtraction, which must not take the counter below zero. */
    method Refund(size: nat)
      requires cfg.maxMemory > 0 ==> size <= used
      modifies this`used
      ensures used == Charge(cfg, old(used), 0 - size)
    {
      if cfg.maxMemory > 0 {
        used := used - size;
      }
    }

    /** What is stored can be refunded. */
    lemma {:induction false} Refundable(k: Bytes)
      requires Valid() && k in Entries()
      ensures cfg.maxMemory > 0 ==> EntrySize(k, Entries()[k]) <= used
    {
      SizeWithinTotal(Entries(), k);
    }

    // -------------------------------------------------------------- queue bookkeeping

    method UntrackKey(k: Bytes)
      requires Shaped()
      modifies queues
      ensures View() == Untrack(cfg, old(View()), k)
    {
      var i, e := ShardOf(cfg, k), Lookup(k);
      if cfg.policy == AllKeysS3Fifo && e.Some? {
        queues[i].DropTagged(k, e.value.tag);
        assert QueueViews() == old(QueueViews())[i := queues[i].View()];
      } else {
        assert QueueViews() == old(QueueViews());
      }
    }

    method TrackKey(k: Bytes) returns (tag: QueueType)
      requires Shaped()
      modifies queues
      ensures (View(), tag) == Track(cfg, old(View()), k)
    {
      var i := ShardOf(cfg, k);
      if cfg.policy == AllKeysS3Fifo {
        tag := queues[i].PlaceKey(k, cfg.hash(k));
        assert QueueViews() == old(QueueViews())[i := queues[i].View()];
      } else {
        tag := Small;
        assert QueueViews() == old(QueueViews());
      }
    }

    /** What every successful read does to the queues and to the entry. */
    method AccessKey(k: Bytes, e: Entry)
      requires Valid() && Lookup(k) == Some(e)
      modifies this`shards, queues
      ensures Valid() && View() == Access(cfg, old(View()), k)
    {
      hide Merged, Partitioned, Total, Touch;
      var i := ShardOf(cfg, k);
      if cfg.policy == AllKeysS3Fifo {
        var tag, hits := queues[i].TouchKey(k, e.tag, e.hits);
        assert QueueViews() == old(QueueViews())[i := queues[i].View()];
        Put(k, e.(tag := tag, hits := hits));
      }
      AccessKeeps(cfg, old(View()), k);
    }

    /** EXPIRE and PERSIST give a stored entry another expiry time. */
    method SetExpiryOf(k: Bytes, e: Entry, expiry: Option<nat>)
      requires Valid() && Lookup(k) == Some(e)
      modifies this`shards
      ensures Valid() && View() == SetExpiry(old(View()), k, expiry)
    {
      SetExpiryKeeps(View(), k, expiry);
      Put(k, e.(expiry := expiry));
    }

    // -------------------------------------------------------------- removal

    /** Take an entry out of its shard and give its size back to the counter. */
    method ReleaseKey(k: Bytes, e: Entry)
      requires Valid() && Lookup(k) == Some(e)
      modifies this`shards, this`used
      ensures Valid() && View() == Release(cfg, old(View()), k)
    {
      hide Merged, Partitioned, FieldBytes, Total;
      Refundable(k);
      TotalDrop(Entries(), k);
      Take(k);
      var size := CalculateEntrySize(k, e.value);
      Refund(size);
    }

    /** `remove_if` on the expiry, with its refund. */
    method ReapKey(k: Bytes, now: nat) returns (reaped: bool)
      requires Valid()
      modifies this`shards, this`used
      ensures Valid() && View() == Reap(cfg, old(View()), k, now)
      ensures reaped == (k in old(Entries()) && Expired(old(Entries())[k].expiry, now))
    {
      hide Merged, Partitioned, Release, Total;
      var e := Lookup(k);
      reaped := e.Some? && Expired(e.value.expiry, now);
      if reaped {
        ReleaseKey(k, e.value);
      }
    }

    /** The loop body of `delete`. */
    method DeleteKey(k: Bytes)
      requires Valid()
      modifies this, queues
      ensures Valid() && View() == Delete(cfg, old(View()), k)
    {
      hide Merged, Partitioned, Untrack, Total;
      UntrackFrame(cfg, View(), k);
      var e := Lookup(k);
      UntrackKey(k);
      if e.Some? {
        ReleaseKey(k, e.value);
      }
    }

    /** `delete`. */
    method DeleteKeys(keys: seq<Bytes>, now: nat) returns (count: nat)
      requires Valid()
      modifies this, queues
      ensures Valid() && (View(), count) == DeleteAll(cfg, old(View()), keys, now)
    {
      hide Delete, Merged, Partitioned;
      count := 0;
      for i := 0 to |keys|
        invariant Valid()
        invariant DeleteAll(cfg, old(View()), keys, now)
                  == (DeleteAll(cfg, View(), keys[i..], now).0, count + DeleteAll(cfg, View(), keys[i..], now).1)
      {
        assert keys[i..][0] == keys[i] && keys[i..][1..] == keys[i + 1..];
        var e := Lookup(keys[i]);
        DeleteKey(keys[i]);
        if e.Some? && !Expired(e.value.expiry, now) {
          count := count + 1;
        }
      }
    }

    /** `expire_random_keys`, given the keys it happens to sample; it reports how many entries went. */
    method ExpireSampled(sample: seq<Bytes>, now: nat) returns (count: nat)
      requires Valid()
      modifies this`shards, this`used
      ensures Valid() && View() == ReapAll(cfg, old(View()), sample, now)
      ensures count == |old(Entries())| - |Entries()|
    {
      hide Merged, Partitioned;
      count := 0;
      for i := 0 to |sample|
        invariant Valid() && count + |Entries()| == |old(Entries())|
        invariant ReapAll(cfg, old(View()), sample, now) == ReapAll(cfg, View(), sample[i..], now)
      {
        assert sample[i..][0] == sample[i] && sample[i..][1..] == sample[i + 1..];
        if sample[i] in Entries() {
          SizeOfRest(Entries(), {sample[i]});
        }
        var reaped := ReapKey(sample[i], now);
        if reaped {
          count := count + 1;
        }
      }
    }

    /** `exists`. */
    method CountExisting(keys: seq<Bytes>, now: nat) returns (count: nat)
      requires Valid()
      ensures count == CountLive(View(), keys, now)
    {
      count := 0;
      for i := 0 to |keys|
        invariant CountLive(View(), keys, now) == count + CountLive(View(), keys[i..], now)
      {
        assert keys[i..][0] == keys[i] && keys[i..][1..] == keys[i + 1..];
        var e := Lookup(keys[i]);
        if e.Some? && !Expired(e.value.expiry, now) {
          count := count + 1;
        }
      }
    }

    /** `len`. */
    method Len() returns (n: nat)
      requires Valid()
      ensures n == |Entries()|
    {
      hide Merged, Ahead, Total;
      n := 0;
      AllAhead(cfg, shards);
      for i := 0 to |shards|
        invariant n + |Ahead(cfg, shards, i)| == |Entries()|
      {
        OneAhead(cfg, shards, i);
        SizeOfRest(Ahead(cfg, shards, i), shards[i].Keys);
        n := n + |shards[i]|;
      }
    }

    /** `keys`: the unexpired keys, each once, in no particular order. */
    method LiveKeys(now: nat) returns (keys: seq<Bytes>)
      requires Valid()
      ensures Distinct(keys) && Elements(keys) == LiveEntries(Entries(), now).Keys
    {
      hide Merged;
      keys := [];
      AllAhead(cfg, shards);
      for i := 0 to |shards|
        invariant Distinct(keys) && Split(keys, LiveEntries(Ahead(cfg, shards, i), now), LiveEntries(Entries(), now))
      {
        OneAhead(cfg, shards, i);
        LiveAhead(Ahead(cfg, shards, i), shards[i], now);
        var found := LiveOfShard(shards[i], now);
        SplitJoin(keys, found, LiveEntries(Ahead(cfg, shards, i), now), LiveEntries(Ahead(cfg, shards, i + 1), now),
                  LiveEntries(Entries(), now));
        keys := keys + found;
      }
    }

    // -------------------------------------------------------------- flush

    /** The accounting loop of FLUSHDB and FLUSHALL: the sizes of the unexpired entries. */
    method LiveBytes(now: nat) returns (total: nat)
      requires Valid()
      ensures total == Total(LiveEntries(Entries(), now))
    {
      hide Merged;
      total := 0;
      AllAhead(cfg, shards);
      for i := 0 to |shards|
        invariant total + Total(LiveEntries(Ahead(cfg, shards, i), now)) == Total(LiveEntries(Entries(), now))
      {
        OneAhead(cfg, shards, i);
        LiveAhead(Ahead(cfg, shards, i), shards[i], now);
        SumSplit(LiveEntries(Ahead(cfg, shards, i), now), LiveEntries(shards[i], now), EntrySize);
        var n := BytesOfShard(shards[i], now);
        total := total + n;
      }
    }

    /** FLUSHDB and FLUSHALL. */
    method FlushStore(now: nat)
      requires Valid()
      modifies this`shards, this`used
      ensures Valid() && View() == Flush(old(View()), now)
    {
      var total := LiveBytes(now);
      shards := seq(|shards|, _ => map[]);
      MergedNothing(cfg, shards);
      used := if total >= used then 0 else used - total;
      if cfg.maxMemory > 0 {
        FlushLeaks(old(View()), now);
      }
    }

    // -------------------------------------------------------------- strings

    /** `set`: returns the size of what it replaced. */
    method SetKey(k: Bytes, v: Bytes, ttl: Option<nat>, now: nat) returns (prev: Option<nat>)
      requires Shaped()
      modifies this`shards, queues
      ensures Shaped() && View() == Set(cfg, old(View()), k, v, ttl, now)
      ensures prev == if k in old(Entries()) then Some(EntrySize(k, old(Entries())[k])) else None
    {
      var e := Lookup(k);
      UntrackKey(k);
      var tag := TrackKey(k);
      Put(k, Entry(Str(v), ExpiryAfter(ttl, now), tag, 0));
      if e.Some? {
        var size := CalculateEntrySize(k, e.value.value);
        prev := Some(size);
      } else {
        prev := None;
      }
    }

    /** The store-and-account sequence SET, INCR and MSET end with. */
    method SetAndAccount(k: Bytes, v: Bytes, ttl: Option<nat>, now: nat)
      requires Valid()
      modifies this, queues
      ensures Valid() && View() == SetAndCharge(cfg, old(View()), k, v, ttl, now)
    {
      hide Merged, Partitioned, Set, Total;
      if k in Entries() {
        Refundable(k);
      }
      if cfg.maxMemory > 0 {
        SetKeeps(cfg, View(), k, v, ttl, now);
      }
      var prev := SetKey(k, v, ttl, now);
      if prev.Some? {
        Refund(prev.value);
      }
      Add(|k| + |v| + 64);
    }

    /** `get`. */
    method GetKey(k: Bytes, now: nat) returns (v: Option<Bytes>)
      requires Valid()
      modifies this, queues
      ensures Valid() && (View(), v) == Get(cfg, old(View()), k, now)
    {
      var e := Lookup(k);
      if e.None? || Expired(e.value.expiry, now) {
        var _ := ReapKey(k, now);
        return None;
      }
      AccessKey(k, e.value);
      if e.value.value.Str? {
        return Some(e.value.value.bytes);
      }
      return None;
    }

    // -------------------------------------------------------------- hashes

    /** The insertion loop of `hset`. */
    static method InsertFields(fields: map<Bytes, Bytes>, pairs: Pairs) returns (m: map<Bytes, Bytes>, added: nat)
      ensures (m, added) == PutAll(fields, pairs)
    {
      m, added := fields, 0;
      for i := 0 to |pairs|
        invariant PutAll(fields, pairs) == (PutAll(m, pairs[i..]).0, added + PutAll(m, pairs[i..]).1)
      {
        assert pairs[i..][0] == pairs[i] && pairs[i..][1..] == pairs[i + 1..];
        if pairs[i].0 !in m {
          added := added + 1;
        }
        m := m[pairs[i].0 := pairs[i].1];
      }
    }

    /** The removal loop of `hdel`. */
    static method RemoveFields(fields: map<Bytes, Bytes>, names: seq<Bytes>) returns (m: map<Bytes, Bytes>, removed: nat)
      ensures (m, removed) == TakeAll(fields, names)
    {
      m, removed := fields, 0;
      for i := 0 to |names|
        invariant TakeAll(fields, names) == (TakeAll(m, names[i..]).0, removed + TakeAll(m, names[i..]).1)
      {
        assert names[i..][0] == names[i] && names[i..][1..] == names[i + 1..];
        if names[i] in m {
          removed := removed + 1;
        }
        m := m - {names[i]};
      }
    }

    /** `hset`; no result stands for the wrong type. */
    method HSetKey(k: Bytes, pairs: Pairs, now: nat) returns (added: Option<nat>)
      requires Valid()
      modifies this, queues
      ensures Valid() && (View(), added) == HSet(cfg, old(View()), k, pairs, now)
    {
      hide Merged, Partitioned, PutAll, FieldBytes, Track, Untrack, Total;
      var stale := Lookup(k);
      if stale.Some? && Expired(stale.value.expiry, now) {
        DeleteKey(k);
      }
      var e := Lookup(k);
      if e.Some? {
        if e.value.value.Str? {
          return None;
        }
        var m, n := InsertFields(e.value.value.fields, pairs);
        ResizeHash(k, e.value, m);
        return Some(n);
      } else {
        var tag := TrackKey(k);
        var m, n := InsertFields(map[], pairs);
        TotalPut(Entries(), k, Entry(Hash(m), None, tag, 0));
        Put(k, Entry(Hash(m), None, tag, 0));
        var size := CalculateEntrySize(k, Hash(m));
        Add(size);
        return Some(n);
      }
    }

    /** The accounting of a hash whose fields have changed: one addition or one subtraction. */
    method ResizeHash(k: Bytes, e: Entry, m: map<Bytes, Bytes>)
      requires Valid() && Lookup(k) == Some(e)
      modifies this`shards, this`used
      ensures Valid() && Entries() == old(Entries())[k := e.(value := Hash(m))]
      ensures used == Charge(cfg, old(used), Size(k, Hash(m)) - Size(k, e.value))
    {
      hide Merged, Partitioned, FieldBytes;
      Refundable(k);
      TotalPut(Entries(), k, e.(value := Hash(m)));
      var prevSize := CalculateEntrySize(k, e.value);
      Put(k, e.(value := Hash(m)));
      var size := CalculateEntrySize(k, Hash(m));
      if size >= prevSize {
        Add(size - prevSize);
      } else {
        Refund(prevSize - size);
      }
    }

    /** The access path `hget` and `hgetall` share. */
    method ReadHashKey(k: Bytes, now: nat) returns (fields: Option<map<Bytes, Bytes>>)
      requires Valid()
      modifies this, queues
      ensures Valid() && (View(), fields) == ReadHash(cfg, old(View()), k, now)
    {
      var e := Lookup(k);
      if e.None? || Expired(e.value.expiry, now) {
        var _ := ReapKey(k, now);
        return Some(map[]);
      }
      AccessKey(k, e.value);
      if e.value.value.Hash? {
        return Some(e.value.value.fields);
      }
      return None;
    }

    /** `hdel`; no result stands for the wrong type. */
    method HDelKey(k: Bytes, names: seq<Bytes>, now: nat) returns (removed: Option<nat>)
      requires Valid()
      modifies this`shards, this`used
      ensures Valid() && (View(), removed) == HDel(cfg, old(View()), k, names, now)
    {
      hide Merged, Partitioned, TakeAll, FieldBytes;
      var e := Lookup(k);
      if e.None? || Expired(e.value.expiry, now) {
        var _ := ReapKey(k, now);
        return Some(0);
      }
      if e.value.value.Str? {
        return None;
      }
      var m, n := RemoveFields(e.value.value.fields, names);
      if n > 0 {
        if m == map[] {
          var size := CalculateEntrySize(k, Hash(m));
          Refundable(k);
          TotalDrop(Entries(), k);
          EmptyIsLeast(k, e.value.value);
          Take(k);
          Refund(size);
        } else {
          ResizeHash(k, e.value, m);
        }
      }
      return Some(n);
    }

    // -------------------------------------------------------------- eviction

    /** Remove a victim and give back its size. */
    method ExpelKey(k: Bytes) returns (size: nat)
      requires Valid() && cfg.maxMemory > 0 && k in Entries()
      modifies this`shards, this`used
      ensures Valid() && (View(), size) == Expel(old(View()), k)
    {
      hide Merged, Partitioned, FieldBytes, Total;
      var e := Lookup(k);
      Refundable(k);
      TotalDrop(Entries(), k);
      Take(k);
      size := CalculateEntrySize(k, e.value.value);
      used := used - size;
    }

    /** `evict_s3fifo`, given the shards its random draws visit. */
    method EvictS3Fifo(visits: seq<nat>) returns (size: nat)
      requires Valid() && cfg.maxMemory > 0
      modifies this, queues
      ensures Valid() && (View(), size) == EvictS3(cfg, old(View()), visits)
    {
      for j := 0 to |visits|
        invariant Valid() && EvictS3(cfg, old(View()), visits) == EvictS3(cfg, View(), visits[j..])
      {
        assert visits[j..][0] == visits[j] && visits[j..][1..] == visits[j + 1..];
        var i := visits[j] % cfg.numShards;
        ghost var before := View();
        var victim := queues[i].TakeVictim(cfg.hash);
        assert QueueViews() == before.queues[i := queues[i].View()];
        if victim.Some? && victim.value in shards[i] {
          MergedAt(cfg, shards, victim.value);
          size := ExpelKey(victim.value);
          return;
        }
        if victim.Some? {
          MergedAt(cfg, shards, victim.value);
        }
      }
      size := 0;
    }

    /** One eviction under the configured policy. */
    method Evict(pick: Pick) returns (size: nat)
      requires Valid() && cfg.maxMemory > 0
      modifies this, queues
      ensures Valid() && (View(), size) == EvictOne(cfg, old(View()), pick)
    {
      match cfg.policy {
        case NoEviction => size := 0;
        case AllKeysS3Fifo => size := EvictS3Fifo(pick.shards);
        case _ =>
          if pick.victim.Some? && Lookup(pick.victim.value).Some? {
            size := ExpelKey(pick.victim.value);
          } else {
            size := 0;
          }
      }
    }

    /** `evict_if_needed`. */
    method EnsureRoom(needed: nat, picks: seq<Pick>) returns (granted: bool)
      requires Valid()
      modifies this, queues
      ensures Valid() && (View(), granted) == EvictIfNeeded(cfg, old(View()), needed, picks)
    {
      hide EvictOne, Merged, Partitioned;
      if cfg.maxMemory == 0 || used + needed <= cfg.maxMemory {
        return true;
      }
      if cfg.policy == NoEviction {
        return false;
      }
      var freed: nat, attempts: nat := 0, 0;
      assert picks[0..] == picks;
      while freed < needed && attempts < MAX_ATTEMPTS
        invariant Valid() && attempts <= |picks|
        invariant EvictLoop(cfg, old(View()), needed, picks, 0, 0)
                  == EvictLoop(cfg, View(), needed, picks[attempts..], freed, attempts)
        decreases MAX_ATTEMPTS - attempts
      {
        // A draw that is not given finds nothing.
        var pick := if attempts < |picks| then picks[attempts] else NO_DRAW;
        if attempts < |picks| {
          assert picks[attempts..][0] == pick && picks[attempts..][1..] == picks[attempts + 1..];
        } else {
          assert picks[attempts..] == [];
          NothingDrawn(cfg, View());
        }
        var size := Evict(pick);
        if size == 0 {
          return used + needed <= cfg.maxMemory;
        }
        attempts := attempts + 1;
        freed := freed + size;
      }
      return used + needed <= cfg.maxMemory;
    }

    /** Ask for room only when some is needed. */
    method AdmitWrite(needed: int, picks: seq<Pick>) returns (granted: bool)
      requires Valid()
      modifies this, queues
      ensures Valid() && (View(), granted) == Admit(cfg, old(View()), needed, picks)
    {
      if needed > 0 {
        granted := EnsureRoom(needed, picks);
      } else {
        granted := true;
      }
    }
  }
}
