/**
 * The S3-FIFO invariant over every command. Lazy expiry, HDEL, FLUSH and snapshot loading change
 * the store without telling the queues, so a queued key need not be stored and a stored key need
 * not be queued. What does hold is stated by `QueuesSound`.
 */
module QueueInvariant {
  import opened Basics
  import Decimal
  import opened S3Fifo
  import opened Store
  import opened Commands
  import opened Reference

  /** The hash tells the written keys apart. */
  ghost predicate CollisionFree(hash: Bytes -> U64, keys: iset<Bytes>) {
    forall a, b :: a in keys && b in keys && hash(a) == hash(b) ==> a == b
  }

  /** No two keys that can be in Small together share a hash. */
  ghost predicate Separate(cfg: Config, keys: iset<Bytes>) {
    cfg.caps.small == 1 || CollisionFree(cfg.hash, keys)
  }

  /** Nothing is ever evicted from the queues, or what is evicted leaves no key of its hash in Small. */
  ghost predicate Protected(cfg: Config, keys: iset<Bytes>) {
    !UsesQueues(cfg) || cfg.maxMemory == 0 || Separate(cfg, keys)
  }

  ghost predicate RealCaps(caps: Caps) {
    caps.small > 0 && caps.main > 0 && caps.ghosts > 0
  }

  /** One shard's queues: in step with their sets, and no Small key is remembered as evicted. */
  ghost predicate QueueOk(cfg: Config, q: Queues, keys: iset<Bytes>) {
    && Tidy(q, cfg.caps)
    && forall k :: k in q.smallSet ==> k in keys && cfg.hash(k) !in q.ghostSet
  }

  /** A stored entry against its shard's queues. */
  ghost predicate TagOk(e: Entry, k: Bytes, q: Queues) {
    (e.tag == Main ==> k !in q.smallSet) && (e.tag == Small ==> e.hits <= 1)
  }

  ghost predicate QueuesSound(cfg: Config, db: Db, keys: iset<Bytes>) {
    && |db.queues| == cfg.numShards
    && (forall i :: 0 <= i < |db.queues| ==> QueueOk(cfg, db.queues[i], keys))
    && (forall k :: k in db.entries ==> TagOk(db.entries[k], k, db.queues[ShardOf(cfg, k)]))
  }

  // ---------------------------------------------------------------- one queue

  lemma {:induction false} RemoveOk(cfg: Config, q: Queues, k: Bytes, tag: QueueType, keys: iset<Bytes>)
    requires QueueOk(cfg, q, keys)
    ensures QueueOk(cfg, RemoveTagged(q, k, tag), keys)
    ensures RemoveTagged(q, k, tag).smallSet <= q.smallSet
    ensures tag == Small ==> k !in RemoveTagged(q, k, tag).smallSet
  {
    RemoveTidy(q, k, tag, cfg.caps);
  }

  lemma {:induction false} AddToMainOk(cfg: Config, q: Queues, k: Bytes, keys: iset<Bytes>)
    requires QueueOk(cfg, q, keys) && RealCaps(cfg.caps)
    ensures QueueOk(cfg, AddToMain(q, k, cfg.caps), keys)
    ensures AddToMain(q, k, cfg.caps).smallSet == q.smallSet
  {
    AddToMainTidy(q, k, cfg.caps);
  }

  /** A key sent to Main because it was a ghost cannot be in Small: Small keys are never ghosts. */
  lemma {:induction false} PlaceOk(cfg: Config, q: Queues, k: Bytes, keys: iset<Bytes>)
    requires QueueOk(cfg, q, keys) && RealCaps(cfg.caps) && k in keys
    ensures var (q', tag) := Place(q, k, cfg.hash(k), cfg.caps);
            QueueOk(cfg, q', keys) && q'.smallSet <= q.smallSet + {k} && (tag == Main ==> k !in q'.smallSet)
  {
    if cfg.hash(k) in q.ghostSet {
      RemoveFromGhostTidy(q, cfg.hash(k), cfg.caps);
      AddToMainOk(cfg, RemoveFromGhost(q, cfg.hash(k)), k, keys);
    } else {
      AddToSmallTidy(q, k, cfg.caps);
    }
  }

  lemma {:induction false} TouchOk(cfg: Config, q: Queues, k: Bytes, e: Entry, keys: iset<Bytes>)
    requires QueueOk(cfg, q, keys) && RealCaps(cfg.caps) && TagOk(e, k, q)
    ensures var (q', tag, hits) := Touch(q, k, e.tag, e.hits, cfg.caps);
            QueueOk(cfg, q', keys) && q'.smallSet <= q.smallSet && TagOk(e.(tag := tag, hits := hits), k, q')
  {
    RemoveOk(cfg, q, k, e.tag, keys);
    AddToMainOk(cfg, RemoveTagged(q, k, e.tag), k, keys);
  }

  /** Evicting a Small key: its ghost is new, and no other Small key shares its hash. */
  lemma {:induction false} PopSmallOk(cfg: Config, q: Queues, keys: iset<Bytes>)
    requires QueueOk(cfg, q, keys) && RealCaps(cfg.caps) && Separate(cfg, keys) && q.small != []
    ensures QueueOk(cfg, PopVictim(q, cfg.hash, cfg.caps).0, keys)
    ensures PopVictim(q, cfg.hash, cfg.caps).0.smallSet <= q.smallSet
  {
    var k := q.small[0];
    var q1 := q.(small := q.small[1..], smallSet := q.smallSet - {k});
    assert k in q.smallSet;
    assert Elements(q.small[1..]) == Elements(q.small) - {k};
    assert Tidy(q1, cfg.caps);
    AddToGhostTidy(q1, cfg.hash(k), cfg.caps);
  }

  lemma {:induction false} PopVictimOk(cfg: Config, q: Queues, keys: iset<Bytes>)
    requires QueueOk(cfg, q, keys) && RealCaps(cfg.caps) && Separate(cfg, keys)
    ensures QueueOk(cfg, PopVictim(q, cfg.hash, cfg.caps).0, keys)
    ensures PopVictim(q, cfg.hash, cfg.caps).0.smallSet <= q.smallSet
  {
    if q.small != [] {
      PopSmallOk(cfg, q, keys);
    } else if q.main != [] {
      assert Elements(q.main[1..]) == Elements(q.main) - {q.main[0]};
    }
  }

  // ---------------------------------------------------------------- one step of the store

  /** A step that touches one key and its shard's queues, given that those two are right after it. */
  lemma {:induction false} StepSound(cfg: Config, db: Db, db': Db, k: Bytes, q: Queues, keys: iset<Bytes>)
    requires QueuesSound(cfg, db, keys)
    requires db'.queues == db.queues[ShardOf(cfg, k) := q] && QueueOk(cfg, q, keys)
    requires q.smallSet <= db.queues[ShardOf(cfg, k)].smallSet + {k}
    requires forall x :: x in db'.entries && x != k ==> x in db.entries && db'.entries[x] == db.entries[x]
    requires k in db'.entries ==> TagOk(db'.entries[k], k, q)
    ensures QueuesSound(cfg, db', keys)
  {
    forall x | x in db'.entries ensures TagOk(db'.entries[x], x, db'.queues[ShardOf(cfg, x)]) {
      if x != k {
        assert TagOk(db.entries[x], x, db.queues[ShardOf(cfg, x)]);
      }
    }
  }

  /** A step that leaves the queues alone. */
  lemma {:induction false} SilentStepSound(cfg: Config, db: Db, db': Db, keys: iset<Bytes>)
    requires QueuesSound(cfg, db, keys) && db'.queues == db.queues
    requires forall x :: x in db'.entries ==>
               || (db'.entries[x].tag == Small && db'.entries[x].hits <= 1)
               || (x in db.entries && db'.entries[x].tag == db.entries[x].tag && db'.entries[x].hits == db.entries[x].hits)
    ensures QueuesSound(cfg, db', keys)
  {
  }

  lemma {:induction false} ReapSound(cfg: Config, db: Db, k: Bytes, now: nat, keys: iset<Bytes>)
    requires QueuesSound(cfg, db, keys)
    ensures QueuesSound(cfg, Reap(cfg, db, k, now), keys)
  {
    SilentStepSound(cfg, db, Reap(cfg, db, k, now), keys);
  }

  lemma {:induction false} ReapAllSound(cfg: Config, db: Db, sample: seq<Bytes>, now: nat, keys: iset<Bytes>)
    requires QueuesSound(cfg, db, keys)
    ensures QueuesSound(cfg, ReapAll(cfg, db, sample, now), keys)
    decreases |sample|
  {
    if sample != [] {
      ReapSound(cfg, db, sample[0], now, keys);
      ReapAllSound(cfg, Reap(cfg, db, sample[0], now), sample[1..], now, keys);
    }
  }

  lemma {:induction false} UntrackSound(cfg: Config, db: Db, k: Bytes, keys: iset<Bytes>)
    requires QueuesSound(cfg, db, keys)
    ensures |Untrack(cfg, db, k).queues| == |db.queues|
    ensures var q := Untrack(cfg, db, k).queues[ShardOf(cfg, k)];
            && Untrack(cfg, db, k).queues == db.queues[ShardOf(cfg, k) := q]
            && Untrack(cfg, db, k).entries == db.entries
            && QueueOk(cfg, q, keys) && q.smallSet <= db.queues[ShardOf(cfg, k)].smallSet
  {
    var q := db.queues[ShardOf(cfg, k)];
    if k in db.entries {
      RemoveOk(cfg, q, k, db.entries[k].tag, keys);
    }
  }

  lemma {:induction false} DeleteSound(cfg: Config, db: Db, k: Bytes, keys: iset<Bytes>)
    requires QueuesSound(cfg, db, keys)
    ensures QueuesSound(cfg, Delete(cfg, db, k), keys)
  {
    UntrackSound(cfg, db, k, keys);
    StepSound(cfg, db, Delete(cfg, db, k), k, Untrack(cfg, db, k).queues[ShardOf(cfg, k)], keys);
  }

  lemma {:induction false} DeleteAllSound(cfg: Config, db: Db, ks: seq<Bytes>, now: nat, keys: iset<Bytes>)
    requires QueuesSound(cfg, db, keys)
    ensures QueuesSound(cfg, DeleteAll(cfg, db, ks, now).0, keys)
    decreases |ks|
  {
    if ks != [] {
      DeleteSound(cfg, db, ks[0], keys);
      DeleteAllSound(cfg, Delete(cfg, db, ks[0]), ks[1..], now, keys);
    }
  }

  /** Storing a fresh entry under a key already taken out of its old queue. */
  lemma {:induction false} StoreSound(cfg: Config, db: Db, d: Db, k: Bytes, e: Entry, db': Db, keys: iset<Bytes>)
    requires QueuesSound(cfg, db, keys) && RealCaps(cfg.caps) && k in keys
    requires |d.queues| == |db.queues|
    requires var q := d.queues[ShardOf(cfg, k)];
             && d.queues == db.queues[ShardOf(cfg, k) := q]
             && QueueOk(cfg, q, keys) && q.smallSet <= db.queues[ShardOf(cfg, k)].smallSet
    requires e.tag == Track(cfg, d, k).1 && e.hits == 0
    requires db'.queues == Track(cfg, d, k).0.queues && db'.entries == db.entries[k := e]
    ensures QueuesSound(cfg, db', keys)
  {
    var i := ShardOf(cfg, k);
    var q := d.queues[i];
    PlaceOk(cfg, q, k, keys);
    var q' := if UsesQueues(cfg) then Place(q, k, cfg.hash(k), cfg.caps).0 else q;
    assert db'.queues == db.queues[i := q'];
    StepSound(cfg, db, db', k, q', keys);
  }

  lemma {:induction false} SetSound(cfg: Config, db: Db, k: Bytes, v: Bytes, ttl: Option<nat>, now: nat, keys: iset<Bytes>)
    requires QueuesSound(cfg, db, keys) && RealCaps(cfg.caps) && k in keys
    ensures QueuesSound(cfg, SetAndCharge(cfg, db, k, v, ttl, now), keys)
  {
    UntrackSound(cfg, db, k, keys);
    var d := Untrack(cfg, db, k);
    var db' := SetAndCharge(cfg, db, k, v, ttl, now);
    StoreSound(cfg, db, d, k, db'.entries[k], db', keys);
  }

  lemma {:induction false} SetPairsSound(cfg: Config, db: Db, pairs: Pairs, now: nat, keys: iset<Bytes>)
    requires QueuesSound(cfg, db, keys) && RealCaps(cfg.caps)
    requires forall i :: 0 <= i < |pairs| ==> pairs[i].0 in keys
    ensures QueuesSound(cfg, SetPairs(cfg, db, pairs, now), keys)
    decreases |pairs|
  {
    if pairs != [] {
      var (k, v) := pairs[0];
      SetSound(cfg, db, k, v, None, now, keys);
      SetPairsSound(cfg, SetAndCharge(cfg, db, k, v, None, now), pairs[1..], now, keys);
    }
  }

  lemma {:induction false} AccessSound(cfg: Config, db: Db, k: Bytes, keys: iset<Bytes>)
    requires QueuesSound(cfg, db, keys) && RealCaps(cfg.caps)
    ensures QueuesSound(cfg, Access(cfg, db, k), keys)
  {
    if UsesQueues(cfg) && k in db.entries {
      var q := db.queues[ShardOf(cfg, k)];
      TouchOk(cfg, q, k, db.entries[k], keys);
      StepSound(cfg, db, Access(cfg, db, k), k, Touch(q, k, db.entries[k].tag, db.entries[k].hits, cfg.caps).0, keys);
    }
  }

  lemma {:induction false} ReadSound(cfg: Config, db: Db, k: Bytes, now: nat, keys: iset<Bytes>)
    requires QueuesSound(cfg, db, keys) && RealCaps(cfg.caps)
    ensures QueuesSound(cfg, Get(cfg, db, k, now).0, keys)
    ensures QueuesSound(cfg, ReadHash(cfg, db, k, now).0, keys)
  {
    AccessSound(cfg, db, k, keys);
    ReapSound(cfg, db, k, now, keys);
  }

  lemma {:induction false} MGetSound(cfg: Config, db: Db, ks: seq<Bytes>, now: nat, keys: iset<Bytes>)
    requires QueuesSound(cfg, db, keys) && RealCaps(cfg.caps)
    ensures QueuesSound(cfg, ExecMGet(cfg, db, ks, now).0, keys)
    decreases |ks|
  {
    if ks != [] {
      ReadSound(cfg, db, ks[0], now, keys);
      MGetSound(cfg, Get(cfg, db, ks[0], now).0, ks[1..], now, keys);
    }
  }

  lemma {:induction false} HSetSound(cfg: Config, db: Db, k: Bytes, pairs: Pairs, now: nat, keys: iset<Bytes>)
    requires QueuesSound(cfg, db, keys) && RealCaps(cfg.caps) && k in keys
    ensures QueuesSound(cfg, HSet(cfg, db, k, pairs, now).0, keys)
  {
    DeleteSound(cfg, db, k, keys);
    var d := if k in db.entries && !IsLive(db.entries, k, now) then Delete(cfg, db, k) else db;
    var db' := HSet(cfg, db, k, pairs, now).0;
    if k in d.entries {
      SilentStepSound(cfg, d, db', keys);
    } else {
      assert d.queues == d.queues[ShardOf(cfg, k) := d.queues[ShardOf(cfg, k)]];
      StoreSound(cfg, d, d, k, db'.entries[k], db', keys);
    }
  }

  lemma {:induction false} EvictS3Sound(cfg: Config, db: Db, shards: seq<nat>, keys: iset<Bytes>)
    requires QueuesSound(cfg, db, keys) && RealCaps(cfg.caps) && Separate(cfg, keys)
    ensures QueuesSound(cfg, EvictS3(cfg, db, shards).0, keys)
    decreases |shards|
  {
    if shards != [] {
      var i := shards[0] % cfg.numShards;
      var (q, victim) := PopVictim(QueueAt(db, i), cfg.hash, cfg.caps);
      PopVictimOk(cfg, db.queues[i], keys);
      var d := SetQueue(db, i, q);
      assert QueuesSound(cfg, d, keys) by {
        forall x | x in d.entries ensures TagOk(d.entries[x], x, d.queues[ShardOf(cfg, x)]) {
          assert TagOk(db.entries[x], x, db.queues[ShardOf(cfg, x)]);
        }
      }
      if victim.Some? && victim.value in d.entries && ShardOf(cfg, victim.value) == i {
        SilentStepSound(cfg, d, Expel(d, victim.value).0, keys);
      } else {
        EvictS3Sound(cfg, d, shards[1..], keys);
      }
    }
  }

  lemma {:induction false} EvictOneSound(cfg: Config, db: Db, pick: Pick, keys: iset<Bytes>)
    requires QueuesSound(cfg, db, keys) && RealCaps(cfg.caps) && Protected(cfg, keys) && cfg.maxMemory > 0
    ensures QueuesSound(cfg, EvictOne(cfg, db, pick).0, keys)
  {
    hide QueuesSound, Separate;
    if UsesQueues(cfg) {
      EvictS3Sound(cfg, db, pick.shards, keys);
    }
    if pick.victim.Some? && pick.victim.value in db.entries {
      SilentStepSound(cfg, db, Expel(db, pick.victim.value).0, keys);
    }
  }

  lemma {:induction false} EvictLoopSound(cfg: Config, db: Db, needed: nat, picks: seq<Pick>, freed: nat, attempts: nat, keys: iset<Bytes>)
    requires QueuesSound(cfg, db, keys) && RealCaps(cfg.caps) && Protected(cfg, keys) && cfg.maxMemory > 0
    ensures QueuesSound(cfg, EvictLoop(cfg, db, needed, picks, freed, attempts), keys)
    decreases |picks|
  {
    hide QueuesSound, EvictOne;
    if picks != [] {
      EvictOneSound(cfg, db, picks[0], keys);
      var (d, n) := EvictOne(cfg, db, picks[0]);
      EvictLoopSound(cfg, d, needed, picks[1..], freed + n, attempts + 1, keys);
    }
  }

  lemma {:induction false} AdmitSound(cfg: Config, db: Db, needed: int, picks: seq<Pick>, keys: iset<Bytes>)
    requires QueuesSound(cfg, db, keys) && RealCaps(cfg.caps) && Protected(cfg, keys)
    ensures QueuesSound(cfg, Admit(cfg, db, needed, picks).0, keys)
  {
    hide QueuesSound, EvictLoop, Protected;
    if needed > 0 && cfg.maxMemory > 0 {
      EvictLoopSound(cfg, db, needed, picks, 0, 0, keys);
    }
  }

  // ---------------------------------------------------------------- all commands

  /** The keys a command may store something under. */
  function Writes(op: Op, cmd: Command): set<Bytes> {
    if |cmd| < 2 then {}
    else if op == MSetOp then set i | 1 <= i < |cmd| && i % 2 == 1 :: cmd[i]
    else if op in {SetOp, HSetOp, IncrOp, DecrOp, IncrByOp, DecrByOp} then {cmd[1]}
    else {}
  }

  ghost predicate WritesWithin(op: Op, cmd: Command, keys: iset<Bytes>) {
    forall k :: k in Writes(op, cmd) ==> k in keys
  }

  lemma {:induction false} PairKeys(cmd: Command, i: nat, j: nat) returns (n: nat)
    requires i % 2 == 1 && j < |MSetPairs(cmd, i)|
    ensures i <= n < |cmd| && n % 2 == 1 && cmd[n] == MSetPairs(cmd, i)[j].0
    decreases |cmd| - i
  {
    if j == 0 {
      n := i;
    } else {
      n := PairKeys(cmd, i + 2, j - 1);
    }
  }

  lemma {:induction false} SetCommandSound(cfg: Config, db: Db, cmd: Command, now: nat, picks: seq<Pick>, keys: iset<Bytes>)
    requires QueuesSound(cfg, db, keys) && RealCaps(cfg.caps) && Protected(cfg, keys)
    requires |cmd| >= 2 ==> cmd[1] in keys
    ensures QueuesSound(cfg, ExecSet(cfg, db, cmd, now, picks).0, keys)
  {
    hide QueuesSound, Admit, Set;
    if |cmd| < 3 {
      return;
    }
    AdmitSound(cfg, db, Size(cmd[1], Str(cmd[2])), picks, keys);
    var d := Admit(cfg, db, Size(cmd[1], Str(cmd[2])), picks).0;
    var o := ParseOptions(cmd, 3, NO_OPTIONS);
    if o.Ok? {
      SetSound(cfg, d, cmd[1], cmd[2], o.value.ttl, now, keys);
    }
  }

  lemma {:induction false} IncrWriteSound(cfg: Config, db: Db, k: Bytes, sum: int, prev: nat, ttl: Option<nat>, now: nat, picks: seq<Pick>, keys: iset<Bytes>)
    requires QueuesSound(cfg, db, keys) && RealCaps(cfg.caps) && Protected(cfg, keys) && k in keys
    ensures QueuesSound(cfg, IncrWrite(cfg, db, k, sum, prev, ttl, now, picks).0, keys)
  {
    hide QueuesSound, Admit, Set;
    var v := Decimal.SignedDecimal(sum);
    AdmitSound(cfg, db, Size(k, Str(v)) - prev, picks, keys);
    SetSound(cfg, Admit(cfg, db, Size(k, Str(v)) - prev, picks).0, k, v, ttl, now, keys);
  }

  lemma {:induction false} IncrSound(cfg: Config, db: Db, k: Bytes, delta: int, now: nat, picks: seq<Pick>, keys: iset<Bytes>)
    requires QueuesSound(cfg, db, keys) && RealCaps(cfg.caps) && Protected(cfg, keys) && k in keys
    ensures QueuesSound(cfg, ExecIncr(cfg, db, k, delta, now, picks).0, keys)
  {
    hide QueuesSound, IncrWrite, Reap;
    if !IsLive(db.entries, k, now) {
      ReapSound(cfg, db, k, now, keys);
      IncrWriteSound(cfg, Reap(cfg, db, k, now), k, delta, 0, None, now, picks, keys);
    } else if db.entries[k].value.Str? && Decimal.ParseI64(db.entries[k].value.bytes).Some? {
      var e := db.entries[k];
      var ttl := if e.expiry.Some? then Some(e.expiry.value - now) else None;
      var sum := Decimal.ParseI64(e.value.bytes).value + delta;
      IncrWriteSound(cfg, db, k, sum, EntrySize(k, e), ttl, now, picks, keys);
    }
  }

  lemma {:induction false} MSetSound(cfg: Config, db: Db, cmd: Command, now: nat, picks: seq<Pick>, keys: iset<Bytes>)
    requires QueuesSound(cfg, db, keys) && RealCaps(cfg.caps) && Protected(cfg, keys)
    requires WritesWithin(MSetOp, cmd, keys)
    ensures QueuesSound(cfg, ExecMSet(cfg, db, cmd, now, picks).0, keys)
  {
    hide QueuesSound, Admit, SetPairs;
    if |cmd| >= 3 {
      var pairs := MSetPairs(cmd, 1);
      forall j | 0 <= j < |pairs| ensures pairs[j].0 in keys {
        var n := PairKeys(cmd, 1, j);
        assert cmd[n] in Writes(MSetOp, cmd);
      }
      AdmitSound(cfg, db, NetSize(db, pairs, now), picks, keys);
      SetPairsSound(cfg, Admit(cfg, db, NetSize(db, pairs, now), picks).0, pairs, now, keys);
    }
  }

  lemma {:induction false} HDelSound(cfg: Config, db: Db, k: Bytes, names: seq<Bytes>, now: nat, keys: iset<Bytes>)
    requires QueuesSound(cfg, db, keys)
    ensures QueuesSound(cfg, HDel(cfg, db, k, names, now).0, keys)
  {
    SilentStepSound(cfg, db, HDel(cfg, db, k, names, now).0, keys);
  }

  lemma {:induction false} ExpireSound(cfg: Config, db: Db, cmd: Command, now: nat, keys: iset<Bytes>)
    requires QueuesSound(cfg, db, keys)
    ensures QueuesSound(cfg, ExecExpire(cfg, db, cmd, now).0, keys)
  {
    hide QueuesSound, DeleteAll;
    if |cmd| >= 3 && Decimal.ParseI64(cmd[2]).Some? {
      var seconds := Decimal.ParseI64(cmd[2]).value;
      if seconds <= 0 {
        DeleteAllSound(cfg, db, [cmd[1]], now, keys);
      } else {
        SilentStepSound(cfg, db, ExecExpire(cfg, db, cmd, now).0, keys);
      }
    }
  }

  lemma {:induction false} KeyCommandsSound(cfg: Config, db: Db, op: Op, cmd: Command, now: nat, keys: iset<Bytes>)
    requires QueuesSound(cfg, db, keys) && RealCaps(cfg.caps) && |cmd| >= 2
    ensures QueuesSound(cfg, ExecOnKeys(cfg, db, op, cmd, now).0, keys)
  {
    hide QueuesSound, DeleteAll, ExecMGet, Get, ReadHash;
    if op == DelOp {
      DeleteAllSound(cfg, db, cmd[1..], now, keys);
    } else if op == MGetOp {
      MGetSound(cfg, db, cmd[1..], now, keys);
    } else if op == GetOp || op == HGetAllOp {
      ReadSound(cfg, db, cmd[1], now, keys);
    } else {
      SilentStepSound(cfg, db, ExecOnKeys(cfg, db, op, cmd, now).0, keys);
    }
  }

  lemma {:induction false} DispatchSound(cfg: Config, db: Db, op: Op, cmd: Command, now: nat, picks: seq<Pick>, keys: iset<Bytes>)
    requires QueuesSound(cfg, db, keys) && RealCaps(cfg.caps) && Protected(cfg, keys)
    requires WritesWithin(op, cmd, keys)
    ensures QueuesSound(cfg, Dispatch(cfg, db, op, cmd, now, picks).0, keys)
  {
    hide Dispatch, QueuesSound, ExecSet, ExecMSet, ExecExpire, HSet, HDel, ExecIncr, ReadHash, ExecOnKeys, DeltaOf;
    DispatchCases(cfg, db, op, cmd, now, picks);
    assert |cmd| >= 2 && op in {SetOp, HSetOp, IncrOp, DecrOp, IncrByOp, DecrByOp} ==> cmd[1] in Writes(op, cmd);
    if op == SetOp {
      SetCommandSound(cfg, db, cmd, now, picks, keys);
    } else if op == MSetOp {
      MSetSound(cfg, db, cmd, now, picks, keys);
    } else if op == ExpireOp {
      ExpireSound(cfg, db, cmd, now, keys);
    } else if op == HSetOp {
      if |cmd| >= 4 { HSetSound(cfg, db, cmd[1], MSetPairs(cmd, 2), now, keys); }
    } else if op == HDelOp {
      if |cmd| >= 3 { HDelSound(cfg, db, cmd[1], cmd[2..], now, keys); }
    } else if op == FlushOp {
      SilentStepSound(cfg, db, Flush(db, now), keys);
    } else if IsIncr(op) {
      if DeltaOf(op, cmd).Ok? { IncrSound(cfg, db, cmd[1], DeltaOf(op, cmd).value, now, picks, keys); }
    } else if op == HGetOp {
      if |cmd| >= 3 { ReadSound(cfg, db, cmd[1], now, keys); }
    } else if |cmd| >= 2 {
      KeyCommandsSound(cfg, db, op, cmd, now, keys);
    }
  }

  // ---------------------------------------------------------------- runs

  ghost predicate RunWritesWithin(events: seq<Event>, keys: iset<Bytes>) {
    forall i :: 0 <= i < |events| && events[i].Request? && events[i].cmd != []
                ==> WritesWithin(OpOf(events[i].cmd[0]), events[i].cmd, keys)
  }

  /** Every run of commands, evictions and sampling passes keeps the queues sound. */
  lemma {:induction false} RunSound(cfg: Config, db: Db, events: seq<Event>, keys: iset<Bytes>)
    requires QueuesSound(cfg, db, keys) && RealCaps(cfg.caps) && Protected(cfg, keys)
    requires RunWritesWithin(events, keys)
    ensures QueuesSound(cfg, Run(cfg, db, events).0, keys)
    decreases |events|
  {
    hide QueuesSound, Dispatch, ReapAll;
    if events != [] {
      assert RunWritesWithin(events[1..], keys);
      match events[0]
      case Sampling(sample, at) =>
        ReapAllSound(cfg, db, sample, at, keys);
        RunSound(cfg, ReapAll(cfg, db, sample, at), events[1..], keys);
      case Request(cmd, picks, at) =>
        if cmd != [] {
          DispatchSound(cfg, db, OpOf(cmd[0]), cmd, at, picks, keys);
        }
        RunSound(cfg, Execute(cfg, db, cmd, at, picks).0, events[1..], keys);
    }
  }

  /** Entries restored from a snapshot start Small, unaccessed and in no queue, which is sound. */
  ghost predicate Restored(entries: map<Bytes, Entry>) {
    forall k :: k in entries ==> entries[k].tag == Small && entries[k].hits == 0
  }

  /** From a server that is fresh or has just loaded a snapshot, the queues are always sound. */
  lemma {:induction false} S3FifoInvariant(cfg: Config, loaded: map<Bytes, Entry>, used: int, events: seq<Event>, keys: iset<Bytes>)
    requires Restored(loaded) && RealCaps(cfg.caps) && Protected(cfg, keys) && RunWritesWithin(events, keys)
    ensures QueuesSound(cfg, Run(cfg, Fresh(cfg).(entries := loaded, used := used), events).0, keys)
  {
    assert QueuesSound(cfg, Fresh(cfg).(entries := loaded, used := used), keys);
    RunSound(cfg, Fresh(cfg).(entries := loaded, used := used), events, keys);
  }

  /** Flushing leaves the queues alone, so a queue can hold a key that is not stored. */
  lemma {:induction false} StaleQueueEntry(cfg: Config, k: Bytes, v: Bytes)
    requires cfg.policy == AllKeysS3Fifo
    ensures var d := Flush(Set(cfg, Fresh(cfg), k, v, None, 0), 0);
            k !in d.entries && k in d.queues[ShardOf(cfg, k)].smallSet
  {
  }
}
