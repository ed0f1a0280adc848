/**
 * When the S3-FIFO invariant holds, exactly. Two keys with the same hash break it by a run that
 * every server with a memory limit can be sent, and nothing else does.
 */
module Collisions {
  import opened Basics
  import opened Decimal
  import opened Sums
  import opened S3Fifo
  import opened Store
  import opened Commands
  import opened Reference
  import opened Parser
  import opened QueueInvariant
  import opened Snapshot
  import opened Witnesses

  // ---------------------------------------------------------------- the run

  function FillEvent(b: Bytes, i: nat): Event {
    Request([HSET, b, ToDecimal(i), []], [], 0)
  }

  /** One small field after another: HSET asks for no room, so this outgrows any limit. */
  function Filling(b: Bytes, i: nat, n: nat): seq<Event>
    decreases n - i
  {
    if i >= n then [] else [FillEvent(b, i)] + Filling(b, i + 1, n)
  }

  /** Write two keys, let the second outgrow the memory, and try a SET; its one eviction draws their shard. */
  function CollidingRun(cfg: Config, a: Bytes, b: Bytes): seq<Event> {
    [Request([HSET, a, [], []], [], 0)]
    + (Filling(b, 0, cfg.maxMemory) + [Request([SET, a, []], [Pick(None, [ShardOf(cfg, a)])], 0)])
  }

  /** Every request of the run is one that the parser accepts. */
  ghost predicate Sendable(events: seq<Event>) {
    forall i :: 0 <= i < |events| ==> events[i].Request? && WithinLimits(events[i].cmd)
  }

  lemma {:induction false} FillingSendable(b: Bytes, i: nat, n: nat)
    requires |b| <= MAX_STRING_LEN && n <= U64_MAX + 1
    ensures Sendable(Filling(b, i, n))
    decreases n - i
  {
    if i < n {
      FillingSendable(b, i + 1, n);
      U64HasTwentyDigits(i);
    }
  }

  lemma {:induction false} RunSendable(cfg: Config, a: Bytes, b: Bytes)
    requires |a| <= MAX_STRING_LEN && |b| <= MAX_STRING_LEN && cfg.maxMemory <= U64_MAX
    ensures Sendable(CollidingRun(cfg, a, b))
  {
    FillingSendable(b, 0, cfg.maxMemory);
  }

  lemma {:induction false} FillingWrites(b: Bytes, i: nat, n: nat, keys: iset<Bytes>)
    requires b in keys
    ensures RunWritesWithin(Filling(b, i, n), keys)
    decreases n - i
  {
    hide ToDecimal, OpOf;
    if i < n {
      EmittedNames();
      FillingWrites(b, i + 1, n, keys);
    }
  }

  lemma {:induction false} CollidingWrites(cfg: Config, a: Bytes, b: Bytes, keys: iset<Bytes>)
    requires a in keys && b in keys
    ensures RunWritesWithin(CollidingRun(cfg, a, b), keys)
  {
    hide OpOf, Filling;
    EmittedNames();
    FillingWrites(b, 0, cfg.maxMemory, keys);
  }

  // ---------------------------------------------------------------- its effect

  lemma {:induction false} RunConcat(cfg: Config, db: Db, first: seq<Event>, rest: seq<Event>)
    ensures Run(cfg, db, first + rest).0 == Run(cfg, Run(cfg, db, first).0, rest).0
    decreases |first|
  {
    hide Execute, ReapAll;
    if first == [] {
      assert first + rest == rest;
    } else {
      assert (first + rest)[0] == first[0] && (first + rest)[1..] == first[1..] + rest;
      match first[0]
      case Sampling(keys, at) => RunConcat(cfg, ReapAll(cfg, db, keys, at), first[1..], rest);
      case Request(cmd, picks, at) => RunConcat(cfg, Execute(cfg, db, cmd, at, picks).0, first[1..], rest);
    }
  }

  /** The queues of a shard with two keys of the same hash in Small. */
  function PairQueues(cfg: Config, a: Bytes, b: Bytes): Queues {
    Place(Place(EMPTY, a, cfg.hash(a), cfg.caps).0, b, cfg.hash(b), cfg.caps).0
  }

  lemma {:induction false} CollidingPair(cfg: Config, a: Bytes, b: Bytes, keys: iset<Bytes>)
    requires cfg.caps.small >= 2 && cfg.caps.ghosts > 0 && a != b && cfg.hash(a) == cfg.hash(b)
    ensures PopVictim(PairQueues(cfg, a, b), cfg.hash, cfg.caps).1 == Some(a)
    ensures !QueueOk(cfg, PopVictim(PairQueues(cfg, a, b), cfg.hash, cfg.caps).0, keys)
  {
    var h := cfg.hash(a);
    var q1 := Place(EMPTY, a, h, cfg.caps).0;
    assert q1.small == [a] && q1.smallSet == {a} && q1.ghostSet == {} && q1.ghosts == [];
    var q2 := Place(q1, b, h, cfg.caps).0;
    assert q2.small == [a, b] && q2.smallSet == {a, b} && q2.ghosts == [];
    var q := PopVictim(q2, cfg.hash, cfg.caps).0;
    assert b in q.smallSet && h in q.ghostSet;
  }

  /** Both keys are queued, `a` as a hash with one empty field, and `b` has taken up more than `i` bytes. */
  ghost predicate Filled(cfg: Config, d: Db, a: Bytes, b: Bytes, i: nat) {
    && |d.queues| == cfg.numShards && d.queues[ShardOf(cfg, a)] == PairQueues(cfg, a, b)
    && a in d.entries && d.entries[a].value == Hash(map[[] := []])
    && b in d.entries && d.entries[b].value.Hash? && d.entries[b].expiry == None
    && (forall j: nat :: j >= i ==> ToDecimal(j) !in d.entries[b].value.fields)
    && d.used >= EntrySize(a, d.entries[a]) + i
  }

  lemma {:induction false} DecimalsDiffer(i: nat, j: nat)
    requires i != j
    ensures ToDecimal(i) != ToDecimal(j)
  {
    FromToDecimal(i);
    FromToDecimal(j);
  }

  lemma {:induction false} OneMoreField(fields: map<Bytes, Bytes>, f: Bytes, v: Bytes)
    requires f !in fields
    ensures FieldBytes(fields[f := v]) == FieldBytes(fields) + |f| + |v|
  {
    SumUpdate(fields, PairSize, f, v);
    assert fields - {f} == fields;
  }

  lemma {:induction false} HSetNew(cfg: Config, db: Db, k: Bytes, f: Bytes, v: Bytes)
    requires cfg.policy == AllKeysS3Fifo && cfg.maxMemory > 0 && |db.queues| == cfg.numShards && k !in db.entries
    ensures var d := HSet(cfg, db, k, [(f, v)], 0).0;
            var i := ShardOf(cfg, k);
            && d.entries.Keys == db.entries.Keys + {k} && (forall x :: x in db.entries ==> d.entries[x] == db.entries[x])
            && d.entries[k].value == Hash(map[f := v]) && d.entries[k].expiry == None
            && d.queues == db.queues[i := Place(db.queues[i], k, cfg.hash(k), cfg.caps).0]
            && d.used == db.used + Size(k, Hash(map[f := v]))
  {
    hide Place, FieldBytes;
    PutOne(map[], f, v);
    assert map[][f := v] == map[f := v];
  }

  lemma {:induction false} PutOne(fields: map<Bytes, Bytes>, f: Bytes, v: Bytes)
    ensures PutAll(fields, [(f, v)]).0 == fields[f := v]
  {
    assert [(f, v)][1..] == [];
    assert PutAll(fields[f := v], []) == (fields[f := v], 0);
  }

  lemma {:induction false} HSetMore(cfg: Config, db: Db, k: Bytes, f: Bytes)
    requires cfg.maxMemory > 0 && k in db.entries && db.entries[k].value.Hash? && db.entries[k].expiry == None
    requires f !in db.entries[k].value.fields
    ensures var e := db.entries[k];
            HSet(cfg, db, k, [(f, [])], 0).0
            == db.(entries := db.entries[k := e.(value := Hash(e.value.fields[f := []]))], used := db.used + |f|)
  {
    hide FieldBytes, PutAll;
    PutOne(db.entries[k].value.fields, f, []);
    OneMoreField(db.entries[k].value.fields, f, []);
  }

  lemma {:induction false} FirstTwo(cfg: Config, a: Bytes, b: Bytes)
    requires cfg.policy == AllKeysS3Fifo && cfg.maxMemory > 0 && a != b && cfg.hash(a) == cfg.hash(b)
    ensures Filled(cfg, HSet(cfg, HSet(cfg, Fresh(cfg), a, [([], [])], 0).0, b, [(ToDecimal(0), [])], 0).0, a, b, 1)
  {
    hide Place, HSet, Size, FieldBytes;
    var d1 := HSet(cfg, Fresh(cfg), a, [([], [])], 0).0;
    var d2 := HSet(cfg, d1, b, [(ToDecimal(0), [])], 0).0;
    HSetNew(cfg, Fresh(cfg), a, [], []);
    HSetNew(cfg, d1, b, ToDecimal(0), []);
    forall j: nat | j >= 1 ensures ToDecimal(j) !in d2.entries[b].value.fields {
      DecimalsDiffer(0, j);
    }
    HashIsLarge(b, map[ToDecimal(0) := []]);
  }

  lemma {:induction false} HashIsLarge(k: Bytes, fields: map<Bytes, Bytes>)
    ensures Size(k, Hash(fields)) >= |k| + 64 && Size(k, Hash(fields)) >= 1
  {
  }

  lemma {:induction false} FillStep(cfg: Config, d: Db, a: Bytes, b: Bytes, i: nat)
    requires cfg.maxMemory > 0 && a != b && Filled(cfg, d, a, b, i)
    ensures Filled(cfg, HSet(cfg, d, b, [(ToDecimal(i), [])], 0).0, a, b, i + 1)
  {
    hide HSet, PairQueues, EntrySize, ToDecimal;
    HSetMore(cfg, d, b, ToDecimal(i));
    var d' := HSet(cfg, d, b, [(ToDecimal(i), [])], 0).0;
    forall j: nat | j >= i + 1 ensures ToDecimal(j) !in d'.entries[b].value.fields {
      DecimalsDiffer(i, j);
    }
  }

  lemma {:induction false} FillRun(cfg: Config, d: Db, a: Bytes, b: Bytes, i: nat, n: nat)
    requires cfg.maxMemory > 0 && a != b && Filled(cfg, d, a, b, i) && i <= n
    ensures Filled(cfg, Run(cfg, d, Filling(b, i, n)).0, a, b, n)
    decreases n - i
  {
    hide Filled, Execute, HSet, ToDecimal;
    if i < n {
      FillStep(cfg, d, a, b, i);
      ExecuteHSet(cfg, d, b, ToDecimal(i), []);
      assert Filling(b, i, n)[0] == FillEvent(b, i) && Filling(b, i, n)[1..] == Filling(b, i + 1, n);
      FillRun(cfg, HSet(cfg, d, b, [(ToDecimal(i), [])], 0).0, a, b, i + 1, n);
    }
  }

  lemma {:induction false} EvictsFirst(cfg: Config, d: Db, a: Bytes, b: Bytes, keys: iset<Bytes>)
    requires cfg.caps.small >= 2 && cfg.caps.ghosts > 0 && a != b && cfg.hash(a) == cfg.hash(b)
    requires Filled(cfg, d, a, b, cfg.maxMemory)
    ensures var (d', n) := EvictS3(cfg, d, [ShardOf(cfg, a)]);
            && n == EntrySize(a, d.entries[a]) && d'.used == d.used - n
            && |d'.queues| == cfg.numShards && !QueueOk(cfg, d'.queues[ShardOf(cfg, a)], keys)
  {
    hide PairQueues, PopVictim, QueueOk, EntrySize, EvictS3, ToDecimal;
    CollidingPair(cfg, a, b, keys);
    VictimGoes(cfg, d, ShardOf(cfg, a), a);
  }

  /** An eviction that draws a shard whose oldest Small key is stored there. */
  lemma {:induction false} VictimGoes(cfg: Config, d: Db, i: nat, k: Bytes)
    requires i < cfg.numShards == |d.queues| && k in d.entries && ShardOf(cfg, k) == i
    requires PopVictim(d.queues[i], cfg.hash, cfg.caps).1 == Some(k)
    ensures var (d', n) := EvictS3(cfg, d, [i]);
            && n == EntrySize(k, d.entries[k]) && d'.used == d.used - n
            && |d'.queues| == |d.queues| && d'.queues[i] == PopVictim(d.queues[i], cfg.hash, cfg.caps).0
  {
    hide PopVictim, EntrySize, ShardOf;
    assert i % cfg.numShards == i;
  }

  lemma {:induction false} LastSet(cfg: Config, d: Db, a: Bytes, b: Bytes, keys: iset<Bytes>)
    requires cfg.policy == AllKeysS3Fifo && cfg.maxMemory > 0 && cfg.caps.small >= 2 && cfg.caps.ghosts > 0
    requires a != b && cfg.hash(a) == cfg.hash(b) && Filled(cfg, d, a, b, cfg.maxMemory)
    ensures !QueuesSound(cfg, Execute(cfg, d, [SET, a, []], 0, [Pick(None, [ShardOf(cfg, a)])]).0, keys)
  {
    var picks, needed := [Pick(None, [ShardOf(cfg, a)])], Size(a, Str([]));
    ExecuteSet(cfg, d, a, [], 0, picks);
    EvictsFirst(cfg, d, a, b, keys);
    HashIsLarge(a, map[[] := []]);
    hide EvictS3, QueueOk, PairQueues, Execute, ToDecimal, FieldBytes;
    var (d', n) := EvictS3(cfg, d, [ShardOf(cfg, a)]);
    assert EvictOne(cfg, d, picks[0]) == (d', n);
    assert EvictLoop(cfg, d', needed, picks[1..], n, 1) == d';
    assert EvictLoop(cfg, d, needed, picks, 0, 0) == d';
  }

  /**
   * Of two keys with the same hash in Small, evicting the older leaves the younger one's hash
   * among the ghosts. Any server with a memory limit and room for two keys in Small can be made
   * to do so, by requests that its parser accepts and one draw.
   */
  lemma {:induction false} CollisionBreaks(cfg: Config, a: Bytes, b: Bytes, keys: iset<Bytes>)
    requires cfg.policy == AllKeysS3Fifo && cfg.maxMemory > 0 && cfg.caps.small >= 2 && cfg.caps.ghosts > 0
    requires a != b && cfg.hash(a) == cfg.hash(b)
    ensures !QueuesSound(cfg, Run(cfg, Fresh(cfg), CollidingRun(cfg, a, b)).0, keys)
    ensures |a| <= MAX_STRING_LEN && |b| <= MAX_STRING_LEN && cfg.maxMemory <= U64_MAX ==> Sendable(CollidingRun(cfg, a, b))
  {
    hide Execute, QueuesSound, HSet, Filled, Run, Sendable, ToDecimal;
    var last := Request([SET, a, []], [Pick(None, [ShardOf(cfg, a)])], 0);
    var rest := Filling(b, 1, cfg.maxMemory);
    var d1 := HSet(cfg, Fresh(cfg), a, [([], [])], 0).0;
    var d2 := HSet(cfg, d1, b, [(ToDecimal(0), [])], 0).0;
    ExecuteHSet(cfg, Fresh(cfg), a, [], []);
    ExecuteHSet(cfg, d1, b, ToDecimal(0), []);
    assert Filling(b, 0, cfg.maxMemory) + [last] == [FillEvent(b, 0)] + (rest + [last]);
    RunOne(cfg, Fresh(cfg), [HSET, a, [], []], [], 0, [FillEvent(b, 0)] + (rest + [last]));
    RunOne(cfg, d1, [HSET, b, ToDecimal(0), []], [], 0, rest + [last]);
    FirstTwo(cfg, a, b);
    FillRun(cfg, d2, a, b, 1, cfg.maxMemory);
    RunConcat(cfg, d2, rest, [last]);
    var d := Run(cfg, d2, rest).0;
    assert [last] + [] == [last];
    RunOne(cfg, d, [SET, a, []], [Pick(None, [ShardOf(cfg, a)])], 0, []);
    RunNothing(cfg, Execute(cfg, d, [SET, a, []], 0, [Pick(None, [ShardOf(cfg, a)])]).0);
    LastSet(cfg, d, a, b, keys);
    if |a| <= MAX_STRING_LEN && |b| <= MAX_STRING_LEN && cfg.maxMemory <= U64_MAX {
      RunSendable(cfg, a, b);
    }
  }

  /**
   * The S3-FIFO invariant, exactly: it holds over every run that writes these keys if and only if
   * the queues are not used, or there is no memory limit, or Small holds one key, or the hash
   * tells the keys apart.
   */
  lemma {:induction false} InvariantExactly(cfg: Config, keys: iset<Bytes>)
    requires RealCaps(cfg.caps)
    ensures Protected(cfg, keys)
            <==> forall events :: RunWritesWithin(events, keys) ==> QueuesSound(cfg, Run(cfg, Fresh(cfg), events).0, keys)
  {
    hide QueuesSound, Run, RunWritesWithin, CollidingRun, Sendable;
    if Protected(cfg, keys) {
      forall events | RunWritesWithin(events, keys) ensures QueuesSound(cfg, Run(cfg, Fresh(cfg), events).0, keys) {
        S3FifoInvariant(cfg, map[], 0, events, keys);
      }
    } else {
      var a, b :| a in keys && b in keys && cfg.hash(a) == cfg.hash(b) && a != b;
      CollidingWrites(cfg, a, b, keys);
      CollisionBreaks(cfg, a, b, keys);
    }
  }
}
