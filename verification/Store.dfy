/**
 * The key space of src/store.rs as a value: stored entries, the global memory counter and the
 * S3-FIFO queues of each shard, with every store operation as a function from state to state.
 * Expired entries stay in `entries` until some operation happens to remove them.
 */
module Store {
  import opened Basics
  import opened S3Fifo
  import opened Sums

  datatype Value = Str(bytes: Bytes) | Hash(fields: map<Bytes, Bytes>)

  /** A stored entry; `tag` and `hits` are the S3-FIFO bookkeeping. */
  datatype Entry = Entry(value: Value, expiry: Option<nat>, tag: QueueType, hits: nat)

  datatype Policy = NoEviction | AllKeysLru | AllKeysRandom | AllKeysS3Fifo

  type Positive = n: nat | n > 0 witness 1

  /** The settings the store depends on; a `maxMemory` of zero means no limit. */
  datatype Config = Config(maxMemory: nat, policy: Policy, numShards: Positive, caps: Caps, hash: Bytes -> U64)

  /** Keys are partitioned over shards by hash, so one map stands for all shard maps. */
  datatype Db = Db(entries: map<Bytes, Entry>, used: int, queues: seq<Queues>)

  // ---------------------------------------------------------------- sizes

  ghost function PairSize(field: Bytes, value: Bytes): nat {
    |field| + |value|
  }

  ghost function FieldBytes(fields: map<Bytes, Bytes>): nat {
    Sum(fields, PairSize)
  }

  /** `calculate_entry_size`. */
  ghost function Size(key: Bytes, value: Value): nat {
    match value
    case Str(bytes) => |key| + |bytes| + 64
    case Hash(fields) => |key| + 64 + 128 + FieldBytes(fields)
  }

  ghost function EntrySize(key: Bytes, e: Entry): nat {
    Size(key, e.value)
  }

  /** What the memory counter is meant to track. */
  ghost function Total(entries: map<Bytes, Entry>): nat {
    Sum(entries, EntrySize)
  }

  ghost function Charge(cfg: Config, used: int, delta: int): int {
    if cfg.maxMemory > 0 then used + delta else used
  }

  // ---------------------------------------------------------------- expiry

  predicate Expired(expiry: Option<nat>, now: nat) {
    expiry.Some? && now >= expiry.value
  }

  predicate IsLive(entries: map<Bytes, Entry>, k: Bytes, now: nat) {
    k in entries && !Expired(entries[k].expiry, now)
  }

  function ExpiryAfter(ttl: Option<nat>, now: nat): Option<nat> {
    if ttl.Some? then Some(now + ttl.value) else None
  }

  // ---------------------------------------------------------------- shards and queues

  function ShardOf(cfg: Config, k: Bytes): nat {
    cfg.hash(k) % cfg.numShards
  }

  function QueueAt(db: Db, i: nat): Queues {
    if i < |db.queues| then db.queues[i] else EMPTY
  }

  function SetQueue(db: Db, i: nat, q: Queues): Db {
    if i < |db.queues| then db.(queues := db.queues[i := q]) else db
  }

  predicate UsesQueues(cfg: Config) {
    cfg.policy == AllKeysS3Fifo
  }

  /** Take a stored key out of the queue its tag names. */
  function Untrack(cfg: Config, db: Db, k: Bytes): Db {
    if UsesQueues(cfg) && k in db.entries
    then SetQueue(db, ShardOf(cfg, k), RemoveTagged(QueueAt(db, ShardOf(cfg, k)), k, db.entries[k].tag))
    else db
  }

  /** Choose a queue for a key about to be stored. */
  function Track(cfg: Config, db: Db, k: Bytes): (Db, QueueType) {
    if UsesQueues(cfg) then
      var (q, tag) := Place(QueueAt(db, ShardOf(cfg, k)), k, cfg.hash(k), cfg.caps);
      (SetQueue(db, ShardOf(cfg, k), q), tag)
    else (db, Small)
  }

  /** The access bookkeeping of a read that finds a live entry. */
  function Access(cfg: Config, db: Db, k: Bytes): Db {
    if UsesQueues(cfg) && k in db.entries then
      var e := db.entries[k];
      var (q, tag, hits) := Touch(QueueAt(db, ShardOf(cfg, k)), k, e.tag, e.hits, cfg.caps);
      SetQueue(db, ShardOf(cfg, k), q).(entries := db.entries[k := e.(tag := tag, hits := hits)])
    else db
  }

  // ---------------------------------------------------------------- removal

  /** Take a stored entry away and return its size to the counter; queues are left alone. */
  ghost function Release(cfg: Config, db: Db, k: Bytes): Db {
    if k in db.entries
    then db.(entries := db.entries - {k}, used := Charge(cfg, db.used, 0 - EntrySize(k, db.entries[k])))
    else db
  }

  /** `remove_if` on the expiry, the lazy removal behind every read and every sampling pass. */
  ghost function Reap(cfg: Config, db: Db, k: Bytes, now: nat): Db {
    if k in db.entries && Expired(db.entries[k].expiry, now) then Release(cfg, db, k) else db
  }

  ghost function ReapAll(cfg: Config, db: Db, sample: seq<Bytes>, now: nat): Db
    decreases |sample|
  {
    if sample == [] then db else ReapAll(cfg, Reap(cfg, db, sample[0], now), sample[1..], now)
  }

  ghost function Delete(cfg: Config, db: Db, k: Bytes): Db {
    Release(cfg, Untrack(cfg, db, k), k)
  }

  /** DEL: every stored key goes, but only the unexpired ones are counted. */
  ghost function DeleteAll(cfg: Config, db: Db, keys: seq<Bytes>, now: nat): (Db, nat)
    decreases |keys|
  {
    if keys == [] then (db, 0)
    else
      var (d, n) := DeleteAll(cfg, Delete(cfg, db, keys[0]), keys[1..], now);
      (d, n + if IsLive(db.entries, keys[0], now) then 1 else 0)
  }

  // ---------------------------------------------------------------- strings

  /** `set`: whatever was stored, expired or not, is replaced; the counter is the caller's business. */
  function Set(cfg: Config, db: Db, k: Bytes, v: Bytes, ttl: Option<nat>, now: nat): Db {
    var (d, tag) := Track(cfg, Untrack(cfg, db, k), k);
    d.(entries := db.entries[k := Entry(Str(v), ExpiryAfter(ttl, now), tag, 0)])
  }

  /** `set` and the accounting that SET, INCR and MSET do after it. */
  ghost function SetAndCharge(cfg: Config, db: Db, k: Bytes, v: Bytes, ttl: Option<nat>, now: nat): Db {
    var prev := if k in db.entries then EntrySize(k, db.entries[k]) else 0;
    Set(cfg, db, k, v, ttl, now).(used := Charge(cfg, db.used, Size(k, Str(v)) - prev))
  }

  ghost function Get(cfg: Config, db: Db, k: Bytes, now: nat): (Db, Option<Bytes>) {
    if IsLive(db.entries, k, now)
    then (Access(cfg, db, k), if db.entries[k].value.Str? then Some(db.entries[k].value.bytes) else None)
    else (Reap(cfg, db, k, now), None)
  }

  // ---------------------------------------------------------------- hashes

  type Pairs = seq<(Bytes, Bytes)>

  /** Insert field by field; also how many fields were new when inserted. */
  function PutAll(fields: map<Bytes, Bytes>, pairs: Pairs): (map<Bytes, Bytes>, nat)
    decreases |pairs|
  {
    if pairs == [] then (fields, 0)
    else
      var (m, n) := PutAll(fields[pairs[0].0 := pairs[0].1], pairs[1..]);
      (m, n + if pairs[0].0 in fields then 0 else 1)
  }

  /** Remove field by field; also how many were there to remove. */
  function TakeAll(fields: map<Bytes, Bytes>, names: seq<Bytes>): (map<Bytes, Bytes>, nat) {
    if names == [] then (fields, 0)
    else
      var (m, n) := TakeAll(fields - {names[0]}, names[1..]);
      (m, n + if names[0] in fields then 1 else 0)
  }

  ghost function HSet(cfg: Config, db: Db, k: Bytes, pairs: Pairs, now: nat): (Db, Option<nat>) {
    var d := if k in db.entries && !IsLive(db.entries, k, now) then Delete(cfg, db, k) else db;
    if k in d.entries then
      var e := d.entries[k];
      match e.value
      case Str(_) => (d, None)
      case Hash(fields) =>
        var (m, n) := PutAll(fields, pairs);
        (d.(entries := d.entries[k := e.(value := Hash(m))],
            used := Charge(cfg, d.used, Size(k, Hash(m)) - Size(k, e.value))), Some(n))
    else
      var (d', tag) := Track(cfg, d, k);
      var (m, n) := PutAll(map[], pairs);
      (d'.(entries := d.entries[k := Entry(Hash(m), None, tag, 0)],
           used := Charge(cfg, d.used, Size(k, Hash(m)))), Some(n))
  }

  /** HGET and HGETALL share their access path; `None` stands for the wrong type. */
  ghost function ReadHash(cfg: Config, db: Db, k: Bytes, now: nat): (Db, Option<map<Bytes, Bytes>>) {
    if IsLive(db.entries, k, now)
    then (Access(cfg, db, k), if db.entries[k].value.Hash? then Some(db.entries[k].value.fields) else None)
    else (Reap(cfg, db, k, now), Some(map[]))
  }

  /**
   * HDEL. An emptied hash is dropped without touching the queues, and its size is taken after
   * its fields have gone, so only the fixed overhead is returned to the counter.
   */
  ghost function HDel(cfg: Config, db: Db, k: Bytes, names: seq<Bytes>, now: nat): (Db, Option<nat>) {
    if !IsLive(db.entries, k, now) then (Reap(cfg, db, k, now), Some(0))
    else
      var e := db.entries[k];
      match e.value
      case Str(_) => (db, None)
      case Hash(fields) =>
        var (m, n) := TakeAll(fields, names);
        if n == 0 then (db, Some(0))
        else if m == map[] then
          (db.(entries := db.entries - {k}, used := Charge(cfg, db.used, 0 - Size(k, Hash(m)))), Some(n))
        else
          (db.(entries := db.entries[k := e.(value := Hash(m))],
               used := Charge(cfg, db.used, Size(k, Hash(m)) - Size(k, e.value))), Some(n))
  }

  // ---------------------------------------------------------------- existence and expiry times

  /** EXISTS counts a repeated key each time it is named. */
  function CountLive(db: Db, keys: seq<Bytes>, now: nat): nat {
    if keys == [] then 0
    else (if IsLive(db.entries, keys[0], now) then 1 else 0) + CountLive(db, keys[1..], now)
  }


  function SetExpiry(db: Db, k: Bytes, expiry: Option<nat>): Db
    requires k in db.entries
  {
    db.(entries := db.entries[k := db.entries[k].(expiry := expiry)])
  }

  // ---------------------------------------------------------------- eviction

  /** One random draw: the sampled victim, or the shards the S3-FIFO eviction visits in turn. */
  datatype Pick = Pick(victim: Option<Bytes>, shards: seq<nat>)

  const MAX_ATTEMPTS: nat := 100

  /** Remove a victim from the store; the number of bytes given back. */
  ghost function Expel(db: Db, k: Bytes): (Db, nat)
    requires k in db.entries
  {
    (db.(entries := db.entries - {k}, used := db.used - EntrySize(k, db.entries[k])),
     EntrySize(k, db.entries[k]))
  }

  /** `evict_s3fifo`: pop a queue; a popped key that its shard no longer stores only costs a turn. */
  ghost function EvictS3(cfg: Config, db: Db, shards: seq<nat>): (Db, nat)
    decreases |shards|
  {
    if shards == [] then (db, 0)
    else
      var i := shards[0] % cfg.numShards;
      var (q, victim) := PopVictim(QueueAt(db, i), cfg.hash, cfg.caps);
      var d := SetQueue(db, i, q);
      if victim.Some? && victim.value in d.entries && ShardOf(cfg, victim.value) == i then Expel(d, victim.value)
      else EvictS3(cfg, d, shards[1..])
  }

  ghost function EvictOne(cfg: Config, db: Db, pick: Pick): (Db, nat) {
    match cfg.policy
    case NoEviction => (db, 0)
    case AllKeysS3Fifo => EvictS3(cfg, db, pick.shards)
    case _ => if pick.victim.Some? && pick.victim.value in db.entries then Expel(db, pick.victim.value) else (db, 0)
  }

  /** Evict until `needed` bytes are freed, the attempts run out, or an attempt finds nothing. */
  ghost function EvictLoop(cfg: Config, db: Db, needed: nat, picks: seq<Pick>, freed: nat, attempts: nat): Db
    decreases |picks|
  {
    if freed >= needed || attempts >= MAX_ATTEMPTS || picks == [] then db
    else
      var (d, n) := EvictOne(cfg, db, picks[0]);
      if n == 0 then d else EvictLoop(cfg, d, needed, picks[1..], freed + n, attempts + 1)
  }

  /** `evict_if_needed`: may a write that needs this much more go ahead? */
  ghost function EvictIfNeeded(cfg: Config, db: Db, needed: nat, picks: seq<Pick>): (Db, bool) {
    if cfg.maxMemory == 0 || db.used + needed <= cfg.maxMemory then (db, true)
    else if cfg.policy == NoEviction then (db, false)
    else
      var d := EvictLoop(cfg, db, needed, picks, 0, 0);
      (d, d.used + needed <= cfg.maxMemory)
  }

  /** Writes ask for room only when they need some. */
  ghost function Admit(cfg: Config, db: Db, needed: int, picks: seq<Pick>): (Db, bool) {
    if needed > 0 then EvictIfNeeded(cfg, db, needed, picks) else (db, true)
  }

  // ---------------------------------------------------------------- flush

  ghost function LiveEntries(entries: map<Bytes, Entry>, now: nat): map<Bytes, Entry> {
    map k | k in entries && !Expired(entries[k].expiry, now) :: entries[k]
  }

  /** FLUSHDB and FLUSHALL subtract only the sizes of unexpired entries, down to zero at most. */
  ghost function Flush(db: Db, now: nat): Db {
    var freed := Total(LiveEntries(db.entries, now));
    db.(entries := map[], used := if freed >= db.used then 0 else db.used - freed)
  }

  /** A fresh server. */
  function Fresh(cfg: Config): Db {
    Db(map[], 0, seq(cfg.numShards, _ => EMPTY))
  }
}
