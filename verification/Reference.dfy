/**
 * Expiry transparency. `Execute` works on a store in which expired entries linger; the reference
 * semantics here works on a plain map of unexpired items and never looks at the clock except to
 * compute new expiry times. The two give the same replies on every run.
 */
module Reference {
  import opened Basics
  import opened Decimal
  import opened S3Fifo
  import opened Store
  import opened Commands

  /** What a client can know about a key. */
  datatype Item = Item(value: Value, expiry: Option<nat>)

  type Keyspace = map<Bytes, Item>

  /** The unexpired part of a store. */
  function Live(entries: map<Bytes, Entry>, now: nat): Keyspace {
    map k | k in entries && IsLive(entries, k, now) :: Item(entries[k].value, entries[k].expiry)
  }

  /** Time passing. */
  function Purge(m: Keyspace, now: nat): Keyspace {
    map k | k in m && !Expired(m[k].expiry, now) :: m[k]
  }

  /** The outcome of a request for memory: whether it is granted, and which keys it cost. */
  datatype Admission = Admission(ok: bool, victims: set<Bytes>)

  const GRANTED: Admission := Admission(true, {})

  // ---------------------------------------------------------------- reference semantics

  function StringIn(m: Keyspace, k: Bytes): Option<Bytes> {
    if k in m && m[k].value.Str? then Some(m[k].value.bytes) else None
  }

  function RefSet(m0: Keyspace, cmd: Command, now: nat, adm: Admission): (Keyspace, Reply) {
    if |cmd| < 3 then (m0, Error(WrongArity))
    else
      var m := m0 - adm.victims;
      if !adm.ok then (m, Error(OutOfMemory))
      else
        match ParseOptions(cmd, 3, NO_OPTIONS)
        case Failed(e) => (m, Error(e))
        case Ok(o) =>
          var prev := StringIn(m, cmd[1]);
          if (o.nx && prev.Some?) || (o.xx && prev.None?) then (m, if o.get then BulkOrNil(prev) else Nil)
          else (m[cmd[1] := Item(Str(cmd[2]), ExpiryAfter(o.ttl, now))], if o.get then BulkOrNil(prev) else Okay)
  }

  function RefIncr(m: Keyspace, k: Bytes, delta: int, adm: Admission): (Keyspace, Reply) {
    if k in m && m[k].value.Hash? then (m, Error(WrongType))
    else
      var current := if k in m then ParseI64(m[k].value.bytes) else Some(0);
      if current.None? then (m, Error(NotAnInteger))
      else if !(I64_MIN <= current.value + delta <= I64_MAX) then
        (m, Error(if delta > 0 then IncrOverflow else DecrOverflow))
      else RefIncrWrite(m, k, current.value + delta, if k in m then m[k].expiry else None, adm)
  }

  function RefIncrWrite(m: Keyspace, k: Bytes, sum: int, expiry: Option<nat>, adm: Admission): (Keyspace, Reply) {
    if !adm.ok then (m - adm.victims, Error(OutOfMemory))
    else ((m - adm.victims)[k := Item(Str(SignedDecimal(sum)), expiry)], Integer(sum))
  }

  function RefPutStrings(m: Keyspace, pairs: Pairs): Keyspace
    decreases |pairs|
  {
    if pairs == [] then m else RefPutStrings(m[pairs[0].0 := Item(Str(pairs[0].1), None)], pairs[1..])
  }

  function RefMSet(m: Keyspace, cmd: Command, adm: Admission): (Keyspace, Reply) {
    if |cmd| < 3 || (|cmd| - 1) % 2 != 0 then (m, Error(WrongArity))
    else if !adm.ok then (m - adm.victims, Error(OutOfMemory))
    else (RefPutStrings(m - adm.victims, MSetPairs(cmd, 1)), Okay)
  }

  /** DEL removes the named keys; its reply is the number of distinct ones that were there. */
  function RefDel(m: Keyspace, keys: seq<Bytes>): (Keyspace, Reply) {
    var named := Elements(keys);
    (m - named, Integer(|m.Keys * named|))
  }

  function RefExpire(m: Keyspace, cmd: Command, now: nat): (Keyspace, Reply) {
    if |cmd| < 3 then (m, Error(WrongArity))
    else
      match ParseI64(cmd[2])
      case None => (m, Error(NotAnInteger))
      case Some(seconds) =>
        if cmd[1] !in m then (m, Integer(0))
        else if seconds <= 0 then (m - {cmd[1]}, Integer(1))
        else (m[cmd[1] := m[cmd[1]].(expiry := Some(now + seconds))], Integer(1))
  }

  function RefPersist(m: Keyspace, k: Bytes): (Keyspace, Reply) {
    if k in m && m[k].expiry.Some? then (m[k := m[k].(expiry := None)], Integer(1)) else (m, Integer(0))
  }

  /** HSET adds fields to a hash, or makes a new one; its reply is by how many fields it grew. */
  function RefHSet(m: Keyspace, cmd: Command): (Keyspace, Reply) {
    if |cmd| < 4 || (|cmd| - 2) % 2 != 0 then (m, Error(WrongArity))
    else
      var k := cmd[1];
      if k in m && m[k].value.Str? then (m, Error(WrongType))
      else
        var fields := if k in m then m[k].value.fields else map[];
        var fields' := PutAll(fields, MSetPairs(cmd, 2)).0;
        (m[k := Item(Hash(fields'), if k in m then m[k].expiry else None)], Integer(|fields'| - |fields|))
  }

  /** HDEL removes fields, and the key with its last field; its reply is how many fields went. */
  function RefHDel(m: Keyspace, cmd: Command): (Keyspace, Reply) {
    if |cmd| < 3 then (m, Error(WrongArity))
    else
      var k := cmd[1];
      if k !in m then (m, Integer(0))
      else if m[k].value.Str? then (m, Error(WrongType))
      else
        var fields := m[k].value.fields;
        var left := fields - Elements(cmd[2..]);
        (if |left| == |fields| then m
         else if left == map[] then m - {k}
         else m[k := m[k].(value := Hash(left))],
         Integer(|fields| - |left|))
  }

  function RefHGet(m: Keyspace, k: Bytes, field: Bytes): Reply {
    if k !in m then Nil
    else if m[k].value.Str? then Error(WrongType)
    else if field in m[k].value.fields then Bulk(m[k].value.fields[field]) else Nil
  }

  function RefTtl(m: Keyspace, k: Bytes, now: nat, millis: bool): Reply {
    if k !in m then Integer(-2)
    else if m[k].expiry.None? then Integer(-1)
    else
      var left := if m[k].expiry.value >= now then m[k].expiry.value - now else 0;
      Integer(if millis then Saturate(left * 1000) else AsI64(left))
  }

  function CountIn(m: Keyspace, keys: seq<Bytes>): nat {
    if keys == [] then 0 else (if keys[0] in m then 1 else 0) + CountIn(m, keys[1..])
  }

  /** The reads that need at least one key. */
  function RefRead(m: Keyspace, op: Op, cmd: Command, now: nat): Reply
    requires |cmd| >= 2
  {
    var k := cmd[1];
    match op
    case GetOp => BulkOrNil(StringIn(m, k))
    case MGetOp => Many(seq(|cmd| - 1, i requires 0 <= i < |cmd| - 1 => BulkOrNil(StringIn(m, cmd[i + 1]))))
    case TtlOp => RefTtl(m, k, now, false)
    case PttlOp => RefTtl(m, k, now, true)
    case ExistsOp => Integer(CountIn(m, cmd[1..]))
    case TypeOp => TypeIs(if k !in m then NoKey else if m[k].value.Str? then StringKey else HashKey)
    case HGetAllOp =>
      if k !in m then FieldMap(map[])
      else if m[k].value.Str? then Error(WrongType) else FieldMap(m[k].value.fields)
    case _ => Unmodelled
  }

  /** A command against a key space with no expired keys in it. */
  function RefExecute(m: Keyspace, cmd: Command, now: nat, adm: Admission): (Keyspace, Reply) {
    if cmd == [] then (m, Error(EmptyCommand)) else RefDispatch(m, OpOf(cmd[0]), cmd, now, adm)
  }

  function RefDispatch(m: Keyspace, op: Op, cmd: Command, now: nat, adm: Admission): (Keyspace, Reply) {
    match op
    case SetOp => RefSet(m, cmd, now, adm)
    case MSetOp => RefMSet(m, cmd, adm)
    case ExpireOp => RefExpire(m, cmd, now)
    case HSetOp => RefHSet(m, cmd)
    case HDelOp => RefHDel(m, cmd)
    case IncrOp | DecrOp | IncrByOp | DecrByOp =>
      (match DeltaOf(op, cmd)
       case Failed(e) => (m, Error(e))
       case Ok(delta) => RefIncr(m, cmd[1], delta, adm))
    case KeysOp => (m, KeySet(m.Keys))
    case DbSizeOp => (m, Integer(|m|))
    case InfoOp => (m, Info(|m|))
    case ScanOp => (m, Unmodelled)
    case FlushOp => (map[], Okay)
    case AdminOp => (m, Unmodelled)
    case UnknownOp => (m, Error(UnknownCommand))
    case HGetOp => (m, if |cmd| < 3 then Error(WrongArity) else RefHGet(m, cmd[1], cmd[2]))
    case DelOp => if |cmd| < 2 then (m, Error(WrongArity)) else RefDel(m, cmd[1..])
    case PersistOp => if |cmd| < 2 then (m, Error(WrongArity)) else RefPersist(m, cmd[1])
    case _ => (m, if |cmd| < 2 then Error(WrongArity) else RefRead(m, op, cmd, now))
  }

  /** The reference's effect on the key space, group by group. */
  lemma {:induction false} RefWrites(m: Keyspace, op: Op, cmd: Command, now: nat, adm: Admission)
    ensures op == SetOp ==> RefDispatch(m, op, cmd, now, adm).0 == RefSet(m, cmd, now, adm).0
    ensures op == MSetOp ==> RefDispatch(m, op, cmd, now, adm).0 == RefMSet(m, cmd, adm).0
    ensures op == ExpireOp ==> RefDispatch(m, op, cmd, now, adm).0 == RefExpire(m, cmd, now).0
  {
    hide RefSet, RefMSet, RefExpire, RefHSet, RefHDel, RefDel, RefPersist, RefIncr, RefRead, RefHGet, DeltaOf;
  }

  lemma {:induction false} RefHashes(m: Keyspace, op: Op, cmd: Command, now: nat, adm: Admission)
    ensures op == HSetOp ==> RefDispatch(m, op, cmd, now, adm).0 == RefHSet(m, cmd).0
    ensures op == HDelOp ==> RefDispatch(m, op, cmd, now, adm).0 == RefHDel(m, cmd).0
    ensures op == HGetOp ==> RefDispatch(m, op, cmd, now, adm).0 == m
  {
    hide RefSet, RefMSet, RefExpire, RefHSet, RefHDel, RefDel, RefPersist, RefIncr, RefRead, RefHGet, DeltaOf;
  }

  lemma {:induction false} RefWhole(m: Keyspace, op: Op, cmd: Command, now: nat, adm: Admission)
    ensures op == FlushOp ==> RefDispatch(m, op, cmd, now, adm).0 == map[]
    ensures IsPassive(op) ==> RefDispatch(m, op, cmd, now, adm).0 == m
  {
    hide RefSet, RefMSet, RefExpire, RefHSet, RefHDel, RefDel, RefPersist, RefIncr, RefRead, RefHGet, DeltaOf;
  }

  lemma {:induction false} RefOnKeys(m: Keyspace, op: Op, cmd: Command, now: nat, adm: Admission)
    requires IsOnKeys(op)
    ensures RefDispatch(m, op, cmd, now, adm).0
            == if |cmd| < 2 then m
               else if op == DelOp then RefDel(m, cmd[1..]).0
               else if op == PersistOp then RefPersist(m, cmd[1]).0
               else m
  {
    hide RefSet, RefMSet, RefExpire, RefHSet, RefHDel, RefDel, RefPersist, RefIncr, RefRead, RefHGet, DeltaOf;
  }

  lemma {:induction false} RefIncrs(m: Keyspace, op: Op, cmd: Command, now: nat, adm: Admission)
    requires IsIncr(op)
    ensures match DeltaOf(op, cmd)
            case Failed(_) => RefDispatch(m, op, cmd, now, adm).0 == m
            case Ok(delta) => |cmd| >= 2 && RefDispatch(m, op, cmd, now, adm).0 == RefIncr(m, cmd[1], delta, adm).0
  {
    hide RefSet, RefMSet, RefExpire, RefHSet, RefHDel, RefDel, RefPersist, RefIncr, RefRead, RefHGet;
  }

  lemma {:induction false} RefDispatchCases(m: Keyspace, op: Op, cmd: Command, now: nat, adm: Admission)
    ensures var d := RefDispatch(m, op, cmd, now, adm).0;
            && (op == SetOp ==> d == RefSet(m, cmd, now, adm).0)
            && (op == MSetOp ==> d == RefMSet(m, cmd, adm).0)
            && (op == ExpireOp ==> d == RefExpire(m, cmd, now).0)
            && (op == HSetOp ==> d == RefHSet(m, cmd).0)
            && (op == HDelOp ==> d == RefHDel(m, cmd).0)
            && (op == FlushOp ==> d == map[])
            && (op == DelOp ==> d == if |cmd| < 2 then m else RefDel(m, cmd[1..]).0)
            && (op == PersistOp ==> d == if |cmd| < 2 then m else RefPersist(m, cmd[1]).0)
            && (IsPassive(op) || op == HGetOp || (IsOnKeys(op) && op != DelOp && op != PersistOp) ==> d == m)
    ensures IsIncr(op) ==>
              match DeltaOf(op, cmd)
              case Failed(_) => RefDispatch(m, op, cmd, now, adm).0 == m
              case Ok(delta) => |cmd| >= 2 && RefDispatch(m, op, cmd, now, adm).0 == RefIncr(m, cmd[1], delta, adm).0
  {
    hide RefDispatch, RefSet, RefMSet, RefExpire, RefHSet, RefHDel, RefDel, RefPersist, RefIncr, DeltaOf;
    RefWrites(m, op, cmd, now, adm);
    RefHashes(m, op, cmd, now, adm);
    RefWhole(m, op, cmd, now, adm);
    if IsOnKeys(op) {
      RefOnKeys(m, op, cmd, now, adm);
    } else if IsIncr(op) {
      RefIncrs(m, op, cmd, now, adm);
    }
  }

  // ---------------------------------------------------------------- how the store's steps look from outside

  lemma {:induction false} LiveAt(entries: map<Bytes, Entry>, now: nat, k: Bytes)
    ensures k in Live(entries, now) <==> IsLive(entries, k, now)
    ensures k in Live(entries, now) ==> Live(entries, now)[k] == Item(entries[k].value, entries[k].expiry)
  {
  }

  lemma {:induction false} LiveUpdate(entries: map<Bytes, Entry>, k: Bytes, e: Entry, now: nat)
    requires !Expired(e.expiry, now)
    ensures Live(entries[k := e], now) == Live(entries, now)[k := Item(e.value, e.expiry)]
  {
  }

  lemma {:induction false} LiveRemove(entries: map<Bytes, Entry>, k: Bytes, now: nat)
    ensures Live(entries - {k}, now) == Live(entries, now) - {k}
  {
  }

  lemma {:induction false} LiveReap(cfg: Config, db: Db, k: Bytes, now: nat)
    ensures Live(Reap(cfg, db, k, now).entries, now) == Live(db.entries, now)
  {
  }

  lemma {:induction false} LiveAccess(cfg: Config, db: Db, k: Bytes, now: nat)
    ensures Live(Access(cfg, db, k).entries, now) == Live(db.entries, now)
  {
  }

  lemma {:induction false} LiveGet(cfg: Config, db: Db, k: Bytes, now: nat)
    ensures Live(Get(cfg, db, k, now).0.entries, now) == Live(db.entries, now)
    ensures Get(cfg, db, k, now).1 == StringIn(Live(db.entries, now), k)
  {
    LiveReap(cfg, db, k, now);
    LiveAccess(cfg, db, k, now);
  }

  lemma {:induction false} LiveDelete(cfg: Config, db: Db, k: Bytes, now: nat)
    ensures Live(Delete(cfg, db, k).entries, now) == Live(db.entries, now) - {k}
  {
  }

  lemma {:induction false} DropNothing<V>(m: map<Bytes, V>)
    ensures m - {} == m && m.Keys * {} == {}
  {
  }

  lemma {:induction false} DropOneThenRest<V>(m: map<Bytes, V>, k: Bytes, rest: set<Bytes>)
    ensures m - {k} - rest == m - ({k} + rest)
  {
  }

  lemma {:induction false} CountOneThenRest(keys: set<Bytes>, k: Bytes, rest: set<Bytes>)
    ensures |keys * ({k} + rest)| == |(keys - {k}) * rest| + (if k in keys then 1 else 0)
  {
    var tail := (keys - {k}) * rest;
    if k in keys {
      assert keys * ({k} + rest) == tail + {k};
    } else {
      assert keys * ({k} + rest) == tail;
    }
  }

  lemma {:induction false} LiveDeleteAll(cfg: Config, db: Db, keys: seq<Bytes>, now: nat)
    ensures Live(DeleteAll(cfg, db, keys, now).0.entries, now) == Live(db.entries, now) - Elements(keys)
    ensures DeleteAll(cfg, db, keys, now).1 == |Live(db.entries, now).Keys * Elements(keys)|
    decreases |keys|
  {
    var m := Live(db.entries, now);
    ElementsCons(keys);
    if keys == [] {
      DropNothing(m);
    } else {
      LiveDelete(cfg, db, keys[0], now);
      LiveDeleteAll(cfg, Delete(cfg, db, keys[0]), keys[1..], now);
      DropOneThenRest(m, keys[0], Elements(keys[1..]));
      CountOneThenRest(m.Keys, keys[0], Elements(keys[1..]));
      assert (m - {keys[0]}).Keys == m.Keys - {keys[0]};
    }
  }

  lemma {:induction false} LiveSet(cfg: Config, db: Db, k: Bytes, v: Bytes, ttl: Option<nat>, now: nat)
    requires ttl.Some? ==> ttl.value > 0
    ensures Live(SetAndCharge(cfg, db, k, v, ttl, now).entries, now)
            == Live(db.entries, now)[k := Item(Str(v), ExpiryAfter(ttl, now))]
  {
  }

  lemma {:induction false} LiveSetPairs(cfg: Config, db: Db, pairs: Pairs, now: nat)
    ensures Live(SetPairs(cfg, db, pairs, now).entries, now) == RefPutStrings(Live(db.entries, now), pairs)
    decreases |pairs|
  {
    if pairs != [] {
      var (k, v) := pairs[0];
      LiveSet(cfg, db, k, v, None, now);
      LiveSetPairs(cfg, SetAndCharge(cfg, db, k, v, None, now), pairs[1..], now);
    }
  }

  // ---------------------------------------------------------------- eviction only removes keys

  /** `after` is `before` less some entries. */
  ghost predicate Shrinks(before: map<Bytes, Entry>, after: map<Bytes, Entry>) {
    after.Keys <= before.Keys && forall k :: k in after ==> after[k] == before[k]
  }

  lemma {:induction false} EvictS3Shrinks(cfg: Config, db: Db, shards: seq<nat>)
    ensures Shrinks(db.entries, EvictS3(cfg, db, shards).0.entries)
    decreases |shards|
  {
    if shards != [] {
      var i := shards[0] % cfg.numShards;
      var (q, victim) := PopVictim(QueueAt(db, i), cfg.hash, cfg.caps);
      EvictS3Shrinks(cfg, SetQueue(db, i, q), shards[1..]);
    }
  }

  lemma {:induction false} EvictLoopShrinks(cfg: Config, db: Db, needed: nat, picks: seq<Pick>, freed: nat, attempts: nat)
    ensures Shrinks(db.entries, EvictLoop(cfg, db, needed, picks, freed, attempts).entries)
    decreases |picks|
  {
    if picks != [] {
      EvictS3Shrinks(cfg, db, picks[0].shards);
      var (d, n) := EvictOne(cfg, db, picks[0]);
      EvictLoopShrinks(cfg, d, needed, picks[1..], freed + n, attempts + 1);
    }
  }

  lemma {:induction false} AdmitShrinks(cfg: Config, db: Db, needed: int, picks: seq<Pick>)
    ensures Shrinks(db.entries, Admit(cfg, db, needed, picks).0.entries)
  {
    if needed > 0 {
      EvictLoopShrinks(cfg, db, needed, picks, 0, 0);
    }
  }

  ghost function AdmissionFor(cfg: Config, db: Db, needed: int, picks: seq<Pick>): Admission {
    var (d, ok) := Admit(cfg, db, needed, picks);
    Admission(ok, db.entries.Keys - d.entries.Keys)
  }

  lemma {:induction false} LiveAdmit(cfg: Config, db: Db, needed: int, picks: seq<Pick>, now: nat)
    ensures Live(Admit(cfg, db, needed, picks).0.entries, now)
            == Live(db.entries, now) - AdmissionFor(cfg, db, needed, picks).victims
  {
    AdmitShrinks(cfg, db, needed, picks);
  }

  /** The admission decision a command meets, if it asks for memory at all. */
  ghost function AdmissionOf(cfg: Config, db: Db, cmd: Command, now: nat, picks: seq<Pick>): Admission {
    if cmd == [] then GRANTED else AdmissionOfOp(cfg, db, OpOf(cmd[0]), cmd, now, picks)
  }

  ghost function AdmissionOfOp(cfg: Config, db: Db, op: Op, cmd: Command, now: nat, picks: seq<Pick>): Admission {
    match op
    case SetOp => if |cmd| < 3 then GRANTED else AdmissionFor(cfg, db, Size(cmd[1], Str(cmd[2])), picks)
    case MSetOp => AdmissionFor(cfg, db, NetSize(db, MSetPairs(cmd, 1), now), picks)
    case IncrOp | DecrOp | IncrByOp | DecrByOp =>
      (match DeltaOf(op, cmd)
       case Failed(_) => GRANTED
       case Ok(delta) => IncrAdmission(cfg, db, cmd[1], delta, now, picks))
    case _ => GRANTED
  }

  ghost function IncrAdmission(cfg: Config, db: Db, k: Bytes, delta: int, now: nat, picks: seq<Pick>): Admission {
    if !IsLive(db.entries, k, now) then
      AdmissionFor(cfg, Reap(cfg, db, k, now), Size(k, Str(SignedDecimal(delta))), picks)
    else if db.entries[k].value.Hash? || ParseI64(db.entries[k].value.bytes).None? then GRANTED
    else
      var sum := ParseI64(db.entries[k].value.bytes).value + delta;
      AdmissionFor(cfg, db, Size(k, Str(SignedDecimal(sum))) - EntrySize(k, db.entries[k]), picks)
  }

  // ---------------------------------------------------------------- command by command

  lemma {:induction false} OptionsTtlPositive(cmd: Command, i: nat, o: SetOptions)
    requires o.ttl.Some? ==> o.ttl.value > 0
    ensures ParseOptions(cmd, i, o).Ok? && ParseOptions(cmd, i, o).value.ttl.Some?
            ==> ParseOptions(cmd, i, o).value.ttl.value > 0
    decreases |cmd| - i
  {
    if i < |cmd| {
      if Named(cmd[i], "ex") || Named(cmd[i], "px") {
        if i + 1 < |cmd| && ParseU64(cmd[i + 1]).Some? && ParseU64(cmd[i + 1]).value > 0 {
          var v: nat := ParseU64(cmd[i + 1]).value;
          OptionsTtlPositive(cmd, i + 2, o.(ttl := Some(if Named(cmd[i], "ex") then v else (v + 999) / 1000)));
        }
      } else {
        OptionsTtlPositive(cmd, i + 1, o.(nx := true));
        OptionsTtlPositive(cmd, i + 1, o.(xx := true));
        OptionsTtlPositive(cmd, i + 1, o.(get := true));
      }
    }
  }

  lemma {:induction false} TransparentSet(cfg: Config, db: Db, cmd: Command, now: nat, picks: seq<Pick>)
    requires |cmd| >= 3
    ensures var adm := AdmissionFor(cfg, db, Size(cmd[1], Str(cmd[2])), picks);
            var (d, r) := ExecSet(cfg, db, cmd, now, picks);
            (Live(d.entries, now), r) == RefSet(Live(db.entries, now), cmd, now, adm)
  {
    var k, v := cmd[1], cmd[2];
    var (d, ok) := Admit(cfg, db, Size(k, Str(v)), picks);
    LiveAdmit(cfg, db, Size(k, Str(v)), picks, now);
    LiveAt(d.entries, now, k);
    assert OldString(d, k, now) == StringIn(Live(d.entries, now), k);
    var o := ParseOptions(cmd, 3, NO_OPTIONS);
    OptionsTtlPositive(cmd, 3, NO_OPTIONS);
    if o.Ok? {
      LiveSet(cfg, d, k, v, o.value.ttl, now);
    }
  }

  lemma {:induction false} TransparentMSet(cfg: Config, db: Db, cmd: Command, now: nat, picks: seq<Pick>)
    ensures var adm := AdmissionFor(cfg, db, NetSize(db, MSetPairs(cmd, 1), now), picks);
            var (d, r) := ExecMSet(cfg, db, cmd, now, picks);
            (Live(d.entries, now), r) == RefMSet(Live(db.entries, now), cmd, adm)
  {
    var pairs := MSetPairs(cmd, 1);
    var d := Admit(cfg, db, NetSize(db, pairs, now), picks).0;
    LiveAdmit(cfg, db, NetSize(db, pairs, now), picks, now);
    LiveSetPairs(cfg, d, pairs, now);
  }

  /** The one data command that is not transparent: an expired hash still has its type checked. */
  predicate ExpiredHash(db: Db, k: Bytes, now: nat) {
    k in db.entries && db.entries[k].value.Hash? && Expired(db.entries[k].expiry, now)
  }

  lemma {:induction false} TransparentIncrWrite(cfg: Config, db: Db, k: Bytes, sum: int, prev: nat, ttl: Option<nat>, now: nat, picks: seq<Pick>)
    requires ttl.Some? ==> ttl.value > 0
    ensures var adm := AdmissionFor(cfg, db, Size(k, Str(SignedDecimal(sum))) - prev, picks);
            var (d, r) := IncrWrite(cfg, db, k, sum, prev, ttl, now, picks);
            (Live(d.entries, now), r) == RefIncrWrite(Live(db.entries, now), k, sum, ExpiryAfter(ttl, now), adm)
  {
    var v := SignedDecimal(sum);
    LiveAdmit(cfg, db, Size(k, Str(v)) - prev, picks, now);
    LiveSet(cfg, Admit(cfg, db, Size(k, Str(v)) - prev, picks).0, k, v, ttl, now);
  }

  lemma {:induction false} TransparentIncr(cfg: Config, db: Db, k: Bytes, delta: int, now: nat, picks: seq<Pick>)
    requires !ExpiredHash(db, k, now) && I64_MIN <= delta <= I64_MAX
    ensures var (d, r) := ExecIncr(cfg, db, k, delta, now, picks);
            (Live(d.entries, now), r)
            == RefIncr(Live(db.entries, now), k, delta, IncrAdmission(cfg, db, k, delta, now, picks))
  {
    hide IncrWrite, RefIncrWrite, AdmissionFor, SignedDecimal, ParseI64, Live, Size;
    LiveAt(db.entries, now, k);
    if !IsLive(db.entries, k, now) {
      LiveReap(cfg, db, k, now);
      TransparentIncrWrite(cfg, Reap(cfg, db, k, now), k, delta, 0, None, now, picks);
    } else {
      var e := db.entries[k];
      if e.value.Str? && ParseI64(e.value.bytes).Some? {
        var ttl := if e.expiry.Some? then Some(e.expiry.value - now) else None;
        var sum := ParseI64(e.value.bytes).value + delta;
        TransparentIncrWrite(cfg, db, k, sum, EntrySize(k, e), ttl, now, picks);
      }
    }
  }

  /** Where it fails, it fails: the store reports a type error for a key that is not there. */
  lemma {:induction false} OpaqueIncr(cfg: Config, db: Db, k: Bytes, delta: int, now: nat, picks: seq<Pick>, adm: Admission)
    requires ExpiredHash(db, k, now) && I64_MIN <= delta <= I64_MAX
    ensures ExecIncr(cfg, db, k, delta, now, picks).1 == Error(WrongType)
    ensures RefIncr(Live(db.entries, now), k, delta, adm).1 != Error(WrongType)
  {
    LiveAt(db.entries, now, k);
  }

  lemma {:induction false} TransparentMGet(cfg: Config, db: Db, keys: seq<Bytes>, now: nat)
    ensures var (d, rs) := ExecMGet(cfg, db, keys, now);
            && Live(d.entries, now) == Live(db.entries, now)
            && |rs| == |keys|
            && forall i :: 0 <= i < |keys| ==> rs[i] == BulkOrNil(StringIn(Live(db.entries, now), keys[i]))
    decreases |keys|
  {
    if keys != [] {
      LiveGet(cfg, db, keys[0], now);
      TransparentMGet(cfg, Get(cfg, db, keys[0], now).0, keys[1..], now);
    }
  }

  lemma {:induction false} CountLiveIsCountIn(db: Db, keys: seq<Bytes>, now: nat)
    ensures CountLive(db, keys, now) == CountIn(Live(db.entries, now), keys)
  {
    if keys != [] {
      LiveAt(db.entries, now, keys[0]);
      CountLiveIsCountIn(db, keys[1..], now);
    }
  }

  lemma {:induction false} TransparentExpire(cfg: Config, db: Db, cmd: Command, now: nat)
    ensures var (d, r) := ExecExpire(cfg, db, cmd, now);
            (Live(d.entries, now), r) == RefExpire(Live(db.entries, now), cmd, now)
  {
    if |cmd| >= 3 {
      var k := cmd[1];
      LiveAt(db.entries, now, k);
      LiveReap(cfg, db, k, now);
      LiveDeleteOne(cfg, db, k, now);
      if IsLive(db.entries, k, now) && ParseI64(cmd[2]).Some? && ParseI64(cmd[2]).value > 0 {
        LiveUpdate(db.entries, k, db.entries[k].(expiry := Some(now + ParseI64(cmd[2]).value)), now);
      }
    }
  }

  lemma {:induction false} JustOne(m: Keyspace, k: Bytes)
    ensures Elements([k]) == {k}
    ensures |m.Keys * {k}| == if k in m then 1 else 0
    ensures k !in m ==> m - {k} == m
  {
    if k in m {
      assert m.Keys * {k} == {k};
    } else {
      assert m.Keys * {k} == {};
    }
  }

  lemma {:induction false} LiveDeleteOne(cfg: Config, db: Db, k: Bytes, now: nat)
    ensures var m := Live(db.entries, now);
            && DeleteAll(cfg, db, [k], now).1 == (if k in m then 1 else 0)
            && Live(DeleteAll(cfg, db, [k], now).0.entries, now) == (if k in m then m - {k} else m)
  {
    hide Live, DeleteAll;
    var m := Live(db.entries, now);
    LiveDeleteAll(cfg, db, [k], now);
    JustOne(m, k);
  }

  lemma {:induction false} TransparentPersist(cfg: Config, db: Db, k: Bytes, now: nat)
    ensures var (d, r) := ExecPersist(cfg, db, k, now);
            (Live(d.entries, now), r) == RefPersist(Live(db.entries, now), k)
  {
    LiveAt(db.entries, now, k);
    LiveReap(cfg, db, k, now);
    if IsLive(db.entries, k, now) {
      LiveUpdate(db.entries, k, db.entries[k].(expiry := None), now);
    }
  }

  lemma {:induction false} PutAllCount(fields: map<Bytes, Bytes>, pairs: Pairs)
    ensures PutAll(fields, pairs).1 == |PutAll(fields, pairs).0| - |fields|
    decreases |pairs|
  {
    if pairs != [] {
      var (f, v) := pairs[0];
      PutAllCount(fields[f := v], pairs[1..]);
      assert fields[f := v].Keys == fields.Keys + {f};
      assert |fields[f := v]| == |fields[f := v].Keys| && |fields| == |fields.Keys|;
    }
  }

  lemma {:induction false} DropOneCount<V>(m: map<Bytes, V>, k: Bytes)
    ensures |m - {k}| == |m| - (if k in m then 1 else 0)
  {
    assert (m - {k}).Keys == m.Keys - {k};
    assert |m - {k}| == |(m - {k}).Keys| && |m| == |m.Keys|;
  }

  lemma {:induction false} TakeAllCount(fields: map<Bytes, Bytes>, names: seq<Bytes>)
    ensures TakeAll(fields, names).0 == fields - Elements(names)
    ensures TakeAll(fields, names).1 == |fields| - |fields - Elements(names)|
    decreases |names|
  {
    ElementsCons(names);
    if names == [] {
      DropNothing(fields);
    } else {
      TakeAllCount(fields - {names[0]}, names[1..]);
      DropOneThenRest(fields, names[0], Elements(names[1..]));
      DropOneCount(fields, names[0]);
    }
  }

  lemma {:induction false} TransparentHSet(cfg: Config, db: Db, cmd: Command, now: nat)
    ensures var (d, r) := ExecHSet(cfg, db, cmd, now);
            (Live(d.entries, now), r) == RefHSet(Live(db.entries, now), cmd)
  {
    if |cmd| >= 4 && (|cmd| - 2) % 2 == 0 {
      LiveHSet(cfg, db, cmd[1], MSetPairs(cmd, 2), now);
    }
  }

  lemma {:induction false} LiveHSet(cfg: Config, db: Db, k: Bytes, pairs: Pairs, now: nat)
    ensures var (d, n) := HSet(cfg, db, k, pairs, now);
            var m := Live(db.entries, now);
            if k in m && m[k].value.Str? then n == None && Live(d.entries, now) == m
            else
              var fields := if k in m then m[k].value.fields else map[];
              var fields' := PutAll(fields, pairs).0;
              && n == Some(|fields'| - |fields|)
              && Live(d.entries, now) == m[k := Item(Hash(fields'), if k in m then m[k].expiry else None)]
  {
    LiveAt(db.entries, now, k);
    if IsLive(db.entries, k, now) {
      var e := db.entries[k];
      if e.value.Hash? {
        PutAllCount(e.value.fields, pairs);
        LiveUpdate(db.entries, k, e.(value := Hash(PutAll(e.value.fields, pairs).0)), now);
      }
    } else {
      LiveHSetNew(cfg, db, k, pairs, now);
    }
  }

  /** HSET where nothing live is in the way: the entry it stores and its reply. */
  lemma {:induction false} HSetVacant(cfg: Config, db: Db, d: Db, k: Bytes, pairs: Pairs, now: nat)
    requires !IsLive(db.entries, k, now)
    requires d == if k in db.entries then Delete(cfg, db, k) else db
    ensures var (m, n) := PutAll(map[], pairs);
            && HSet(cfg, db, k, pairs, now).1 == Some(n)
            && HSet(cfg, db, k, pairs, now).0.entries == d.entries[k := Entry(Hash(m), None, Track(cfg, d, k).1, 0)]
  {
    assert k !in d.entries;
  }

  lemma {:induction false} DropAbsent<V>(m: map<Bytes, V>, k: Bytes)
    requires k !in m
    ensures m - {k} == m
  {
  }

  lemma {:induction false} LiveHSetNew(cfg: Config, db: Db, k: Bytes, pairs: Pairs, now: nat)
    requires !IsLive(db.entries, k, now)
    ensures var (d, n) := HSet(cfg, db, k, pairs, now);
            && n == Some(|PutAll(map[], pairs).0|)
            && Live(d.entries, now) == Live(db.entries, now)[k := Item(Hash(PutAll(map[], pairs).0), None)]
  {
    var d := if k in db.entries then Delete(cfg, db, k) else db;
    assert Live(d.entries, now) == Live(db.entries, now) by {
      LiveAt(db.entries, now, k);
      LiveDelete(cfg, db, k, now);
      DropAbsent(Live(db.entries, now), k);
    }
    PutAllCount(map[], pairs);
    LiveUpdate(d.entries, k, Entry(Hash(PutAll(map[], pairs).0), None, Track(cfg, d, k).1, 0), now);
    HSetVacant(cfg, db, d, k, pairs, now);
  }

  lemma {:induction false} TransparentHDel(cfg: Config, db: Db, cmd: Command, now: nat)
    ensures var (d, r) := ExecHDel(cfg, db, cmd, now);
            (Live(d.entries, now), r) == RefHDel(Live(db.entries, now), cmd)
  {
    if |cmd| >= 3 {
      var k := cmd[1];
      LiveAt(db.entries, now, k);
      LiveReap(cfg, db, k, now);
      if IsLive(db.entries, k, now) && db.entries[k].value.Hash? {
        var e := db.entries[k];
        TakeAllCount(e.value.fields, cmd[2..]);
        LiveUpdate(db.entries, k, e.(value := Hash(TakeAll(e.value.fields, cmd[2..]).0)), now);
        LiveRemove(db.entries, k, now);
      }
    }
  }

  lemma {:induction false} TransparentRead(cfg: Config, db: Db, op: Op, cmd: Command, now: nat)
    requires |cmd| >= 2 && op in {GetOp, MGetOp, TtlOp, PttlOp, ExistsOp, TypeOp, HGetAllOp}
    ensures var (d, r) := ExecOnKeys(cfg, db, op, cmd, now);
            Live(d.entries, now) == Live(db.entries, now) && r == RefRead(Live(db.entries, now), op, cmd, now)
  {
    hide ExecMGet, Get, Access, Reap, CountLive, Live;
    var k := cmd[1];
    LiveAt(db.entries, now, k);
    if op == MGetOp {
      TransparentMGet(cfg, db, cmd[1..], now);
      assert ExecMGet(cfg, db, cmd[1..], now).1 == RefRead(Live(db.entries, now), op, cmd, now).replies;
    } else if op == ExistsOp {
      CountLiveIsCountIn(db, cmd[1..], now);
    } else if op == GetOp {
      LiveGet(cfg, db, k, now);
    } else {
      LiveReap(cfg, db, k, now);
      LiveAccess(cfg, db, k, now);
    }
  }

  lemma {:induction false} TransparentHGet(cfg: Config, db: Db, k: Bytes, field: Bytes, now: nat)
    ensures var (d, r) := ExecHGet(cfg, db, k, field, now);
            Live(d.entries, now) == Live(db.entries, now) && r == RefHGet(Live(db.entries, now), k, field)
  {
    LiveAt(db.entries, now, k);
    LiveReap(cfg, db, k, now);
    LiveAccess(cfg, db, k, now);
  }

  // ---------------------------------------------------------------- all commands

  /** An INCR-family command that gets as far as looking at a key holding an expired hash. */
  predicate IncrOnExpiredHash(db: Db, cmd: Command, now: nat) {
    cmd != [] && IsIncr(OpOf(cmd[0])) && DeltaOf(OpOf(cmd[0]), cmd).Ok? && ExpiredHash(db, cmd[1], now)
  }

  predicate IsScan(cmd: Command) {
    cmd != [] && OpOf(cmd[0]) == ScanOp
  }

  /** A DBSIZE or INFO that would count entries no longer there. */
  predicate SizeOfStale(db: Db, cmd: Command, now: nat) {
    cmd != [] && (OpOf(cmd[0]) == DbSizeOp || OpOf(cmd[0]) == InfoOp) && exists k :: k in db.entries && !IsLive(db.entries, k, now)
  }

  lemma {:induction false} NothingStale(entries: map<Bytes, Entry>, now: nat)
    ensures (exists k :: k in entries && !IsLive(entries, k, now)) <==> |Live(entries, now)| != |entries|
  {
    var m := Live(entries, now);
    assert m.Keys <= entries.Keys;
    assert |m| == |m.Keys| && |entries| == |entries.Keys|;
    if k :| k in entries && !IsLive(entries, k, now) {
      assert m.Keys <= entries.Keys - {k};
      SubsetCardinality(m.Keys, entries.Keys - {k});
    } else {
      assert m.Keys == entries.Keys;
    }
  }

  lemma {:induction false} SubsetCardinality<T>(a: set<T>, b: set<T>)
    requires a <= b
    ensures |a| <= |b|
  {
    assert b == a + (b - a);
  }

  ghost predicate Agrees(cfg: Config, db: Db, cmd: Command, now: nat, picks: seq<Pick>) {
    var (d, r) := Execute(cfg, db, cmd, now, picks);
    (Live(d.entries, now), r)
    == RefExecute(Live(db.entries, now), cmd, now, AdmissionOf(cfg, db, cmd, now, picks))
  }

  ghost predicate AgreesOn(cfg: Config, db: Db, op: Op, cmd: Command, now: nat, picks: seq<Pick>) {
    var (d, r) := Dispatch(cfg, db, op, cmd, now, picks);
    (Live(d.entries, now), r)
    == RefDispatch(Live(db.entries, now), op, cmd, now, AdmissionOfOp(cfg, db, op, cmd, now, picks))
  }

  lemma {:induction false} WritesAgree(cfg: Config, db: Db, op: Op, cmd: Command, now: nat, picks: seq<Pick>)
    requires op in {SetOp, MSetOp, ExpireOp}
    ensures AgreesOn(cfg, db, op, cmd, now, picks)
  {
    if op == SetOp {
      if |cmd| >= 3 { TransparentSet(cfg, db, cmd, now, picks); }
    } else if op == MSetOp {
      TransparentMSet(cfg, db, cmd, now, picks);
    } else {
      TransparentExpire(cfg, db, cmd, now);
    }
  }

  lemma {:induction false} HashesAgree(cfg: Config, db: Db, op: Op, cmd: Command, now: nat, picks: seq<Pick>)
    requires op in {HSetOp, HDelOp, HGetOp}
    ensures AgreesOn(cfg, db, op, cmd, now, picks)
  {
    if op == HSetOp {
      TransparentHSet(cfg, db, cmd, now);
    } else if op == HDelOp {
      TransparentHDel(cfg, db, cmd, now);
    } else if |cmd| >= 3 {
      TransparentHGet(cfg, db, cmd[1], cmd[2], now);
    }
  }

  lemma {:induction false} KeyCommandsAgree(cfg: Config, db: Db, op: Op, cmd: Command, now: nat, picks: seq<Pick>)
    requires op in {GetOp, MGetOp, TtlOp, PttlOp, ExistsOp, TypeOp, HGetAllOp, DelOp, PersistOp}
    ensures AgreesOn(cfg, db, op, cmd, now, picks)
  {
    hide DeleteAll, ExecMGet, ExecTtl, ExecPersist, ExecType, ExecHGetAll, Get, CountLive, RefRead, RefPersist, Live;
    if |cmd| >= 2 {
      if op == DelOp {
        LiveDeleteAll(cfg, db, cmd[1..], now);
      } else if op == PersistOp {
        TransparentPersist(cfg, db, cmd[1], now);
      } else {
        TransparentRead(cfg, db, op, cmd, now);
      }
    }
  }

  lemma {:induction false} IncrAgrees(cfg: Config, db: Db, op: Op, cmd: Command, now: nat, picks: seq<Pick>)
    requires IsIncr(op)
    ensures AgreesOn(cfg, db, op, cmd, now, picks) <==> !(DeltaOf(op, cmd).Ok? && ExpiredHash(db, cmd[1], now))
  {
    match DeltaOf(op, cmd)
    case Failed(_) =>
    case Ok(delta) =>
      if ExpiredHash(db, cmd[1], now) {
        OpaqueIncr(cfg, db, cmd[1], delta, now, picks, AdmissionOfOp(cfg, db, op, cmd, now, picks));
      } else {
        TransparentIncr(cfg, db, cmd[1], delta, now, picks);
      }
  }

  lemma {:induction false} OthersAgree(cfg: Config, db: Db, op: Op, cmd: Command, now: nat, picks: seq<Pick>)
    requires op in {KeysOp, FlushOp, AdminOp, UnknownOp}
    ensures AgreesOn(cfg, db, op, cmd, now, picks)
  {
    assert LiveEntries(db.entries, now).Keys == Live(db.entries, now).Keys;
    assert Live(map[], now) == map[];
  }

  lemma {:induction false} SizesAgree(cfg: Config, db: Db, op: Op, cmd: Command, now: nat, picks: seq<Pick>)
    requires op == DbSizeOp || op == InfoOp
    ensures AgreesOn(cfg, db, op, cmd, now, picks) <==> !exists k :: k in db.entries && !IsLive(db.entries, k, now)
  {
    NothingStale(db.entries, now);
    hide Live, IsLive;
  }

  lemma {:induction false} ScanIsPassive(cfg: Config, db: Db, cmd: Command, now: nat, picks: seq<Pick>)
    requires cmd != []
    ensures OpOf(cmd[0]) == ScanOp ==>
              && Execute(cfg, db, cmd, now, picks).0 == db
              && RefExecute(Live(db.entries, now), cmd, now, AdmissionOf(cfg, db, cmd, now, picks)).0 == Live(db.entries, now)
  {
    hide OpOf, Live, AdmissionOf;
  }

  /**
   * Expiry transparency of one command: its reply and its effect on the unexpired keys are those
   * of the reference semantics, exactly when it is neither a DBSIZE or INFO over stale entries nor
   * an INCR on an expired hash. SCAN is not covered: its pages count stale entries.
   */
  lemma {:induction false} Transparent(cfg: Config, db: Db, cmd: Command, now: nat, picks: seq<Pick>)
    ensures !IsScan(cmd) ==>
              (Agrees(cfg, db, cmd, now, picks) <==> !IncrOnExpiredHash(db, cmd, now) && !SizeOfStale(db, cmd, now))
    ensures IsScan(cmd) ==>
              && Execute(cfg, db, cmd, now, picks).0 == db
              && RefExecute(Live(db.entries, now), cmd, now, AdmissionOf(cfg, db, cmd, now, picks)).0 == Live(db.entries, now)
  {
    if cmd != [] {
      var op := OpOf(cmd[0]);
      assert Agrees(cfg, db, cmd, now, picks) == AgreesOn(cfg, db, op, cmd, now, picks) by {
        hide Dispatch, RefDispatch, AdmissionOfOp, Live;
      }
      ScanIsPassive(cfg, db, cmd, now, picks);
      hide Agrees, AgreesOn, Execute, RefExecute, Live, DeltaOf, OpOf;
      if op in {SetOp, MSetOp, ExpireOp} {
        WritesAgree(cfg, db, op, cmd, now, picks);
      } else if op in {HSetOp, HDelOp, HGetOp} {
        HashesAgree(cfg, db, op, cmd, now, picks);
      } else if IsIncr(op) {
        IncrAgrees(cfg, db, op, cmd, now, picks);
      } else if op == DbSizeOp || op == InfoOp {
        SizesAgree(cfg, db, op, cmd, now, picks);
      } else if op in {KeysOp, FlushOp, AdminOp, UnknownOp} {
        OthersAgree(cfg, db, op, cmd, now, picks);
      } else if op != ScanOp {
        KeyCommandsAgree(cfg, db, op, cmd, now, picks);
      }
    }
  }

  // ---------------------------------------------------------------- runs

  /** A client command, or a pass of the sampler over some stored keys, at a time. */
  datatype Event =
    | Request(cmd: Command, picks: seq<Pick>, at: nat)
    | Sampling(keys: seq<Bytes>, at: nat)

  ghost predicate InOrder(events: seq<Event>) {
    forall i, j :: 0 <= i < j < |events| ==> events[i].at <= events[j].at
  }

  /** The replies of a run of the store. */
  ghost function Run(cfg: Config, db: Db, events: seq<Event>): (Db, seq<Reply>)
    decreases |events|
  {
    if events == [] then (db, [])
    else
      match events[0]
      case Sampling(keys, at) => Run(cfg, ReapAll(cfg, db, keys, at), events[1..])
      case Request(cmd, picks, at) =>
        var (d, r) := Execute(cfg, db, cmd, at, picks);
        var (d', rs) := Run(cfg, d, events[1..]);
        (d', [r] + rs)
  }

  /** The admission decisions met along the way. */
  ghost function Admissions(cfg: Config, db: Db, events: seq<Event>): seq<Admission>
    decreases |events|
  {
    if events == [] then []
    else
      match events[0]
      case Sampling(keys, at) => [GRANTED] + Admissions(cfg, ReapAll(cfg, db, keys, at), events[1..])
      case Request(cmd, picks, at) =>
        [AdmissionOf(cfg, db, cmd, at, picks)]
        + Admissions(cfg, Execute(cfg, db, cmd, at, picks).0, events[1..])
  }

  /** The reference run: expired keys vanish as time passes, and the sampler does nothing. */
  ghost function RefRun(m: Keyspace, events: seq<Event>, adms: seq<Admission>): (Keyspace, seq<Reply>)
    requires |adms| == |events|
    decreases |events|
  {
    if events == [] then (m, [])
    else
      match events[0]
      case Sampling(_, at) => RefRun(m, events[1..], adms[1..])
      case Request(cmd, _, at) =>
        var (m', r) := RefExecute(Purge(m, at), cmd, at, adms[0]);
        var (m'', rs) := RefRun(m', events[1..], adms[1..]);
        (m'', [r] + rs)
  }

  /** No command of the run is a SCAN, or one of the two exceptions when its turn comes. */
  ghost predicate Covered(cfg: Config, db: Db, events: seq<Event>)
    decreases |events|
  {
    events == [] ||
    match events[0]
    case Sampling(keys, at) => Covered(cfg, ReapAll(cfg, db, keys, at), events[1..])
    case Request(cmd, picks, at) =>
      && !IsScan(cmd) && !IncrOnExpiredHash(db, cmd, at) && !SizeOfStale(db, cmd, at)
      && Covered(cfg, Execute(cfg, db, cmd, at, picks).0, events[1..])
  }

  lemma {:induction false} LiveReapAll(cfg: Config, db: Db, keys: seq<Bytes>, now: nat, later: nat)
    requires now <= later
    ensures Live(ReapAll(cfg, db, keys, now).entries, later) == Live(db.entries, later)
    decreases |keys|
  {
    if keys != [] {
      var d := Reap(cfg, db, keys[0], now);
      assert Live(d.entries, later) == Live(db.entries, later);
      LiveReapAll(cfg, d, keys[1..], now, later);
    }
  }

  lemma {:induction false} PurgeLive(entries: map<Bytes, Entry>, now: nat, later: nat)
    requires now <= later
    ensures Purge(Live(entries, now), later) == Live(entries, later)
  {
  }

  lemma {:induction false} PurgePurge(m: Keyspace, now: nat, later: nat)
    requires now <= later
    ensures Purge(Purge(m, now), later) == Purge(m, later)
  {
  }

  lemma {:induction false} UnlimitedGrants(cfg: Config, db: Db, cmd: Command, now: nat, picks: seq<Pick>)
    requires cfg.maxMemory == 0
    ensures AdmissionOf(cfg, db, cmd, now, picks) == GRANTED
  {
    hide OpOf, NetSize, MSetPairs, Reap;
  }

  /** Without a memory limit nothing is ever refused or evicted. */
  lemma {:induction false} UnlimitedAdmissions(cfg: Config, db: Db, events: seq<Event>)
    requires cfg.maxMemory == 0
    ensures Admissions(cfg, db, events) == seq(|events|, _ => GRANTED)
    decreases |events|
  {
    hide Execute, AdmissionOf, ReapAll;
    if events != [] {
      match events[0]
      case Sampling(keys, at) => UnlimitedAdmissions(cfg, ReapAll(cfg, db, keys, at), events[1..]);
      case Request(cmd, picks, at) =>
        UnlimitedGrants(cfg, db, cmd, at, picks);
        UnlimitedAdmissions(cfg, Execute(cfg, db, cmd, at, picks).0, events[1..]);
    }
  }

  /**
   * Expiry transparency over runs: whatever lingers physically, and whenever the lazy removals
   * and sampling passes happen, the client sees the replies of the reference run. That run is
   * told which writes the memory limit refused and which keys it evicted, since these depend on
   * the physical store; without a limit every decision is to grant and evict nothing.
   */
  lemma {:induction false} ExpiryTransparency(cfg: Config, db: Db, m: Keyspace, events: seq<Event>, start: nat)
    requires InOrder(events) && (events != [] ==> start <= events[0].at)
    requires Purge(m, start) == Live(db.entries, start)
    requires Covered(cfg, db, events)
    ensures |Admissions(cfg, db, events)| == |events|
    ensures Run(cfg, db, events).1 == RefRun(m, events, Admissions(cfg, db, events)).1
    ensures cfg.maxMemory == 0 ==> Admissions(cfg, db, events) == seq(|events|, _ => GRANTED)
    decreases |events|
  {
    if cfg.maxMemory == 0 {
      UnlimitedAdmissions(cfg, db, events);
    }
    if events != [] {
      var at := events[0].at;
      PurgePurge(m, start, at);
      PurgeLive(db.entries, start, at);
      match events[0]
      case Sampling(keys, _) =>
        LiveReapAll(cfg, db, keys, at, at);
        ExpiryTransparency(cfg, ReapAll(cfg, db, keys, at), m, events[1..], at);
      case Request(cmd, picks, _) =>
        Transparent(cfg, db, cmd, at, picks);
        var d := Execute(cfg, db, cmd, at, picks).0;
        var m' := RefExecute(Purge(m, at), cmd, at, AdmissionOf(cfg, db, cmd, at, picks)).0;
        assert Purge(m', at) == m' by { PurgeLive(d.entries, at, at); }
        ExpiryTransparency(cfg, d, m', events[1..], at);
    }
  }
}
