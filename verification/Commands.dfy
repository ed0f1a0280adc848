/**
 * The dispatcher and command handlers of src/main.rs over the store state. `picks` resolves the
 * random choices of any eviction the command triggers.
 */
module Commands {
  import opened Basics
  import opened Decimal
  import opened Store

  datatype KeyType = NoKey | StringKey | HashKey

  datatype ErrorKind =
    | EmptyCommand | UnknownCommand | WrongArity | SyntaxError | NotAnInteger
    | Incompatible | OutOfMemory | WrongType | IncrOverflow | DecrOverflow

  /**
   * Replies; the unordered ones carry their contents as a set or a map. Of INFO only the key count
   * is kept. The pages of SCAN are the subject of another module and have no reply here, and
   * neither have the administrative commands, which say nothing of the keys.
   */
  datatype Reply =
    | Okay
    | Bulk(bytes: Bytes)
    | Nil
    | Integer(i: int)
    | Error(kind: ErrorKind)
    | TypeIs(t: KeyType)
    | Many(replies: seq<Reply>)
    | KeySet(keys: set<Bytes>)
    | FieldMap(fields: map<Bytes, Bytes>)
    | Info(count: nat)
    | Unmodelled

  datatype Op =
    | SetOp | GetOp | DelOp | TtlOp | PttlOp | IncrOp | DecrOp | IncrByOp | DecrByOp | MGetOp | MSetOp
    | ExistsOp | ExpireOp | PersistOp | TypeOp | KeysOp | HSetOp | HGetOp | HGetAllOp | HDelOp
    | DbSizeOp | InfoOp | ScanOp | FlushOp | AdminOp | UnknownOp

  /** The dispatcher's case-insensitive name test. */
  predicate Named(name: Bytes, word: string) {
    |name| == |word| && forall i :: 0 <= i < |name| ==> SetBit5(name[i]) == word[i] as int
  }

  /** The dispatcher looks at the length of the name first. */
  function OpOf(name: Bytes): Op {
    match |name|
    case 3 => OpOfThree(name)
    case 4 => OpOfFour(name)
    case 6 => OpOfSix(name)
    case 7 => OpOfSeven(name)
    case 8 => OpOfEight(name)
    case 12 => if Named(name, "bgrewriteaof") then AdminOp else UnknownOp
    case _ => UnknownOp
  }

  function OpOfThree(name: Bytes): Op {
    if Named(name, "set") then SetOp
    else if Named(name, "ttl") then TtlOp
    else if Named(name, "get") then GetOp
    else if Named(name, "del") then DelOp
    else UnknownOp
  }

  function OpOfFour(name: Bytes): Op {
    if Named(name, "ping") then AdminOp
    else if Named(name, "keys") then KeysOp
    else if Named(name, "save") then AdminOp
    else if Named(name, "incr") then IncrOp
    else if Named(name, "decr") then DecrOp
    else if Named(name, "pttl") then PttlOp
    else if Named(name, "mget") then MGetOp
    else if Named(name, "mset") then MSetOp
    else if Named(name, "auth") then AdminOp
    else if Named(name, "info") then InfoOp
    else if Named(name, "scan") then ScanOp
    else if Named(name, "hset") then HSetOp
    else if Named(name, "hget") then HGetOp
    else if Named(name, "hdel") then HDelOp
    else if Named(name, "type") then TypeOp
    else UnknownOp
  }

  function OpOfSix(name: Bytes): Op {
    if Named(name, "exists") then ExistsOp
    else if Named(name, "bgsave") then AdminOp
    else if Named(name, "dbsize") then DbSizeOp
    else if Named(name, "config") then AdminOp
    else if Named(name, "incrby") then IncrByOp
    else if Named(name, "decrby") then DecrByOp
    else if Named(name, "expire") then ExpireOp
    else UnknownOp
  }

  function OpOfSeven(name: Bytes): Op {
    if Named(name, "flushdb") then FlushOp
    else if Named(name, "command") then AdminOp
    else if Named(name, "persist") then PersistOp
    else if Named(name, "hgetall") then HGetAllOp
    else UnknownOp
  }

  function OpOfEight(name: Bytes): Op {
    if Named(name, "lastsave") then AdminOp
    else if Named(name, "flushall") then FlushOp
    else UnknownOp
  }

  // ---------------------------------------------------------------- SET

  datatype SetOptions = SetOptions(ttl: Option<nat>, nx: bool, xx: bool, get: bool)

  const NO_OPTIONS: SetOptions := SetOptions(None, false, false, false)

  /** The option loop of SET from argument `i` on. */
  function ParseOptions(cmd: Command, i: nat, o: SetOptions): Result<SetOptions, ErrorKind>
    decreases |cmd| - i
  {
    if i >= |cmd| then
      if o.nx && o.xx then Failed(Incompatible) else Ok(o)
    else if Named(cmd[i], "ex") || Named(cmd[i], "px") then
      if i + 1 >= |cmd| then Failed(SyntaxError)
      else
        match ParseU64(cmd[i + 1])
        case None => Failed(NotAnInteger)
        case Some(v) =>
          if v == 0 then Failed(NotAnInteger)
          else ParseOptions(cmd, i + 2, o.(ttl := Some(if Named(cmd[i], "ex") then v else (v + 999) / 1000)))
    else if Named(cmd[i], "nx") then ParseOptions(cmd, i + 1, o.(nx := true))
    else if Named(cmd[i], "xx") then ParseOptions(cmd, i + 1, o.(xx := true))
    else if Named(cmd[i], "get") then ParseOptions(cmd, i + 1, o.(get := true))
    else Failed(SyntaxError)
  }

  /** The string a live key holds; a hash counts as absent here. */
  function OldString(db: Db, k: Bytes, now: nat): Option<Bytes> {
    if IsLive(db.entries, k, now) && db.entries[k].value.Str? then Some(db.entries[k].value.bytes) else None
  }

  function BulkOrNil(v: Option<Bytes>): Reply {
    if v.Some? then Bulk(v.value) else Nil
  }

  ghost function ExecSet(cfg: Config, db: Db, cmd: Command, now: nat, picks: seq<Pick>): (Db, Reply) {
    if |cmd| < 3 then (db, Error(WrongArity))
    else
      var k, v := cmd[1], cmd[2];
      var (d, ok) := Admit(cfg, db, Size(k, Str(v)), picks);
      if !ok then (d, Error(OutOfMemory))
      else
        match ParseOptions(cmd, 3, NO_OPTIONS)
        case Failed(e) => (d, Error(e))
        case Ok(o) =>
          var prev := OldString(d, k, now);
          if o.nx && prev.Some? then (d, if o.get then BulkOrNil(prev) else Nil)
          else if o.xx && prev.None? then (d, Nil)
          else (SetAndCharge(cfg, d, k, v, o.ttl, now), if o.get then BulkOrNil(prev) else Okay)
  }

  // ---------------------------------------------------------------- INCR family

  /** The write half of INCR: `prev` is the size it replaces, `ttl` what is left of the old expiry. */
  ghost function IncrWrite(cfg: Config, db: Db, k: Bytes, sum: int, prev: nat, ttl: Option<nat>, now: nat, picks: seq<Pick>): (Db, Reply) {
    var v := SignedDecimal(sum);
    var (d, ok) := Admit(cfg, db, Size(k, Str(v)) - prev, picks);
    if !ok then (d, Error(OutOfMemory)) else (SetAndCharge(cfg, d, k, v, ttl, now), Integer(sum))
  }

  ghost function ExecIncr(cfg: Config, db: Db, k: Bytes, delta: int, now: nat, picks: seq<Pick>): (Db, Reply) {
    if k in db.entries && db.entries[k].value.Hash? then (db, Error(WrongType))
    else if !IsLive(db.entries, k, now) then
      IncrWrite(cfg, Reap(cfg, db, k, now), k, delta, 0, None, now, picks)
    else
      var e := db.entries[k];
      match ParseI64(e.value.bytes)
      case None => (db, Error(NotAnInteger))
      case Some(current) =>
        if !(I64_MIN <= current + delta <= I64_MAX) then (db, Error(if delta > 0 then IncrOverflow else DecrOverflow))
        else
          var ttl := if e.expiry.Some? then Some(e.expiry.value - now) else None;
          IncrWrite(cfg, db, k, current + delta, EntrySize(k, e), ttl, now, picks)
  }

  /** The amount an INCR-family command adds, or why it cannot be run; negating it never overflows. */
  function DeltaOf(op: Op, cmd: Command): (r: Result<int, ErrorKind>)
    ensures r.Ok? ==> I64_MIN < r.value <= I64_MAX
  {
    match op
    case IncrOp => if |cmd| < 2 then Failed(WrongArity) else Ok(1)
    case DecrOp => if |cmd| < 2 then Failed(WrongArity) else Ok(-1)
    case _ =>
      if |cmd| < 3 then Failed(WrongArity)
      else
        match ParseI64(cmd[2])
        case None => Failed(NotAnInteger)
        case Some(v) => Ok(if op == DecrByOp then -v else v)
  }

  // ---------------------------------------------------------------- MSET

  function MSetPairs(cmd: Command, i: nat): Pairs
    decreases |cmd| - i
  {
    if i + 1 >= |cmd| then [] else [(cmd[i], cmd[i + 1])] + MSetPairs(cmd, i + 2)
  }

  /** The net growth MSET asks room for: expired entries count as absent, repeated keys count twice. */
  ghost function NetSize(db: Db, pairs: Pairs, now: nat): int {
    if pairs == [] then 0
    else
      var (k, v) := pairs[0];
      Size(k, Str(v)) - (if IsLive(db.entries, k, now) then EntrySize(k, db.entries[k]) else 0)
      + NetSize(db, pairs[1..], now)
  }

  ghost function SetPairs(cfg: Config, db: Db, pairs: Pairs, now: nat): Db
    decreases |pairs|
  {
    if pairs == [] then db
    else SetPairs(cfg, SetAndCharge(cfg, db, pairs[0].0, pairs[0].1, None, now), pairs[1..], now)
  }

  ghost function ExecMSet(cfg: Config, db: Db, cmd: Command, now: nat, picks: seq<Pick>): (Db, Reply) {
    if |cmd| < 3 || (|cmd| - 1) % 2 != 0 then (db, Error(WrongArity))
    else
      var pairs := MSetPairs(cmd, 1);
      var (d, ok) := Admit(cfg, db, NetSize(db, pairs, now), picks);
      if !ok then (d, Error(OutOfMemory)) else (SetPairs(cfg, d, pairs, now), Okay)
  }

  // ---------------------------------------------------------------- reads over several keys

  ghost function ExecMGet(cfg: Config, db: Db, keys: seq<Bytes>, now: nat): (Db, seq<Reply>)
    decreases |keys|
  {
    if keys == [] then (db, [])
    else
      var (d, v) := Get(cfg, db, keys[0], now);
      var (d', rs) := ExecMGet(cfg, d, keys[1..], now);
      (d', [BulkOrNil(v)] + rs)
  }

  // ---------------------------------------------------------------- expiry commands

  /** The `as i64` cast of a u64. */
  function AsI64(n: nat): int {
    if n % (U64_MAX + 1) > I64_MAX then n % (U64_MAX + 1) - (U64_MAX + 1) else n % (U64_MAX + 1)
  }

  function Saturate(n: nat): int {
    if n > I64_MAX then I64_MAX else n
  }

  /** TTL in seconds and PTTL in milliseconds; -2 for no key, -1 for no expiry. */
  ghost function ExecTtl(cfg: Config, db: Db, k: Bytes, now: nat, millis: bool): (Db, Reply) {
    if !IsLive(db.entries, k, now) then (Reap(cfg, db, k, now), Integer(-2))
    else
      match db.entries[k].expiry
      case None => (db, Integer(-1))
      case Some(t) => (db, Integer(if millis then Saturate((t - now) * 1000) else AsI64(t - now)))
  }

  ghost function ExecExpire(cfg: Config, db: Db, cmd: Command, now: nat): (Db, Reply) {
    if |cmd| < 3 then (db, Error(WrongArity))
    else
      match ParseI64(cmd[2])
      case None => (db, Error(NotAnInteger))
      case Some(seconds) =>
        if seconds <= 0 then
          var (d, n) := DeleteAll(cfg, db, [cmd[1]], now);
          (d, Integer(n))
        else if IsLive(db.entries, cmd[1], now) then (SetExpiry(db, cmd[1], Some(now + seconds)), Integer(1))
        else (Reap(cfg, db, cmd[1], now), Integer(0))
  }

  ghost function ExecPersist(cfg: Config, db: Db, k: Bytes, now: nat): (Db, Reply) {
    if !IsLive(db.entries, k, now) then (Reap(cfg, db, k, now), Integer(0))
    else if db.entries[k].expiry.Some? then (SetExpiry(db, k, None), Integer(1))
    else (db, Integer(0))
  }

  // ---------------------------------------------------------------- hashes

  ghost function ExecHSet(cfg: Config, db: Db, cmd: Command, now: nat): (Db, Reply) {
    if |cmd| < 4 || (|cmd| - 2) % 2 != 0 then (db, Error(WrongArity))
    else
      var (d, n) := HSet(cfg, db, cmd[1], MSetPairs(cmd, 2), now);
      (d, if n.Some? then Integer(n.value) else Error(WrongType))
  }

  ghost function ExecHGet(cfg: Config, db: Db, k: Bytes, field: Bytes, now: nat): (Db, Reply) {
    var (d, fields) := ReadHash(cfg, db, k, now);
    (d, if fields.None? then Error(WrongType)
        else if field in fields.value then Bulk(fields.value[field]) else Nil)
  }

  ghost function ExecHGetAll(cfg: Config, db: Db, k: Bytes, now: nat): (Db, Reply) {
    var (d, fields) := ReadHash(cfg, db, k, now);
    (d, if fields.None? then Error(WrongType) else FieldMap(fields.value))
  }

  ghost function ExecHDel(cfg: Config, db: Db, cmd: Command, now: nat): (Db, Reply) {
    if |cmd| < 3 then (db, Error(WrongArity))
    else
      var (d, n) := HDel(cfg, db, cmd[1], cmd[2..], now);
      (d, if n.Some? then Integer(n.value) else Error(WrongType))
  }

  ghost function ExecType(cfg: Config, db: Db, k: Bytes, now: nat): (Db, Reply) {
    if !IsLive(db.entries, k, now) then (Reap(cfg, db, k, now), TypeIs(NoKey))
    else (db, TypeIs(if db.entries[k].value.Str? then StringKey else HashKey))
  }

  // ---------------------------------------------------------------- dispatch

  /** `execute_command` for an authenticated connection. */
  ghost function Execute(cfg: Config, db: Db, cmd: Command, now: nat, picks: seq<Pick>): (Db, Reply) {
    if cmd == [] then (db, Error(EmptyCommand)) else Dispatch(cfg, db, OpOf(cmd[0]), cmd, now, picks)
  }

  ghost function Dispatch(cfg: Config, db: Db, op: Op, cmd: Command, now: nat, picks: seq<Pick>): (Db, Reply) {
    match op
    case SetOp => ExecSet(cfg, db, cmd, now, picks)
    case MSetOp => ExecMSet(cfg, db, cmd, now, picks)
    case ExpireOp => ExecExpire(cfg, db, cmd, now)
    case HSetOp => ExecHSet(cfg, db, cmd, now)
    case HDelOp => ExecHDel(cfg, db, cmd, now)
    case IncrOp | DecrOp | IncrByOp | DecrByOp =>
      (match DeltaOf(op, cmd)
       case Failed(e) => (db, Error(e))
       case Ok(delta) => ExecIncr(cfg, db, cmd[1], delta, now, picks))
    case KeysOp => (db, KeySet(LiveEntries(db.entries, now).Keys))
    case DbSizeOp => (db, Integer(|db.entries|))
    case InfoOp => (db, Info(|db.entries|))
    case ScanOp => (db, Unmodelled)
    case FlushOp => (Flush(db, now), Okay)
    case AdminOp => (db, Unmodelled)
    case UnknownOp => (db, Error(UnknownCommand))
    case HGetOp => if |cmd| < 3 then (db, Error(WrongArity)) else ExecHGet(cfg, db, cmd[1], cmd[2], now)
    case _ => if |cmd| < 2 then (db, Error(WrongArity)) else ExecOnKeys(cfg, db, op, cmd, now)
  }

  /** The commands whose only requirement is at least one key. */
  ghost function ExecOnKeys(cfg: Config, db: Db, op: Op, cmd: Command, now: nat): (Db, Reply)
    requires |cmd| >= 2
  {
    match op
    case GetOp =>
      var (d, v) := Get(cfg, db, cmd[1], now);
      (d, BulkOrNil(v))
    case DelOp =>
      var (d, n) := DeleteAll(cfg, db, cmd[1..], now);
      (d, Integer(n))
    case MGetOp =>
      var (d, rs) := ExecMGet(cfg, db, cmd[1..], now);
      (d, Many(rs))
    case TtlOp => ExecTtl(cfg, db, cmd[1], now, false)
    case PttlOp => ExecTtl(cfg, db, cmd[1], now, true)
    case ExistsOp => (db, Integer(CountLive(db, cmd[1..], now)))
    case PersistOp => ExecPersist(cfg, db, cmd[1], now)
    case TypeOp => ExecType(cfg, db, cmd[1], now)
    case HGetAllOp => ExecHGetAll(cfg, db, cmd[1], now)
    case _ => (db, Unmodelled)
  }

  predicate IsIncr(op: Op) {
    op == IncrOp || op == DecrOp || op == IncrByOp || op == DecrByOp
  }

  /** The commands that never touch the store, whatever their arguments. */
  predicate IsPassive(op: Op) {
    op == KeysOp || op == DbSizeOp || op == InfoOp || op == ScanOp || op == AdminOp || op == UnknownOp
  }

  predicate IsOnKeys(op: Op) {
    || op == GetOp || op == DelOp || op == MGetOp || op == TtlOp || op == PttlOp || op == ExistsOp
    || op == PersistOp || op == TypeOp || op == HGetAllOp
  }

  /** The dispatcher's effect on the store, group by group. */
  lemma {:induction false} DispatchWrites(cfg: Config, db: Db, op: Op, cmd: Command, now: nat, picks: seq<Pick>)
    ensures op == SetOp ==> Dispatch(cfg, db, op, cmd, now, picks).0 == ExecSet(cfg, db, cmd, now, picks).0
    ensures op == MSetOp ==> Dispatch(cfg, db, op, cmd, now, picks).0 == ExecMSet(cfg, db, cmd, now, picks).0
    ensures op == ExpireOp ==> Dispatch(cfg, db, op, cmd, now, picks).0 == ExecExpire(cfg, db, cmd, now).0
  {
    hide ExecSet, ExecMSet, ExecExpire, ExecHSet, ExecHDel, ExecHGet, ExecOnKeys, ExecIncr, Flush, DeltaOf;
  }

  lemma {:induction false} DispatchWhole(cfg: Config, db: Db, op: Op, cmd: Command, now: nat, picks: seq<Pick>)
    ensures op == FlushOp ==> Dispatch(cfg, db, op, cmd, now, picks).0 == Flush(db, now)
    ensures IsPassive(op) ==> Dispatch(cfg, db, op, cmd, now, picks).0 == db
  {
    hide ExecSet, ExecMSet, ExecExpire, ExecHSet, ExecHDel, ExecHGet, ExecOnKeys, ExecIncr, Flush, DeltaOf;
  }

  lemma {:induction false} DispatchHashes(cfg: Config, db: Db, op: Op, cmd: Command, now: nat, picks: seq<Pick>)
    ensures op == HSetOp ==> Dispatch(cfg, db, op, cmd, now, picks).0 == ExecHSet(cfg, db, cmd, now).0
    ensures op == HDelOp ==> Dispatch(cfg, db, op, cmd, now, picks).0 == ExecHDel(cfg, db, cmd, now).0
    ensures op == HGetOp ==> Dispatch(cfg, db, op, cmd, now, picks).0
                             == if |cmd| < 3 then db else ExecHGet(cfg, db, cmd[1], cmd[2], now).0
  {
    hide ExecSet, ExecMSet, ExecExpire, ExecHSet, ExecHDel, ExecHGet, ExecOnKeys, ExecIncr, Flush, DeltaOf;
  }

  lemma {:induction false} DispatchOnKeys(cfg: Config, db: Db, op: Op, cmd: Command, now: nat, picks: seq<Pick>)
    requires IsOnKeys(op)
    ensures Dispatch(cfg, db, op, cmd, now, picks)
            == if |cmd| < 2 then (db, Error(WrongArity)) else ExecOnKeys(cfg, db, op, cmd, now)
  {
    hide ExecSet, ExecMSet, ExecExpire, ExecHSet, ExecHDel, ExecHGet, ExecOnKeys, ExecIncr, Flush, DeltaOf;
  }

  lemma {:induction false} DispatchIncr(cfg: Config, db: Db, op: Op, cmd: Command, now: nat, picks: seq<Pick>)
    requires IsIncr(op)
    ensures match DeltaOf(op, cmd)
            case Failed(e) => Dispatch(cfg, db, op, cmd, now, picks) == (db, Error(e))
            case Ok(delta) =>
              |cmd| >= 2
              && Dispatch(cfg, db, op, cmd, now, picks) == ExecIncr(cfg, db, cmd[1], delta, now, picks)
  {
    hide ExecSet, ExecMSet, ExecExpire, ExecHSet, ExecHDel, ExecHGet, ExecOnKeys, ExecIncr, Flush;
  }

  lemma {:induction false} DispatchCases(cfg: Config, db: Db, op: Op, cmd: Command, now: nat, picks: seq<Pick>)
    ensures var d := Dispatch(cfg, db, op, cmd, now, picks).0;
            && (op == SetOp ==> d == ExecSet(cfg, db, cmd, now, picks).0)
            && (op == MSetOp ==> d == ExecMSet(cfg, db, cmd, now, picks).0)
            && (op == ExpireOp ==> d == ExecExpire(cfg, db, cmd, now).0)
            && (op == HSetOp ==> d == ExecHSet(cfg, db, cmd, now).0)
            && (op == HDelOp ==> d == ExecHDel(cfg, db, cmd, now).0)
            && (op == FlushOp ==> d == Flush(db, now))
            && (op == HGetOp ==> d == if |cmd| < 3 then db else ExecHGet(cfg, db, cmd[1], cmd[2], now).0)
            && (IsOnKeys(op) ==> d == if |cmd| < 2 then db else ExecOnKeys(cfg, db, op, cmd, now).0)
            && (IsPassive(op) ==> d == db)
    ensures IsIncr(op) ==>
              match DeltaOf(op, cmd)
              case Failed(_) => Dispatch(cfg, db, op, cmd, now, picks).0 == db
              case Ok(delta) =>
                |cmd| >= 2
                && Dispatch(cfg, db, op, cmd, now, picks).0 == ExecIncr(cfg, db, cmd[1], delta, now, picks).0
  {
    hide Dispatch, ExecSet, ExecMSet, ExecExpire, ExecHSet, ExecHDel, ExecHGet, ExecOnKeys, ExecIncr, Flush, DeltaOf;
    DispatchWrites(cfg, db, op, cmd, now, picks);
    DispatchWhole(cfg, db, op, cmd, now, picks);
    DispatchHashes(cfg, db, op, cmd, now, picks);
    if IsOnKeys(op) {
      DispatchOnKeys(cfg, db, op, cmd, now, picks);
    } else if IsIncr(op) {
      DispatchIncr(cfg, db, op, cmd, now, picks);
    }
  }

  /** Which commands the dispatcher appends to the log, whether or not they succeeded. */
  predicate Logged(cmd: Command) {
    cmd != [] &&
    match OpOf(cmd[0])
    case SetOp | IncrOp | DecrOp | IncrByOp | DecrByOp | MSetOp | ExpireOp | PersistOp | HSetOp | HDelOp => true
    case DelOp => |cmd| >= 2
    case _ => false
  }
}
