/**
 * The command handlers and the dispatcher of src/main.rs over the sharded store. Each handler is
 * proved against its meaning in `Commands`, so the theorems about runs of `Execute` are theorems
 * about runs of `ExecuteCommand`.
 */
module Handlers {
  import opened Basics
  import opened Decimal
  import opened Resp
  import opened Store
  import opened Commands
  import opened Sharded
  import opened S3Fifo
  import opened Durability
  import opened AppendOnly

  // ---------------------------------------------------------------- SET

  /** The option loop of `handle_set`. */
  method ParseSetOptions(cmd: Command) returns (r: Result<SetOptions, ErrorKind>)
    ensures r == ParseOptions(cmd, 3, NO_OPTIONS)
  {
    hide Named, ParseU64;
    var ttl: Option<nat>, nx, xx, get := None, false, false, false;
    var i: nat := 3;
    while i < |cmd|
      invariant ParseOptions(cmd, 3, NO_OPTIONS) == ParseOptions(cmd, i, SetOptions(ttl, nx, xx, get))
      decreases |cmd| - i
    {
      if Named(cmd[i], "ex") || Named(cmd[i], "px") {
        if i + 1 >= |cmd| {
          return Failed(SyntaxError);
        }
        var v := ParseU64Loop(cmd[i + 1]);
        if v.None? || v.value == 0 {
          return Failed(NotAnInteger);
        }
        var n: nat := v.value;
        ttl := Some(if Named(cmd[i], "ex") then n else (n + 999) / 1000);
        i := i + 1;
      } else if Named(cmd[i], "nx") {
        nx := true;
      } else if Named(cmd[i], "xx") {
        xx := true;
      } else if Named(cmd[i], "get") {
        get := true;
      } else {
        return Failed(SyntaxError);
      }
      i := i + 1;
    }
    if nx && xx {
      return Failed(Incompatible);
    }
    return Ok(SetOptions(ttl, nx, xx, get));
  }

  /** The conditional half of `handle_set`, after room was granted and the options were read. */
  method StoreString(store: ShardedStore, k: Bytes, v: Bytes, o: SetOptions, now: nat) returns (reply: Reply)
    requires store.Valid()
    modifies store, store.queues
    ensures store.Valid()
    ensures var db := old(store.View());
            var prev := OldString(db, k, now);
            (store.View(), reply) ==
            if o.nx && prev.Some? then (db, if o.get then BulkOrNil(prev) else Nil)
            else if o.xx && prev.None? then (db, Nil)
            else (SetAndCharge(store.cfg, db, k, v, o.ttl, now), if o.get then BulkOrNil(prev) else Okay)
  {
    hide Merged, Partitioned, SetAndCharge;
    var prev: Option<Bytes> := None;
    if o.nx || o.xx || o.get {
      var e := store.Lookup(k);
      if e.Some? && !Expired(e.value.expiry, now) && e.value.value.Str? {
        prev := Some(e.value.value.bytes);
      }
    }
    if o.nx && prev.Some? {
      return if o.get then Bulk(prev.value) else Nil;
    }
    if o.xx && prev.None? {
      return Nil;
    }
    store.SetAndAccount(k, v, o.ttl, now);
    return if o.get then BulkOrNil(prev) else Okay;
  }

  method HandleSet(store: ShardedStore, cmd: Command, now: nat, picks: seq<Pick>) returns (reply: Reply)
    requires store.Valid()
    modifies store, store.queues
    ensures store.Valid() && (store.View(), reply) == ExecSet(store.cfg, old(store.View()), cmd, now, picks)
  {
    hide Merged, Partitioned, SetAndCharge, EvictIfNeeded, ParseOptions, OldString;
    if |cmd| < 3 {
      return Error(WrongArity);
    }
    var granted := store.AdmitWrite(|cmd[1]| + |cmd[2]| + 64, picks);
    if !granted {
      return Error(OutOfMemory);
    }
    var options := ParseSetOptions(cmd);
    if options.Failed? {
      return Error(options.error);
    }
    reply := StoreString(store, cmd[1], cmd[2], options.value, now);
  }

  // ---------------------------------------------------------------- INCR family

  /** The write half of `handle_incr`. */
  method WriteCounter(store: ShardedStore, k: Bytes, sum: int, prev: nat, ttl: Option<nat>, now: nat, picks: seq<Pick>)
    returns (reply: Reply)
    requires store.Valid()
    modifies store, store.queues
    ensures store.Valid() && (store.View(), reply) == IncrWrite(store.cfg, old(store.View()), k, sum, prev, ttl, now, picks)
  {
    hide Merged, Partitioned, SetAndCharge, EvictIfNeeded;
    var v := SignedDecimal(sum);
    var size: int := |k| + |v| + 64;
    var granted := store.AdmitWrite(size - prev, picks);
    if !granted {
      return Error(OutOfMemory);
    }
    store.SetAndAccount(k, v, ttl, now);
    return Integer(sum);
  }

  method HandleIncr(store: ShardedStore, k: Bytes, delta: int, now: nat, picks: seq<Pick>) returns (reply: Reply)
    requires store.Valid()
    modifies store, store.queues
    ensures store.Valid() && (store.View(), reply) == ExecIncr(store.cfg, old(store.View()), k, delta, now, picks)
  {
    hide Merged, Partitioned, IncrWrite, ParseI64;
    var e := store.Lookup(k);
    if e.Some? && e.value.value.Hash? {
      return Error(WrongType);
    }
    if e.None? || Expired(e.value.expiry, now) {
      var _ := store.ReapKey(k, now);
      reply := WriteCounter(store, k, delta, 0, None, now, picks);
      return;
    }
    var current := ParseI64Loop(e.value.value.bytes);
    if current.None? {
      return Error(NotAnInteger);
    }
    var sum := current.value + delta;
    if sum < I64_MIN || sum > I64_MAX {
      return Error(if delta > 0 then IncrOverflow else DecrOverflow);
    }
    var ttl := if e.value.expiry.Some? then Some(e.value.expiry.value - now) else None;
    var prev := CalculateEntrySize(k, e.value.value);
    reply := WriteCounter(store, k, sum, prev, ttl, now, picks);
  }

  // ---------------------------------------------------------------- MSET

  /** The first loop of `handle_mset`. */
  method NetGrowth(store: ShardedStore, cmd: Command, now: nat) returns (net: int)
    requires store.Valid() && |cmd| % 2 == 1
    ensures net == NetSize(store.View(), MSetPairs(cmd, 1), now)
  {
    hide Merged, Partitioned;
    net := 0;
    for i := 0 to (|cmd| - 1) / 2
      invariant NetSize(store.View(), MSetPairs(cmd, 1), now)
                == net + NetSize(store.View(), MSetPairs(cmd, 1 + i * 2), now)
    {
      var k, v := cmd[1 + i * 2], cmd[2 + i * 2];
      PairsCons(cmd, 1 + i * 2);
      var e := store.Lookup(k);
      var prev: int := 0;
      if e.Some? && !Expired(e.value.expiry, now) {
        prev := CalculateEntrySize(k, e.value.value);
      }
      var size: int := |k| + |v| + 64;
      net := net + (size - prev);
    }
  }

  lemma {:induction false} PairsCons(cmd: Command, i: nat)
    requires i + 1 < |cmd|
    ensures MSetPairs(cmd, i) != [] && MSetPairs(cmd, i)[0] == (cmd[i], cmd[i + 1])
    ensures MSetPairs(cmd, i)[1..] == MSetPairs(cmd, i + 2)
  {
  }

  method HandleMSet(store: ShardedStore, cmd: Command, now: nat, picks: seq<Pick>) returns (reply: Reply)
    requires store.Valid()
    modifies store, store.queues
    ensures store.Valid() && (store.View(), reply) == ExecMSet(store.cfg, old(store.View()), cmd, now, picks)
  {
    hide Merged, Partitioned, SetAndCharge, EvictIfNeeded, NetSize;
    if |cmd| < 3 || (|cmd| - 1) % 2 != 0 {
      return Error(WrongArity);
    }
    var net := NetGrowth(store, cmd, now);
    var granted := store.AdmitWrite(net, picks);
    if !granted {
      return Error(OutOfMemory);
    }
    ghost var admitted := store.View();
    for i := 0 to (|cmd| - 1) / 2
      invariant store.Valid()
      invariant SetPairs(store.cfg, admitted, MSetPairs(cmd, 1), now)
                == SetPairs(store.cfg, store.View(), MSetPairs(cmd, 1 + i * 2), now)
    {
      PairsCons(cmd, 1 + i * 2);
      store.SetAndAccount(cmd[1 + i * 2], cmd[2 + i * 2], None, now);
    }
    return Okay;
  }

  // ---------------------------------------------------------------- reads

  method HandleMGet(store: ShardedStore, cmd: Command, now: nat) returns (reply: Reply)
    requires store.Valid() && |cmd| >= 2
    modifies store, store.queues
    ensures store.Valid()
    ensures var (d, rs) := ExecMGet(store.cfg, old(store.View()), cmd[1..], now);
            store.View() == d && reply == Many(rs)
  {
    hide Merged, Partitioned, Get;
    var replies: seq<Reply> := [];
    for i := 1 to |cmd|
      invariant store.Valid()
      invariant var (d, rs) := ExecMGet(store.cfg, old(store.View()), cmd[1..], now);
                var (d', rest) := ExecMGet(store.cfg, store.View(), cmd[i..], now);
                d == d' && rs == replies + rest
    {
      assert cmd[i..][0] == cmd[i] && cmd[i..][1..] == cmd[i + 1..];
      var v := store.GetKey(cmd[i], now);
      replies := replies + [BulkOrNil(v)];
    }
    return Many(replies);
  }

  /** `handle_ttl` and `handle_pttl`. */
  method HandleTtl(store: ShardedStore, k: Bytes, now: nat, millis: bool) returns (reply: Reply)
    requires store.Valid()
    modifies store
    ensures store.Valid() && (store.View(), reply) == ExecTtl(store.cfg, old(store.View()), k, now, millis)
  {
    hide Merged, Partitioned;
    var e := store.Lookup(k);
    if e.None? || Expired(e.value.expiry, now) {
      var _ := store.ReapKey(k, now);
      return Integer(-2);
    }
    if e.value.expiry.None? {
      return Integer(-1);
    }
    var left := e.value.expiry.value - now;
    return Integer(if millis then Saturate(left * 1000) else AsI64(left));
  }

  /** TYPE. */
  method HandleType(store: ShardedStore, k: Bytes, now: nat) returns (reply: Reply)
    requires store.Valid()
    modifies store
    ensures store.Valid() && (store.View(), reply) == ExecType(store.cfg, old(store.View()), k, now)
  {
    hide Merged, Partitioned;
    var e := store.Lookup(k);
    if e.None? || Expired(e.value.expiry, now) {
      var _ := store.ReapKey(k, now);
      return TypeIs(NoKey);
    }
    return TypeIs(if e.value.value.Str? then StringKey else HashKey);
  }

  // ---------------------------------------------------------------- expiry times

  method HandleExpire(store: ShardedStore, cmd: Command, now: nat) returns (reply: Reply)
    requires store.Valid()
    modifies store, store.queues
    ensures store.Valid() && (store.View(), reply) == ExecExpire(store.cfg, old(store.View()), cmd, now)
  {
    hide Merged, Partitioned, DeleteAll, ParseI64;
    if |cmd| < 3 {
      return Error(WrongArity);
    }
    var seconds := ParseI64Loop(cmd[2]);
    if seconds.None? {
      return Error(NotAnInteger);
    }
    if seconds.value <= 0 {
      var n := store.DeleteKeys([cmd[1]], now);
      return Integer(n);
    }
    var e := store.Lookup(cmd[1]);
    if e.None? || Expired(e.value.expiry, now) {
      var _ := store.ReapKey(cmd[1], now);
      return Integer(0);
    }
    store.SetExpiryOf(cmd[1], e.value, Some(now + seconds.value));
    return Integer(1);
  }

  method HandlePersist(store: ShardedStore, k: Bytes, now: nat) returns (reply: Reply)
    requires store.Valid()
    modifies store
    ensures store.Valid() && (store.View(), reply) == ExecPersist(store.cfg, old(store.View()), k, now)
  {
    hide Merged, Partitioned;
    var e := store.Lookup(k);
    if e.None? || Expired(e.value.expiry, now) {
      var _ := store.ReapKey(k, now);
      return Integer(0);
    }
    if e.value.expiry.None? {
      return Integer(0);
    }
    store.SetExpiryOf(k, e.value, None);
    return Integer(1);
  }

  // ---------------------------------------------------------------- hashes

  /** The argument loop of `handle_hset`. */
  method FieldPairs(cmd: Command) returns (pairs: Pairs)
    requires |cmd| >= 4 && |cmd| % 2 == 0
    ensures pairs == MSetPairs(cmd, 2)
  {
    pairs := [];
    for i := 0 to (|cmd| - 2) / 2
      invariant MSetPairs(cmd, 2) == pairs + MSetPairs(cmd, 2 + i * 2)
    {
      PairsCons(cmd, 2 + i * 2);
      assert MSetPairs(cmd, 2 + i * 2) == [(cmd[2 + i * 2], cmd[3 + i * 2])] + MSetPairs(cmd, 2 + i * 2 + 2);
      pairs := pairs + [(cmd[2 + i * 2], cmd[3 + i * 2])];
    }
  }

  method HandleHSet(store: ShardedStore, cmd: Command, now: nat) returns (reply: Reply)
    requires store.Valid()
    modifies store, store.queues
    ensures store.Valid() && (store.View(), reply) == ExecHSet(store.cfg, old(store.View()), cmd, now)
  {
    hide Merged, Partitioned, HSet;
    if |cmd| < 4 || (|cmd| - 2) % 2 != 0 {
      return Error(WrongArity);
    }
    var pairs := FieldPairs(cmd);
    var added := store.HSetKey(cmd[1], pairs, now);
    return if added.Some? then Integer(added.value) else Error(WrongType);
  }

  method HandleHGet(store: ShardedStore, k: Bytes, field: Bytes, now: nat) returns (reply: Reply)
    requires store.Valid()
    modifies store, store.queues
    ensures store.Valid() && (store.View(), reply) == ExecHGet(store.cfg, old(store.View()), k, field, now)
  {
    hide Merged, Partitioned, ReadHash;
    var fields := store.ReadHashKey(k, now);
    if fields.None? {
      return Error(WrongType);
    }
    return if field in fields.value then Bulk(fields.value[field]) else Nil;
  }

  method HandleHGetAll(store: ShardedStore, k: Bytes, now: nat) returns (reply: Reply)
    requires store.Valid()
    modifies store, store.queues
    ensures store.Valid() && (store.View(), reply) == ExecHGetAll(store.cfg, old(store.View()), k, now)
  {
    hide Merged, Partitioned, ReadHash;
    var fields := store.ReadHashKey(k, now);
    return if fields.None? then Error(WrongType) else FieldMap(fields.value);
  }

  method HandleHDel(store: ShardedStore, cmd: Command, now: nat) returns (reply: Reply)
    requires store.Valid()
    modifies store, store.queues
    ensures store.Valid() && (store.View(), reply) == ExecHDel(store.cfg, old(store.View()), cmd, now)
  {
    hide Merged, Partitioned, HDel;
    if |cmd| < 3 {
      return Error(WrongArity);
    }
    var removed := store.HDelKey(cmd[1], cmd[2..], now);
    return if removed.Some? then Integer(removed.value) else Error(WrongType);
  }

  // ---------------------------------------------------------------- dispatch

  /** The commands whose only requirement is at least one key. */
  method RunOnKeys(store: ShardedStore, op: Op, cmd: Command, now: nat) returns (reply: Reply)
    requires store.Valid() && |cmd| >= 2
    modifies store, store.queues
    ensures store.Valid() && (store.View(), reply) == ExecOnKeys(store.cfg, old(store.View()), op, cmd, now)
  {
    hide Merged, Partitioned, Get, DeleteAll, ExecMGet, ExecTtl, ExecPersist, ExecType, ExecHGetAll, CountLive;
    match op {
      case GetOp =>
        var v := store.GetKey(cmd[1], now);
        reply := BulkOrNil(v);
      case DelOp =>
        var n := store.DeleteKeys(cmd[1..], now);
        reply := Integer(n);
      case MGetOp => reply := HandleMGet(store, cmd, now);
      case TtlOp => reply := HandleTtl(store, cmd[1], now, false);
      case PttlOp => reply := HandleTtl(store, cmd[1], now, true);
      case ExistsOp =>
        var n := store.CountExisting(cmd[1..], now);
        reply := Integer(n);
      case PersistOp => reply := HandlePersist(store, cmd[1], now);
      case TypeOp => reply := HandleType(store, cmd[1], now);
      case HGetAllOp => reply := HandleHGetAll(store, cmd[1], now);
      case _ => reply := Unmodelled;
    }
  }

  method RunIncr(store: ShardedStore, op: Op, cmd: Command, now: nat, picks: seq<Pick>) returns (reply: Reply)
    requires store.Valid() && (op == IncrOp || op == DecrOp || op == IncrByOp || op == DecrByOp)
    modifies store, store.queues
    ensures store.Valid() && (store.View(), reply) == Dispatch(store.cfg, old(store.View()), op, cmd, now, picks)
  {
    hide Merged, Partitioned, ExecIncr;
    var delta := DeltaOf(op, cmd);
    if delta.Failed? {
      return Error(delta.error);
    }
    reply := HandleIncr(store, cmd[1], delta.value, now, picks);
  }

  method RunOp(store: ShardedStore, op: Op, cmd: Command, now: nat, picks: seq<Pick>) returns (reply: Reply)
    requires store.Valid()
    modifies store, store.queues
    ensures store.Valid() && (store.View(), reply) == Dispatch(store.cfg, old(store.View()), op, cmd, now, picks)
  {
    hide Merged, Partitioned, ExecSet, ExecMSet, ExecExpire, ExecHSet, ExecHDel, ExecHGet, ExecOnKeys, ExecIncr, Flush;
    match op {
      case SetOp => reply := HandleSet(store, cmd, now, picks);
      case MSetOp => reply := HandleMSet(store, cmd, now, picks);
      case ExpireOp => reply := HandleExpire(store, cmd, now);
      case HSetOp => reply := HandleHSet(store, cmd, now);
      case HDelOp => reply := HandleHDel(store, cmd, now);
      case IncrOp | DecrOp | IncrByOp | DecrByOp => reply := RunIncr(store, op, cmd, now, picks);
      case KeysOp =>
        var keys := store.LiveKeys(now);
        reply := KeySet(Elements(keys));
      case DbSizeOp =>
        var n := store.Len();
        reply := Integer(n);
      case FlushOp =>
        store.FlushStore(now);
        reply := Okay;
      case InfoOp =>
        var n := store.Len();
        reply := Info(n);
      case ScanOp => reply := Unmodelled;
      case AdminOp => reply := Unmodelled;
      case UnknownOp => reply := Error(UnknownCommand);
      case HGetOp =>
        if |cmd| < 3 {
          reply := Error(WrongArity);
        } else {
          reply := HandleHGet(store, cmd[1], cmd[2], now);
        }
      case _ =>
        if |cmd| < 2 {
          reply := Error(WrongArity);
        } else {
          reply := RunOnKeys(store, op, cmd, now);
        }
    }
  }

  /** `execute_command`: run the command, then log it if it is one of the logged ones. */
  method ExecuteCommand(store: ShardedStore, aof: AppendOnlyFile?, cmd: Command, now: nat, picks: seq<Pick>)
    returns (reply: Reply)
    requires store.Valid()
    modifies store, store.queues, aof
    ensures store.Valid() && (store.View(), reply) == Execute(store.cfg, old(store.View()), cmd, now, picks)
    ensures aof != null ==>
              aof.View() == if Logged(cmd)
                            then PerformAll(old(aof.View()), Script(aof.fsync, Append(EncodeCommand(cmd))), 0)
                            else old(aof.View())
  {
    hide Merged, Partitioned, Dispatch, OpOf, EncodeCommand, PerformAll, Script;
    if cmd == [] {
      return Error(EmptyCommand);
    }
    reply := RunOp(store, OpOf(cmd[0]), cmd, now, picks);
    if aof != null && Logged(cmd) {
      aof.AppendCommand(cmd);
    }
  }
}
