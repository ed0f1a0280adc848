/**
 * Sequential memory accounting: the counter against the true total, over every command and run,
 * and the bound that admission control gives on it.
 */
module Accounting {
  import opened Basics
  import Decimal
  import opened S3Fifo
  import opened Sums
  import opened Store
  import opened Commands
  import opened Reference

  /** By how much the counter exceeds the total size of the stored entries. */
  ghost function Excess(db: Db): int {
    db.used - Total(db.entries)
  }

  // ---------------------------------------------------------------- totals under map updates

  ghost function SizeAt(entries: map<Bytes, Entry>, k: Bytes): nat {
    if k in entries then EntrySize(k, entries[k]) else 0
  }

  lemma {:induction false} TotalPut(entries: map<Bytes, Entry>, k: Bytes, e: Entry)
    ensures Total(entries[k := e]) == Total(entries) - SizeAt(entries, k) + EntrySize(k, e)
  {
    SumUpdate(entries, EntrySize, k, e);
    if k in entries {
      SumRemove(entries, EntrySize, k);
    } else {
      DropAbsent(entries, k);
    }
  }

  lemma {:induction false} TotalDrop(entries: map<Bytes, Entry>, k: Bytes)
    requires k in entries
    ensures Total(entries - {k}) == Total(entries) - EntrySize(k, entries[k])
  {
    SumRemove(entries, EntrySize, k);
  }

  // ---------------------------------------------------------------- steps that keep the excess

  lemma {:induction false} ReapKeeps(cfg: Config, db: Db, k: Bytes, now: nat)
    requires cfg.maxMemory > 0
    ensures Excess(Reap(cfg, db, k, now)) == Excess(db)
  {
    if k in db.entries {
      TotalDrop(db.entries, k);
    }
  }

  lemma {:induction false} ReapAllKeeps(cfg: Config, db: Db, keys: seq<Bytes>, now: nat)
    requires cfg.maxMemory > 0
    ensures Excess(ReapAll(cfg, db, keys, now)) == Excess(db)
    decreases |keys|
  {
    if keys != [] {
      ReapKeeps(cfg, db, keys[0], now);
      ReapAllKeeps(cfg, Reap(cfg, db, keys[0], now), keys[1..], now);
    }
  }

  lemma {:induction false} DeleteKeeps(cfg: Config, db: Db, k: Bytes)
    requires cfg.maxMemory > 0
    ensures Excess(Delete(cfg, db, k)) == Excess(db)
  {
    if k in db.entries {
      TotalDrop(db.entries, k);
    }
  }

  lemma {:induction false} DeleteAllKeeps(cfg: Config, db: Db, keys: seq<Bytes>, now: nat)
    requires cfg.maxMemory > 0
    ensures Excess(DeleteAll(cfg, db, keys, now).0) == Excess(db)
    decreases |keys|
  {
    if keys != [] {
      DeleteKeeps(cfg, db, keys[0]);
      DeleteAllKeeps(cfg, Delete(cfg, db, keys[0]), keys[1..], now);
    }
  }

  lemma {:induction false} AccessKeeps(cfg: Config, db: Db, k: Bytes)
    ensures Excess(Access(cfg, db, k)) == Excess(db)
  {
    if UsesQueues(cfg) && k in db.entries {
      TotalPut(db.entries, k, Access(cfg, db, k).entries[k]);
    }
  }

  lemma {:induction false} GetKeeps(cfg: Config, db: Db, k: Bytes, now: nat)
    requires cfg.maxMemory > 0
    ensures Excess(Get(cfg, db, k, now).0) == Excess(db)
    ensures Excess(ReadHash(cfg, db, k, now).0) == Excess(db)
  {
    AccessKeeps(cfg, db, k);
    ReapKeeps(cfg, db, k, now);
  }

  lemma {:induction false} MGetKeeps(cfg: Config, db: Db, keys: seq<Bytes>, now: nat)
    requires cfg.maxMemory > 0
    ensures Excess(ExecMGet(cfg, db, keys, now).0) == Excess(db)
    decreases |keys|
  {
    if keys != [] {
      GetKeeps(cfg, db, keys[0], now);
      MGetKeeps(cfg, Get(cfg, db, keys[0], now).0, keys[1..], now);
    }
  }

  lemma {:induction false} SetKeeps(cfg: Config, db: Db, k: Bytes, v: Bytes, ttl: Option<nat>, now: nat)
    requires cfg.maxMemory > 0
    ensures Excess(SetAndCharge(cfg, db, k, v, ttl, now)) == Excess(db)
  {
    TotalPut(db.entries, k, Set(cfg, db, k, v, ttl, now).entries[k]);
  }

  lemma {:induction false} SetPairsKeeps(cfg: Config, db: Db, pairs: Pairs, now: nat)
    requires cfg.maxMemory > 0
    ensures Excess(SetPairs(cfg, db, pairs, now)) == Excess(db)
    decreases |pairs|
  {
    if pairs != [] {
      var (k, v) := pairs[0];
      SetKeeps(cfg, db, k, v, None, now);
      SetPairsKeeps(cfg, SetAndCharge(cfg, db, k, v, None, now), pairs[1..], now);
    }
  }

  lemma {:induction false} SetExpiryKeeps(db: Db, k: Bytes, expiry: Option<nat>)
    requires k in db.entries
    ensures Excess(SetExpiry(db, k, expiry)) == Excess(db)
  {
    TotalPut(db.entries, k, db.entries[k].(expiry := expiry));
  }

  lemma {:induction false} HSetKeeps(cfg: Config, db: Db, k: Bytes, pairs: Pairs, now: nat)
    requires cfg.maxMemory > 0
    ensures Excess(HSet(cfg, db, k, pairs, now).0) == Excess(db)
  {
    DeleteKeeps(cfg, db, k);
    var d := if k in db.entries && !IsLive(db.entries, k, now) then Delete(cfg, db, k) else db;
    if k in d.entries {
      var e := d.entries[k];
      if e.value.Hash? {
        TotalPut(d.entries, k, e.(value := Hash(PutAll(e.value.fields, pairs).0)));
      }
    } else {
      TotalPut(d.entries, k, Entry(Hash(PutAll(map[], pairs).0), None, Track(cfg, d, k).1, 0));
    }
  }

  // ---------------------------------------------------------------- eviction conserves

  lemma {:induction false} ExpelKeeps(db: Db, k: Bytes)
    requires k in db.entries
    ensures var (d, n) := Expel(db, k);
            && Excess(d) == Excess(db) && d.used == db.used - n && n > 0 && |d.entries| == |db.entries| - 1
  {
    TotalDrop(db.entries, k);
    DropOneCount(db.entries, k);
  }

  lemma {:induction false} EvictS3Keeps(cfg: Config, db: Db, shards: seq<nat>)
    ensures var (d, n) := EvictS3(cfg, db, shards);
            && Excess(d) == Excess(db) && d.used == db.used - n
            && |d.entries| == |db.entries| - (if n == 0 then 0 else 1)
    decreases |shards|
  {
    hide PopVictim, Total, Expel;
    if shards != [] {
      var i := shards[0] % cfg.numShards;
      var (q, victim) := PopVictim(QueueAt(db, i), cfg.hash, cfg.caps);
      var d := SetQueue(db, i, q);
      if victim.Some? && victim.value in d.entries && ShardOf(cfg, victim.value) == i {
        ExpelKeeps(d, victim.value);
      } else {
        EvictS3Keeps(cfg, d, shards[1..]);
      }
    }
  }

  /** One eviction: what it reports freed is what left the counter, and it removes at most one entry. */
  lemma {:induction false} EvictOneKeeps(cfg: Config, db: Db, pick: Pick)
    ensures var (d, n) := EvictOne(cfg, db, pick);
            && Excess(d) == Excess(db) && d.used == db.used - n
            && |d.entries| == |db.entries| - (if n == 0 then 0 else 1)
  {
    hide EvictS3, Total, Expel;
    EvictS3Keeps(cfg, db, pick.shards);
    if pick.victim.Some? && pick.victim.value in db.entries {
      ExpelKeeps(db, pick.victim.value);
    }
  }

  lemma {:induction false} EvictLoopKeeps(cfg: Config, db: Db, needed: nat, picks: seq<Pick>, freed: nat, attempts: nat)
    requires attempts <= MAX_ATTEMPTS
    ensures var d := EvictLoop(cfg, db, needed, picks, freed, attempts);
            && Excess(d) == Excess(db)
            && d.used <= db.used
            && |db.entries| - (MAX_ATTEMPTS - attempts) <= |d.entries| <= |db.entries|
    decreases |picks|
  {
    hide EvictOne;
    if !(freed >= needed || attempts >= MAX_ATTEMPTS || picks == []) {
      EvictOneKeeps(cfg, db, picks[0]);
      var (d, n) := EvictOne(cfg, db, picks[0]);
      if n != 0 {
        EvictLoopKeeps(cfg, d, needed, picks[1..], freed + n, attempts + 1);
      }
    }
  }

  ghost predicate OneEach(pairs: Pairs) {
    forall i, j :: 0 <= i < j < |pairs| ==> pairs[i].0 != pairs[j].0
  }

  lemma {:induction false} NetSizeElsewhere(db: Db, d: Db, pairs: Pairs, now: nat)
    requires forall i :: 0 <= i < |pairs| ==>
               (pairs[i].0 in d.entries <==> pairs[i].0 in db.entries)
               && (pairs[i].0 in db.entries ==> d.entries[pairs[i].0] == db.entries[pairs[i].0])
    ensures NetSize(d, pairs, now) == NetSize(db, pairs, now)
    decreases |pairs|
  {
    hide Size;
    if pairs != [] {
      NetSizeElsewhere(db, d, pairs[1..], now);
    }
  }

  /** What MSET asks for is what it adds: if it names each key once and meets no dead entry. */
  lemma {:induction false} NetSizeIsGrowth(cfg: Config, db: Db, pairs: Pairs, now: nat)
    requires OneEach(pairs) && forall i :: 0 <= i < |pairs| && pairs[i].0 in db.entries ==> IsLive(db.entries, pairs[i].0, now)
    ensures Total(SetPairs(cfg, db, pairs, now).entries) - Total(db.entries) == NetSize(db, pairs, now)
    decreases |pairs|
  {
    hide Total, Size, Track, Untrack;
    if pairs != [] {
      var (k, v) := pairs[0];
      var d := SetAndCharge(cfg, db, k, v, None, now);
      TotalPut(db.entries, k, d.entries[k]);
      NetSizeElsewhere(db, d, pairs[1..], now);
      NetSizeIsGrowth(cfg, d, pairs[1..], now);
    }
  }

  /**
   * Admission: a granted request fits under the limit; the counter falls by exactly the total
   * size of the entries removed, of which there are at most 100; and a store within its limit
   * is granted whenever the evictions freed as much as was asked for.
   */
  lemma {:induction false} Admission(cfg: Config, db: Db, needed: nat, picks: seq<Pick>)
    requires cfg.maxMemory > 0
    ensures var (d, ok) := EvictIfNeeded(cfg, db, needed, picks);
            && (ok <==> d.used + needed <= cfg.maxMemory)
            && db.used - d.used == Total(db.entries) - Total(d.entries)
            && Total(db.entries) - Total(d.entries) == Total(db.entries - d.entries.Keys)
            && |db.entries| - MAX_ATTEMPTS <= |d.entries|
            && (db.used <= cfg.maxMemory && db.used - d.used >= needed ==> ok)
  {
    EvictLoopKeeps(cfg, db, needed, picks, 0, 0);
    EvictLoopShrinks(cfg, db, needed, picks, 0, 0);
    var d := EvictIfNeeded(cfg, db, needed, picks).0;
    SumSplit(db.entries, d.entries, EntrySize);
  }

  lemma {:induction false} AdmitKeeps(cfg: Config, db: Db, needed: int, picks: seq<Pick>)
    requires cfg.maxMemory > 0
    ensures Excess(Admit(cfg, db, needed, picks).0) == Excess(db)
    ensures Admit(cfg, db, needed, picks).0.used <= db.used
    ensures Admit(cfg, db, needed, picks).1 && needed > 0
            ==> Admit(cfg, db, needed, picks).0.used + needed <= cfg.maxMemory
  {
    if needed > 0 {
      EvictLoopKeeps(cfg, db, needed, picks, 0, 0);
    }
  }

  // ---------------------------------------------------------------- the two leaks

  /** HDEL emptying a hash: the field bytes are never given back. */
  ghost function HDelLeak(db: Db, k: Bytes, names: seq<Bytes>, now: nat): nat {
    if IsLive(db.entries, k, now) && db.entries[k].value.Hash?
       && TakeAll(db.entries[k].value.fields, names).1 > 0
       && TakeAll(db.entries[k].value.fields, names).0 == map[]
    then FieldBytes(db.entries[k].value.fields) else 0
  }

  lemma {:induction false} HDelLeaks(cfg: Config, db: Db, k: Bytes, names: seq<Bytes>, now: nat)
    requires cfg.maxMemory > 0
    ensures Excess(HDel(cfg, db, k, names, now).0) == Excess(db) + HDelLeak(db, k, names, now)
  {
    ReapKeeps(cfg, db, k, now);
    if IsLive(db.entries, k, now) && db.entries[k].value.Hash? {
      var e := db.entries[k];
      TotalDrop(db.entries, k);
      TotalPut(db.entries, k, e.(value := Hash(TakeAll(e.value.fields, names).0)));
    }
  }

  /** FLUSH: entries that are expired but still stored are cleared without being given back. */
  ghost function FlushLeak(db: Db, now: nat): nat {
    Total(db.entries - LiveEntries(db.entries, now).Keys)
  }

  lemma {:induction false} FlushLeaks(db: Db, now: nat)
    requires Excess(db) >= 0
    ensures Excess(Flush(db, now)) == Excess(db) + FlushLeak(db, now)
  {
    SumSplit(db.entries, LiveEntries(db.entries, now), EntrySize);
  }

  ghost function LeakOf(db: Db, op: Op, cmd: Command, now: nat): nat {
    match op
    case HDelOp => if |cmd| < 3 then 0 else HDelLeak(db, cmd[1], cmd[2..], now)
    case FlushOp => FlushLeak(db, now)
    case _ => 0
  }

  ghost function Leak(db: Db, cmd: Command, now: nat): nat {
    if cmd == [] then 0 else LeakOf(db, OpOf(cmd[0]), cmd, now)
  }

  // ---------------------------------------------------------------- all commands

  lemma {:induction false} SetCommandKeeps(cfg: Config, db: Db, cmd: Command, now: nat, picks: seq<Pick>)
    requires cfg.maxMemory > 0
    ensures Excess(ExecSet(cfg, db, cmd, now, picks).0) == Excess(db)
  {
    if |cmd| >= 3 {
      AdmitKeeps(cfg, db, Size(cmd[1], Str(cmd[2])), picks);
      var d := Admit(cfg, db, Size(cmd[1], Str(cmd[2])), picks).0;
      var o := ParseOptions(cmd, 3, NO_OPTIONS);
      if o.Ok? {
        SetKeeps(cfg, d, cmd[1], cmd[2], o.value.ttl, now);
      }
    }
  }

  lemma {:induction false} IncrWriteKeeps(cfg: Config, db: Db, k: Bytes, sum: int, prev: nat, ttl: Option<nat>, now: nat, picks: seq<Pick>)
    requires cfg.maxMemory > 0
    ensures Excess(IncrWrite(cfg, db, k, sum, prev, ttl, now, picks).0) == Excess(db)
  {
    var v := Decimal.SignedDecimal(sum);
    AdmitKeeps(cfg, db, Size(k, Str(v)) - prev, picks);
    SetKeeps(cfg, Admit(cfg, db, Size(k, Str(v)) - prev, picks).0, k, v, ttl, now);
  }

  lemma {:induction false} IncrKeeps(cfg: Config, db: Db, k: Bytes, delta: int, now: nat, picks: seq<Pick>)
    requires cfg.maxMemory > 0
    ensures Excess(ExecIncr(cfg, db, k, delta, now, picks).0) == Excess(db)
  {
    if !IsLive(db.entries, k, now) {
      ReapKeeps(cfg, db, k, now);
      IncrWriteKeeps(cfg, Reap(cfg, db, k, now), k, delta, 0, None, now, picks);
    } else if db.entries[k].value.Str? && Decimal.ParseI64(db.entries[k].value.bytes).Some? {
      var e := db.entries[k];
      var ttl := if e.expiry.Some? then Some(e.expiry.value - now) else None;
      var sum := Decimal.ParseI64(e.value.bytes).value + delta;
      IncrWriteKeeps(cfg, db, k, sum, EntrySize(k, e), ttl, now, picks);
    }
  }

  lemma {:induction false} MSetKeeps(cfg: Config, db: Db, cmd: Command, now: nat, picks: seq<Pick>)
    requires cfg.maxMemory > 0
    ensures Excess(ExecMSet(cfg, db, cmd, now, picks).0) == Excess(db)
  {
    var pairs := MSetPairs(cmd, 1);
    AdmitKeeps(cfg, db, NetSize(db, pairs, now), picks);
    SetPairsKeeps(cfg, Admit(cfg, db, NetSize(db, pairs, now), picks).0, pairs, now);
  }

  lemma {:induction false} ExpireKeeps(cfg: Config, db: Db, cmd: Command, now: nat)
    requires cfg.maxMemory > 0
    ensures Excess(ExecExpire(cfg, db, cmd, now).0) == Excess(db)
  {
    if |cmd| >= 3 && Decimal.ParseI64(cmd[2]).Some? {
      DeleteAllKeeps(cfg, db, [cmd[1]], now);
      ReapKeeps(cfg, db, cmd[1], now);
      if IsLive(db.entries, cmd[1], now) && Decimal.ParseI64(cmd[2]).value > 0 {
        SetExpiryKeeps(db, cmd[1], Some(now + Decimal.ParseI64(cmd[2]).value));
      }
    }
  }

  lemma {:induction false} KeyCommandsKeep(cfg: Config, db: Db, op: Op, cmd: Command, now: nat)
    requires cfg.maxMemory > 0 && |cmd| >= 2
    ensures Excess(ExecOnKeys(cfg, db, op, cmd, now).0) == Excess(db)
  {
    hide DeleteAll, ExecMGet, Get, ReadHash, Reap, SetExpiry, Excess;
    var k := cmd[1];
    if op == DelOp {
      DeleteAllKeeps(cfg, db, cmd[1..], now);
    } else if op == MGetOp {
      MGetKeeps(cfg, db, cmd[1..], now);
    } else {
      GetKeeps(cfg, db, k, now);
      ReapKeeps(cfg, db, k, now);
      if IsLive(db.entries, k, now) {
        SetExpiryKeeps(db, k, None);
      }
    }
  }

  /** The counter is exact but for the two leaks, whatever the command. */
  lemma {:induction false} CommandAccounting(cfg: Config, db: Db, cmd: Command, now: nat, picks: seq<Pick>)
    requires cfg.maxMemory > 0 && Excess(db) >= 0
    ensures Excess(Execute(cfg, db, cmd, now, picks).0) == Excess(db) + Leak(db, cmd, now)
  {
    if cmd != [] {
      DispatchAccounting(cfg, db, OpOf(cmd[0]), cmd, now, picks);
    }
  }

  lemma {:induction false} DispatchAccounting(cfg: Config, db: Db, op: Op, cmd: Command, now: nat, picks: seq<Pick>)
    requires cfg.maxMemory > 0 && Excess(db) >= 0
    ensures Excess(Dispatch(cfg, db, op, cmd, now, picks).0) == Excess(db) + LeakOf(db, op, cmd, now)
  {
    hide Dispatch, ExecSet, ExecMSet, ExecExpire, HSet, HDel, ExecIncr, ExecOnKeys, Flush, ReadHash, Excess, HDelLeak, FlushLeak, DeltaOf;
    DispatchCases(cfg, db, op, cmd, now, picks);
    if op == SetOp {
      SetCommandKeeps(cfg, db, cmd, now, picks);
    } else if op == MSetOp {
      MSetKeeps(cfg, db, cmd, now, picks);
    } else if op == ExpireOp {
      ExpireKeeps(cfg, db, cmd, now);
    } else if op == HSetOp {
      if |cmd| >= 4 { HSetKeeps(cfg, db, cmd[1], MSetPairs(cmd, 2), now); }
    } else if op == HDelOp {
      if |cmd| >= 3 { HDelLeaks(cfg, db, cmd[1], cmd[2..], now); }
    } else if op == FlushOp {
      FlushLeaks(db, now);
    } else if IsIncr(op) {
      if DeltaOf(op, cmd).Ok? { IncrKeeps(cfg, db, cmd[1], DeltaOf(op, cmd).value, now, picks); }
    } else if op == HGetOp {
      if |cmd| >= 3 { GetKeeps(cfg, db, cmd[1], now); }
    } else if |cmd| >= 2 {
      KeyCommandsKeep(cfg, db, op, cmd, now);
    }
  }

  // ---------------------------------------------------------------- runs

  /** The leaks along a run. */
  ghost function RunLeak(cfg: Config, db: Db, events: seq<Event>): nat
    decreases |events|
  {
    if events == [] then 0
    else
      match events[0]
      case Sampling(keys, at) => RunLeak(cfg, ReapAll(cfg, db, keys, at), events[1..])
      case Request(cmd, picks, at) =>
        Leak(db, cmd, at) + RunLeak(cfg, Execute(cfg, db, cmd, at, picks).0, events[1..])
  }

  lemma {:induction false} RunAccounting(cfg: Config, db: Db, events: seq<Event>)
    requires cfg.maxMemory > 0 && Excess(db) >= 0
    ensures Excess(Run(cfg, db, events).0) == Excess(db) + RunLeak(cfg, db, events)
    decreases |events|
  {
    if events != [] {
      match events[0]
      case Sampling(keys, at) =>
        ReapAllKeeps(cfg, db, keys, at);
        RunAccounting(cfg, ReapAll(cfg, db, keys, at), events[1..]);
      case Request(cmd, picks, at) =>
        CommandAccounting(cfg, db, cmd, at, picks);
        RunAccounting(cfg, Execute(cfg, db, cmd, at, picks).0, events[1..]);
    }
  }

  lemma {:induction false} SizeWithinTotal(entries: map<Bytes, Entry>, k: Bytes)
    requires k in entries
    ensures EntrySize(k, entries[k]) <= Total(entries)
  {
    SumRemove(entries, EntrySize, k);
  }

  /**
   * From a fresh server, the counter is the total plus the leaks so far. After every command it
   * therefore covers all that is stored. That it does so at every subtraction inside a command is
   * the business of the sharded store, whose refunds ask for it.
   */
  lemma {:induction false} SequentialAccounting(cfg: Config, events: seq<Event>)
    requires cfg.maxMemory > 0
    ensures var d := Run(cfg, Fresh(cfg), events).0;
            && d.used == Total(d.entries) + RunLeak(cfg, Fresh(cfg), events)
            && forall k :: k in d.entries ==> d.used >= EntrySize(k, d.entries[k])
  {
    RunAccounting(cfg, Fresh(cfg), events);
    var d := Run(cfg, Fresh(cfg), events).0;
    forall k | k in d.entries ensures d.used >= EntrySize(k, d.entries[k]) {
      SizeWithinTotal(d.entries, k);
    }
  }

  // ---------------------------------------------------------------- the memory bound

  /** The commands that never write without asking for their whole size first. */
  predicate Disciplined(op: Op) {
    !IsIncr(op) && op != MSetOp && op != HSetOp
  }

  lemma {:induction false} SetBounded(cfg: Config, db: Db, cmd: Command, now: nat, picks: seq<Pick>)
    requires cfg.maxMemory > 0 && Excess(db) >= 0 && |cmd| >= 3
    requires ExecSet(cfg, db, cmd, now, picks).1 != Error(OutOfMemory)
    ensures var d := ExecSet(cfg, db, cmd, now, picks).0;
            Total(d.entries) <= d.used <= cfg.maxMemory
  {
    AdmitKeeps(cfg, db, Size(cmd[1], Str(cmd[2])), picks);
    SetCommandKeeps(cfg, db, cmd, now, picks);
  }

  /** No disciplined command ever pushes the counter above the limit. */
  lemma {:induction false} DisciplinedBounded(cfg: Config, db: Db, op: Op, cmd: Command, now: nat, picks: seq<Pick>)
    requires cfg.maxMemory > 0 && 0 <= Excess(db) && db.used <= cfg.maxMemory && Disciplined(op)
    ensures Dispatch(cfg, db, op, cmd, now, picks).0.used <= cfg.maxMemory
  {
    hide Dispatch, DeleteAll, ExecMGet, HDel, EvictIfNeeded, ParseOptions, LiveEntries, DeltaOf;
    DispatchCases(cfg, db, op, cmd, now, picks);
    if op == SetOp {
      if |cmd| >= 3 { AdmitKeeps(cfg, db, Size(cmd[1], Str(cmd[2])), picks); }
    } else if op == ExpireOp || (op == DelOp && |cmd| >= 2) {
      DeleteAllShrinks(cfg, db, if op == DelOp then cmd[1..] else if |cmd| >= 3 then [cmd[1]] else [], now);
    } else if op == MGetOp && |cmd| >= 2 {
      MGetShrinks(cfg, db, cmd[1..], now);
    } else if op == HDelOp && |cmd| >= 3 {
      HDelShrinks(cfg, db, cmd[1], cmd[2..], now);
    }
  }

  lemma {:induction false} HDelShrinks(cfg: Config, db: Db, k: Bytes, names: seq<Bytes>, now: nat)
    requires cfg.maxMemory > 0
    ensures HDel(cfg, db, k, names, now).0.used <= db.used
  {
    if IsLive(db.entries, k, now) && db.entries[k].value.Hash? {
      var fields := db.entries[k].value.fields;
      TakeAllCount(fields, names);
      var left := fields - Elements(names);
      SumSplit(fields, left, PairSize);
    }
  }

  lemma {:induction false} DeleteAllShrinks(cfg: Config, db: Db, keys: seq<Bytes>, now: nat)
    requires cfg.maxMemory > 0
    ensures DeleteAll(cfg, db, keys, now).0.used <= db.used
    decreases |keys|
  {
    if keys != [] {
      DeleteAllShrinks(cfg, Delete(cfg, db, keys[0]), keys[1..], now);
    }
  }

  lemma {:induction false} MGetShrinks(cfg: Config, db: Db, keys: seq<Bytes>, now: nat)
    requires cfg.maxMemory > 0
    ensures ExecMGet(cfg, db, keys, now).0.used <= db.used
    decreases |keys|
  {
    if keys != [] {
      MGetShrinks(cfg, Get(cfg, db, keys[0], now).0, keys[1..], now);
    }
  }

  lemma {:induction false} ReapAllShrinks(cfg: Config, db: Db, keys: seq<Bytes>, now: nat)
    requires cfg.maxMemory > 0
    ensures ReapAll(cfg, db, keys, now).used <= db.used
    decreases |keys|
  {
    if keys != [] {
      ReapAllShrinks(cfg, Reap(cfg, db, keys[0], now), keys[1..], now);
    }
  }

  /** The memory bound over runs: disciplined commands keep the stored total within the limit. */
  lemma {:induction false} MemoryBound(cfg: Config, db: Db, events: seq<Event>)
    requires cfg.maxMemory > 0 && 0 <= Excess(db) && db.used <= cfg.maxMemory
    requires forall i :: 0 <= i < |events| && events[i].Request? && events[i].cmd != []
                         ==> Disciplined(OpOf(events[i].cmd[0]))
    ensures var d := Run(cfg, db, events).0;
            Total(d.entries) <= d.used <= cfg.maxMemory
    decreases |events|
  {
    if events != [] {
      match events[0]
      case Sampling(keys, at) =>
        ReapAllKeeps(cfg, db, keys, at);
        ReapAllShrinks(cfg, db, keys, at);
        MemoryBound(cfg, ReapAll(cfg, db, keys, at), events[1..]);
      case Request(cmd, picks, at) =>
        CommandAccounting(cfg, db, cmd, at, picks);
        if cmd != [] {
          DisciplinedBounded(cfg, db, OpOf(cmd[0]), cmd, at, picks);
        }
        MemoryBound(cfg, Execute(cfg, db, cmd, at, picks).0, events[1..]);
    }
  }
}
