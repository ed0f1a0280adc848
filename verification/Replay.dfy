/**
 * Replaying the log: at any later moment, the commands logged by a run, fed through the same
 * dispatcher into an empty store, rebuild the run's keys, values and set of keys with a lifetime.
 */
module Replaying {
  import opened Basics
  import opened Decimal
  import opened Resp
  import opened LogReader
  import opened Store
  import opened Commands
  import opened Reference
  import opened Snapshot

  // ---------------------------------------------------------------- same keys, values and TTL bearers

  /** Two key spaces that differ at most in when their mortal keys die. */
  ghost predicate SameShape(a: Keyspace, b: Keyspace) {
    && a.Keys == b.Keys
    && forall k :: k in a ==> a[k].value == b[k].value && a[k].expiry.Some? == b[k].expiry.Some?
  }

  lemma {:induction false} ShapeOfSet(a: Keyspace, b: Keyspace, cmd: Command, t: nat, u: nat)
    requires SameShape(a, b)
    ensures SameShape(RefSet(a, cmd, t, GRANTED).0, RefSet(b, cmd, u, GRANTED).0)
  {
    if |cmd| >= 3 {
      assert a - {} == a && b - {} == b;
      assert StringIn(a, cmd[1]) == StringIn(b, cmd[1]);
    }
  }

  lemma {:induction false} ShapeOfPut(a: Keyspace, b: Keyspace, pairs: Pairs)
    requires SameShape(a, b)
    ensures SameShape(RefPutStrings(a, pairs), RefPutStrings(b, pairs))
    decreases |pairs|
  {
    if pairs != [] {
      var i := Item(Str(pairs[0].1), None);
      ShapeOfPut(a[pairs[0].0 := i], b[pairs[0].0 := i], pairs[1..]);
    }
  }

  lemma {:induction false} ShapeOfMSet(a: Keyspace, b: Keyspace, cmd: Command)
    requires SameShape(a, b)
    ensures SameShape(RefMSet(a, cmd, GRANTED).0, RefMSet(b, cmd, GRANTED).0)
  {
    assert a - {} == a && b - {} == b;
    ShapeOfPut(a, b, MSetPairs(cmd, 1));
  }

  lemma {:induction false} ShapeOfIncr(a: Keyspace, b: Keyspace, k: Bytes, delta: int)
    requires SameShape(a, b)
    ensures SameShape(RefIncr(a, k, delta, GRANTED).0, RefIncr(b, k, delta, GRANTED).0)
  {
    assert a - {} == a && b - {} == b;
  }

  lemma {:induction false} ShapeOfHSet(a: Keyspace, b: Keyspace, cmd: Command)
    requires SameShape(a, b)
    ensures SameShape(RefHSet(a, cmd).0, RefHSet(b, cmd).0)
  {
    hide PutAll, MSetPairs, SameShape;
    if |cmd| >= 4 && (|cmd| - 2) % 2 == 0 {
      var k := cmd[1];
      ShapeAt(a, b, k);
      var fields := if k in a && a[k].value.Hash? then a[k].value.fields else map[];
      ShapeOfUpdate(a, b, k, Hash(PutAll(fields, MSetPairs(cmd, 2)).0),
                    if k in a then a[k].expiry else None, if k in b then b[k].expiry else None);
    }
  }

  lemma {:induction false} ShapeAt(a: Keyspace, b: Keyspace, k: Bytes)
    requires SameShape(a, b)
    ensures k in a <==> k in b
    ensures k in a ==> a[k].value == b[k].value && a[k].expiry.Some? == b[k].expiry.Some?
  {
  }

  lemma {:induction false} ShapeOfUpdate(a: Keyspace, b: Keyspace, k: Bytes, v: Value, x: Option<nat>, y: Option<nat>)
    requires SameShape(a, b) && x.Some? == y.Some?
    ensures SameShape(a[k := Item(v, x)], b[k := Item(v, y)])
  {
  }

  lemma {:induction false} ShapeOfHDel(a: Keyspace, b: Keyspace, cmd: Command)
    requires SameShape(a, b)
    ensures SameShape(RefHDel(a, cmd).0, RefHDel(b, cmd).0)
  {
  }

  lemma {:induction false} ShapeOfExpire(a: Keyspace, b: Keyspace, cmd: Command, t: nat, u: nat)
    requires SameShape(a, b)
    ensures SameShape(RefExpire(a, cmd, t).0, RefExpire(b, cmd, u).0)
  {
  }

  /** No command looks at when a key will die, only at whether it is there. */
  lemma {:induction false} ShapeStep(a: Keyspace, b: Keyspace, cmd: Command, t: nat, u: nat)
    requires SameShape(a, b)
    ensures SameShape(RefExecute(a, cmd, t, GRANTED).0, RefExecute(b, cmd, u, GRANTED).0)
  {
    hide RefDispatch, DeltaOf, OpOf, SameShape, RefSet, RefMSet, RefIncr, RefHSet, RefHDel, RefExpire, RefDel, RefPersist;
    if cmd != [] {
      var op := OpOf(cmd[0]);
      RefDispatchCases(a, op, cmd, t, GRANTED);
      RefDispatchCases(b, op, cmd, u, GRANTED);
      if op == SetOp {
        ShapeOfSet(a, b, cmd, t, u);
      } else if op == MSetOp {
        ShapeOfMSet(a, b, cmd);
      } else if IsIncr(op) {
        if DeltaOf(op, cmd).Ok? { ShapeOfIncr(a, b, cmd[1], DeltaOf(op, cmd).value); }
      } else if op == HSetOp {
        ShapeOfHSet(a, b, cmd);
      } else if op == HDelOp {
        ShapeOfHDel(a, b, cmd);
      } else if op == ExpireOp {
        ShapeOfExpire(a, b, cmd, t, u);
      } else if op == DelOp {
        if |cmd| >= 2 { ShapeOfDel(a, b, cmd[1..]); }
      } else if op == PersistOp {
        if |cmd| >= 2 { ShapeOfPersist(a, b, cmd[1]); }
      } else {
        ShapeOfNothing();
      }
    }
  }

  lemma {:induction false} ShapeOfDel(a: Keyspace, b: Keyspace, keys: seq<Bytes>)
    requires SameShape(a, b)
    ensures SameShape(RefDel(a, keys).0, RefDel(b, keys).0)
  {
  }

  lemma {:induction false} ShapeOfPersist(a: Keyspace, b: Keyspace, k: Bytes)
    requires SameShape(a, b)
    ensures SameShape(RefPersist(a, k).0, RefPersist(b, k).0)
  {
  }

  lemma {:induction false} ShapeOfNothing()
    ensures SameShape(map[], map[])
  {
  }

  // ---------------------------------------------------------------- what is not logged changes nothing

  lemma {:induction false} UnloggedIsQuiet(m: Keyspace, cmd: Command, t: nat)
    requires !Logged(cmd) && (cmd != [] ==> OpOf(cmd[0]) != FlushOp)
    ensures RefExecute(m, cmd, t, GRANTED).0 == m
  {
    hide OpOf;
  }

  // ---------------------------------------------------------------- no command leaves an empty hash

  lemma {:induction false} PutAllSize(fields: map<Bytes, Bytes>, pairs: Pairs)
    ensures fields.Keys <= PutAll(fields, pairs).0.Keys
    ensures pairs != [] ==> PutAll(fields, pairs).0 != map[]
    decreases |pairs|
  {
    if pairs != [] {
      PutAllSize(fields[pairs[0].0 := pairs[0].1], pairs[1..]);
      assert pairs[0].0 in PutAll(fields, pairs).0;
    }
  }

  lemma {:induction false} PutStringsNoEmptyHash(m: Keyspace, pairs: Pairs)
    requires NoEmptyHash(m)
    ensures NoEmptyHash(RefPutStrings(m, pairs))
    decreases |pairs|
  {
    if pairs != [] {
      PutStringsNoEmptyHash(m[pairs[0].0 := Item(Str(pairs[0].1), None)], pairs[1..]);
    }
  }

  lemma {:induction false} NoEmptyHashHSet(m: Keyspace, cmd: Command)
    requires NoEmptyHash(m)
    ensures NoEmptyHash(RefHSet(m, cmd).0)
  {
    if |cmd| >= 4 && (|cmd| - 2) % 2 == 0 {
      var k := cmd[1];
      var fields := if k in m && m[k].value.Hash? then m[k].value.fields else map[];
      assert MSetPairs(cmd, 2) != [];
      PutAllSize(fields, MSetPairs(cmd, 2));
    }
  }

  lemma {:induction false} NoEmptyHashHDel(m: Keyspace, cmd: Command)
    requires NoEmptyHash(m)
    ensures NoEmptyHash(RefHDel(m, cmd).0)
  {
  }

  lemma {:induction false} NoEmptyHashMSet(m: Keyspace, cmd: Command, adm: Admission)
    requires NoEmptyHash(m)
    ensures NoEmptyHash(RefMSet(m, cmd, adm).0)
  {
    PutStringsNoEmptyHash(m - adm.victims, MSetPairs(cmd, 1));
  }

  lemma {:induction false} NoEmptyHashLess(m: Keyspace, cmd: Command)
    requires NoEmptyHash(m)
    ensures NoEmptyHash(map[]) && (|cmd| >= 2 ==> NoEmptyHash(RefDel(m, cmd[1..]).0))
  {
  }

  lemma {:induction false} NoEmptyHashSet(m: Keyspace, cmd: Command, t: nat, adm: Admission)
    requires NoEmptyHash(m)
    ensures NoEmptyHash(RefSet(m, cmd, t, adm).0)
  {
    hide ParseOptions;
  }

  lemma {:induction false} NoEmptyHashIncr(m: Keyspace, k: Bytes, delta: int, adm: Admission)
    requires NoEmptyHash(m) && I64_MIN <= delta <= I64_MAX
    ensures NoEmptyHash(RefIncr(m, k, delta, adm).0)
  {
  }

  lemma {:induction false} NoEmptyHashExpire(m: Keyspace, cmd: Command, t: nat)
    requires NoEmptyHash(m)
    ensures NoEmptyHash(RefExpire(m, cmd, t).0)
  {
  }

  lemma {:induction false} NoEmptyHashPersist(m: Keyspace, k: Bytes)
    requires NoEmptyHash(m)
    ensures NoEmptyHash(RefPersist(m, k).0)
  {
  }

  lemma {:induction false} NoEmptyHashStep(m: Keyspace, cmd: Command, t: nat, adm: Admission)
    requires NoEmptyHash(m)
    ensures NoEmptyHash(RefExecute(m, cmd, t, adm).0)
  {
    if cmd != [] {
      NoEmptyHashDispatch(m, OpOf(cmd[0]), cmd, t, adm);
    }
  }

  lemma {:induction false} NoEmptyHashDispatch(m: Keyspace, op: Op, cmd: Command, t: nat, adm: Admission)
    requires NoEmptyHash(m)
    ensures NoEmptyHash(RefDispatch(m, op, cmd, t, adm).0)
  {
    hide RefDispatch, RefMSet, RefHSet, RefHDel, RefSet, RefIncr, RefExpire, RefPersist, RefDel, NoEmptyHash, DeltaOf;
    RefDispatchCases(m, op, cmd, t, adm);
    if op == MSetOp {
      NoEmptyHashMSet(m, cmd, adm);
    } else if op == DelOp || op == FlushOp {
      NoEmptyHashLess(m, cmd);
    } else if op == SetOp {
      NoEmptyHashSet(m, cmd, t, adm);
    } else if IsIncr(op) {
      if DeltaOf(op, cmd).Ok? { NoEmptyHashIncr(m, cmd[1], DeltaOf(op, cmd).value, adm); }
    } else if op == ExpireOp {
      NoEmptyHashExpire(m, cmd, t);
    } else if op == PersistOp {
      if |cmd| >= 2 { NoEmptyHashPersist(m, cmd[1]); }
    } else if op == HSetOp {
      NoEmptyHashHSet(m, cmd);
    } else if op == HDelOp {
      NoEmptyHashHDel(m, cmd);
    }
  }

  // ---------------------------------------------------------------- stores with nothing expired

  ghost predicate AllLive(entries: map<Bytes, Entry>, now: nat) {
    forall k :: k in entries ==> !Expired(entries[k].expiry, now)
  }

  function View(entries: map<Bytes, Entry>): Keyspace {
    map k | k in entries :: Item(entries[k].value, entries[k].expiry)
  }

  lemma {:induction false} ViewIsLive(entries: map<Bytes, Entry>, now: nat)
    requires AllLive(entries, now)
    ensures View(entries) == Live(entries, now)
  {
  }

  lemma {:induction false} SetPairsAllLive(cfg: Config, db: Db, pairs: Pairs, now: nat)
    requires AllLive(db.entries, now)
    ensures AllLive(SetPairs(cfg, db, pairs, now).entries, now)
    decreases |pairs|
  {
    if pairs != [] {
      SetPairsAllLive(cfg, SetAndCharge(cfg, db, pairs[0].0, pairs[0].1, None, now), pairs[1..], now);
    }
  }

  lemma {:induction false} DeleteAllAllLive(cfg: Config, db: Db, keys: seq<Bytes>, now: nat)
    requires AllLive(db.entries, now)
    ensures AllLive(DeleteAll(cfg, db, keys, now).0.entries, now)
    decreases |keys|
  {
    if keys != [] {
      DeleteAllAllLive(cfg, Delete(cfg, db, keys[0]), keys[1..], now);
    }
  }

  lemma {:induction false} MGetAllLive(cfg: Config, db: Db, keys: seq<Bytes>, now: nat)
    requires AllLive(db.entries, now)
    ensures AllLive(ExecMGet(cfg, db, keys, now).0.entries, now)
    decreases |keys|
  {
    if keys != [] {
      MGetAllLive(cfg, Get(cfg, db, keys[0], now).0, keys[1..], now);
    }
  }

  lemma {:induction false} SetAllLive(cfg: Config, db: Db, cmd: Command, now: nat, picks: seq<Pick>)
    requires AllLive(db.entries, now)
    ensures AllLive(ExecSet(cfg, db, cmd, now, picks).0.entries, now)
  {
    if |cmd| >= 3 {
      AdmitShrinks(cfg, db, Size(cmd[1], Str(cmd[2])), picks);
      OptionsTtlPositive(cmd, 3, NO_OPTIONS);
    }
  }

  lemma {:induction false} IncrWriteAllLive(cfg: Config, db: Db, k: Bytes, sum: int, prev: nat, ttl: Option<nat>, now: nat, picks: seq<Pick>)
    requires AllLive(db.entries, now) && (ttl.Some? ==> ttl.value > 0)
    ensures AllLive(IncrWrite(cfg, db, k, sum, prev, ttl, now, picks).0.entries, now)
  {
    AdmitShrinks(cfg, db, Size(k, Str(SignedDecimal(sum))) - prev, picks);
  }

  lemma {:induction false} IncrAllLive(cfg: Config, db: Db, k: Bytes, delta: int, now: nat, picks: seq<Pick>)
    requires AllLive(db.entries, now)
    ensures AllLive(ExecIncr(cfg, db, k, delta, now, picks).0.entries, now)
  {
    hide IncrWrite;
    if !IsLive(db.entries, k, now) {
      IncrWriteAllLive(cfg, Reap(cfg, db, k, now), k, delta, 0, None, now, picks);
    } else if db.entries[k].value.Str? && ParseI64(db.entries[k].value.bytes).Some? {
      var e := db.entries[k];
      var ttl := if e.expiry.Some? then Some(e.expiry.value - now) else None;
      IncrWriteAllLive(cfg, db, k, ParseI64(e.value.bytes).value + delta, EntrySize(k, e), ttl, now, picks);
    }
  }

  lemma {:induction false} MSetAllLive(cfg: Config, db: Db, cmd: Command, now: nat, picks: seq<Pick>)
    requires AllLive(db.entries, now)
    ensures AllLive(ExecMSet(cfg, db, cmd, now, picks).0.entries, now)
  {
    var pairs := MSetPairs(cmd, 1);
    AdmitShrinks(cfg, db, NetSize(db, pairs, now), picks);
    SetPairsAllLive(cfg, Admit(cfg, db, NetSize(db, pairs, now), picks).0, pairs, now);
  }

  lemma {:induction false} HashAllLive(cfg: Config, db: Db, cmd: Command, now: nat)
    requires AllLive(db.entries, now)
    ensures AllLive(ExecHSet(cfg, db, cmd, now).0.entries, now)
    ensures AllLive(ExecHDel(cfg, db, cmd, now).0.entries, now)
  {
  }

  lemma {:induction false} ExpireAllLive(cfg: Config, db: Db, cmd: Command, now: nat)
    requires AllLive(db.entries, now)
    ensures AllLive(ExecExpire(cfg, db, cmd, now).0.entries, now)
  {
    hide DeleteAll;
    if |cmd| >= 3 {
      DeleteAllAllLive(cfg, db, [cmd[1]], now);
    }
  }

  lemma {:induction false} KeyCommandsAllLive(cfg: Config, db: Db, op: Op, cmd: Command, now: nat)
    requires AllLive(db.entries, now) && |cmd| >= 2
    ensures AllLive(ExecOnKeys(cfg, db, op, cmd, now).0.entries, now)
  {
    hide DeleteAll, ExecMGet;
    if op == DelOp {
      DeleteAllAllLive(cfg, db, cmd[1..], now);
    } else if op == MGetOp {
      MGetAllLive(cfg, db, cmd[1..], now);
    }
  }

  /** A command run at `now` writes nothing that is expired at `now`. */
  lemma {:induction false} StaysAllLive(cfg: Config, db: Db, op: Op, cmd: Command, now: nat, picks: seq<Pick>)
    requires AllLive(db.entries, now)
    ensures AllLive(Dispatch(cfg, db, op, cmd, now, picks).0.entries, now)
  {
    hide Dispatch, ExecSet, ExecMSet, ExecIncr, ExecHSet, ExecHDel, ExecExpire, ExecOnKeys, ExecHGet, Flush, AllLive, DeltaOf;
    DispatchCases(cfg, db, op, cmd, now, picks);
    if op == SetOp {
      SetAllLive(cfg, db, cmd, now, picks);
    } else if op == MSetOp {
      MSetAllLive(cfg, db, cmd, now, picks);
    } else if IsIncr(op) {
      if DeltaOf(op, cmd).Ok? { IncrAllLive(cfg, db, cmd[1], DeltaOf(op, cmd).value, now, picks); }
    } else if op == HSetOp || op == HDelOp {
      HashAllLive(cfg, db, cmd, now);
    } else if op == ExpireOp {
      ExpireAllLive(cfg, db, cmd, now);
    } else if op == HGetOp || op == FlushOp {
      if |cmd| >= 3 { HGetAllLive(cfg, db, cmd[1], cmd[2], now); }
      FlushAllLive(db, now);
    } else if |cmd| >= 2 {
      KeyCommandsAllLive(cfg, db, op, cmd, now);
    }
  }

  lemma {:induction false} HGetAllLive(cfg: Config, db: Db, k: Bytes, field: Bytes, now: nat)
    requires AllLive(db.entries, now)
    ensures AllLive(ExecHGet(cfg, db, k, field, now).0.entries, now)
  {
  }

  lemma {:induction false} FlushAllLive(db: Db, now: nat)
    ensures AllLive(Flush(db, now).entries, now)
  {
  }

  // ---------------------------------------------------------------- replay through the dispatcher

  /** What the evictions of one command of a replay draw; draws that are not given find nothing. */
  function DrawnFirst(draws: seq<seq<Pick>>): seq<Pick> {
    if draws == [] then [] else draws[0]
  }

  function DrawnLater(draws: seq<seq<Pick>>): seq<seq<Pick>> {
    if draws == [] then [] else draws[1..]
  }

  /** The startup loop of src/main.rs: every logged command at one fixed time. */
  ghost function ReplayDb(cfg: Config, db: Db, cmds: seq<Command>, r: nat, draws: seq<seq<Pick>>): Db
    decreases |cmds|
  {
    if cmds == [] then db
    else ReplayDb(cfg, Execute(cfg, db, cmds[0], r, DrawnFirst(draws)).0, cmds[1..], r, DrawnLater(draws))
  }

  /** One command without a memory limit, on a store with nothing expired, is the reference command. */
  lemma {:induction false} CleanStep(cfg: Config, db: Db, cmd: Command, now: nat, picks: seq<Pick>)
    requires cfg.maxMemory == 0 && AllLive(db.entries, now)
    ensures var d := Execute(cfg, db, cmd, now, picks).0;
            AllLive(d.entries, now) && View(d.entries) == RefExecute(View(db.entries), cmd, now, GRANTED).0
  {
    hide Dispatch, RefDispatch, OpOf;
    if cmd != [] {
      StaysAllLive(cfg, db, OpOf(cmd[0]), cmd, now, picks);
    }
    Transparent(cfg, db, cmd, now, picks);
    UnlimitedGrants(cfg, db, cmd, now, picks);
    ViewIsLive(db.entries, now);
    ViewIsLive(Execute(cfg, db, cmd, now, picks).0.entries, now);
  }

  lemma {:induction false} ReplayDbIsReplay(cfg: Config, db: Db, cmds: seq<Command>, r: nat, draws: seq<seq<Pick>>)
    requires cfg.maxMemory == 0 && AllLive(db.entries, r)
    ensures View(ReplayDb(cfg, db, cmds, r, draws).entries) == Replay(View(db.entries), cmds, r)
    decreases |cmds|
  {
    hide Execute, RefExecute, View;
    if cmds != [] {
      var picks := DrawnFirst(draws);
      CleanStep(cfg, db, cmds[0], r, picks);
      ReplayDbIsReplay(cfg, Execute(cfg, db, cmds[0], r, picks).0, cmds[1..], r, DrawnLater(draws));
    }
  }

  // ---------------------------------------------------------------- what a rewrite is worth

  /** The store that a restart at `r` builds from the bytes of a rewrite made at `now`. */
  ghost function Rebuilt(cfg: Config, records: seq<Record>, now: nat, r: nat): map<Bytes, Entry> {
    ReplayDb(cfg, Fresh(cfg), ReadLog(EncodeAll(SnapshotCommands(records, now))).0, r, []).entries
  }

  /**
   * A rewrite preserves meaning, through the bytes and the dispatcher: the file reads back whole,
   * and the store rebuilt from it holds exactly the keys live at `now` with their values and
   * remaining lifetimes. A hash without fields stays behind, and nothing else.
   */
  lemma {:induction false} RewriteMeaning(cfg: Config, records: seq<Record>, entries: map<Bytes, Entry>, now: nat, r: nat)
    requires cfg.maxMemory == 0 && Lists(records, entries) && AllFit(SnapshotCommands(records, now))
    ensures var m := Live(entries, now);
            var restored := View(Rebuilt(cfg, records, now, r));
            && ReadLog(EncodeAll(SnapshotCommands(records, now))).1
            && restored == RestoredAt(Showable(m), now, r)
            && (NoEmptyHash(m) <==> restored.Keys == m.Keys)
  {
    hide Replay, ReplayDb, SnapshotCommands, RestoredAt, Showable, NoEmptyHash;
    var cmds := SnapshotCommands(records, now);
    LogRoundTrip(cmds);
    assert View(Fresh(cfg).entries) == map[];
    ReplayDbIsReplay(cfg, Fresh(cfg), cmds, r, []);
    SnapshotMeaning(records, entries, now, r);
  }

  /** Each of these keys comes back, mortal or not as it was, and with what was left of its life. */
  ghost predicate LifetimesKept(m: Keyspace, restored: Keyspace, now: nat, r: nat) {
    forall k :: k in m ==>
      && k in restored
      && match m[k].expiry
         case None => restored[k].expiry == None
         case Some(t) => restored[k].expiry.Some? && restored[k].expiry.value - r == t - now
  }

  /** Rewriting and restarting keeps all lifetimes if and only if none is longer than the largest i64. */
  lemma {:induction false} LifetimesSurvive(cfg: Config, records: seq<Record>, entries: map<Bytes, Entry>, now: nat, r: nat)
    requires cfg.maxMemory == 0 && Lists(records, entries) && AllFit(SnapshotCommands(records, now))
    ensures LifetimesKept(Showable(Live(entries, now)), View(Rebuilt(cfg, records, now, r)), now, r)
            <==> forall k :: k in Showable(Live(entries, now)) && entries[k].expiry.Some?
                             ==> entries[k].expiry.value - now <= I64_MAX
  {
    hide Rebuilt, SnapshotCommands, Lists, AllFit, NoEmptyHash, ReadLog;
    RewriteMeaning(cfg, records, entries, now, r);
    var m := Showable(Live(entries, now));
    if k :| k in m && entries[k].expiry.Some? && entries[k].expiry.value - now > I64_MAX {
      assert RestoredAt(m, now, r)[k].expiry == None;
    }
  }

  const EX: Bytes := [69, 88]

  /** A lifetime SET accepts and a rewrite drops: one second longer than the largest i64. */
  lemma {:induction false} LongLifetimeLost(cfg: Config, k: Bytes, v: Bytes, now: nat, r: nat)
    requires cfg.maxMemory == 0 && |k| <= U64_MAX && |v| <= U64_MAX
    ensures var (d, reply) := Execute(cfg, Fresh(cfg), [SET, k, v, EX, ToDecimal(I64_MAX + 1)], now, []);
            var records := [Record(k, StrShape(v), Some(now + I64_MAX + 1))];
            && reply == Okay && Lists(records, d.entries)
            && View(d.entries) == map[k := Item(Str(v), Some(now + I64_MAX + 1))]
            && View(Rebuilt(cfg, records, now, r)) == map[k := Item(Str(v), None)]
  {
    hide Execute, Rebuilt, SnapshotCommands, Lists, View, Showable, AllFit;
    var d := Execute(cfg, Fresh(cfg), [SET, k, v, EX, ToDecimal(I64_MAX + 1)], now, []).0;
    LongTtlStored(cfg, k, v, now);
    OneListed(k, d.entries[k], d.entries);
    LongRecordFits(k, v, now);
    RewriteMeaning(cfg, [Record(k, StrShape(v), Some(now + I64_MAX + 1))], d.entries, now, r);
    OneRestored(k, d.entries[k], d.entries, now, r);
  }

  lemma {:induction false} LongTtlStored(cfg: Config, k: Bytes, v: Bytes, now: nat)
    requires cfg.maxMemory == 0
    ensures var (d, reply) := Execute(cfg, Fresh(cfg), [SET, k, v, EX, ToDecimal(I64_MAX + 1)], now, []);
            && reply == Okay && d.entries.Keys == {k}
            && d.entries[k].value == Str(v) && d.entries[k].expiry == Some(now + I64_MAX + 1)
  {
    hide ParseOptions, Dispatch, ExecSet, SetAndCharge, ToDecimal;
    var cmd := [SET, k, v, EX, ToDecimal(I64_MAX + 1)];
    TtlAccepted(k, v, I64_MAX + 1);
    hide OpOf;
    EmittedNames();
    DispatchSet(cfg, Fresh(cfg), cmd, now);
    PlainSet(cfg, Fresh(cfg), cmd, now, Some(I64_MAX + 1));
    FirstEntry(cfg, k, v, I64_MAX + 1, now);
  }

  /** SET with at most a lifetime stores whatever fits. */
  lemma {:induction false} PlainSet(cfg: Config, db: Db, cmd: Command, now: nat, ttl: Option<nat>)
    requires |cmd| >= 3 && (cfg.maxMemory == 0 || db.used + Size(cmd[1], Str(cmd[2])) <= cfg.maxMemory)
    requires ParseOptions(cmd, 3, NO_OPTIONS) == Ok(NO_OPTIONS.(ttl := ttl))
    ensures ExecSet(cfg, db, cmd, now, []) == (SetAndCharge(cfg, db, cmd[1], cmd[2], ttl, now), Okay)
  {
    hide ParseOptions, SetAndCharge;
  }

  lemma {:induction false} FirstEntry(cfg: Config, k: Bytes, v: Bytes, ttl: nat, now: nat)
    ensures var d := SetAndCharge(cfg, Fresh(cfg), k, v, Some(ttl), now);
            && d.entries.Keys == {k} && d.entries[k].value == Str(v) && d.entries[k].expiry == Some(now + ttl)
  {
    hide Track, Untrack;
    assert Fresh(cfg).entries.Keys == {};
  }

  lemma {:induction false} DispatchSet(cfg: Config, db: Db, cmd: Command, now: nat)
    ensures Dispatch(cfg, db, SetOp, cmd, now, []) == ExecSet(cfg, db, cmd, now, [])
  {
    hide ExecSet;
  }

  lemma {:induction false} OneListed(k: Bytes, e: Entry, entries: map<Bytes, Entry>)
    requires entries.Keys == {k} && entries[k] == e && e.value.Str?
    ensures Lists([Record(k, StrShape(e.value.bytes), e.expiry)], entries)
  {
    var records := [Record(k, StrShape(e.value.bytes), e.expiry)];
    assert records[0].key == k;
  }

  lemma {:induction false} OneRestored(k: Bytes, e: Entry, entries: map<Bytes, Entry>, now: nat, r: nat)
    requires entries.Keys == {k} && entries[k] == e && e.value.Str? && e.expiry == Some(now + I64_MAX + 1)
    ensures View(entries) == map[k := Item(e.value, e.expiry)]
    ensures RestoredAt(Showable(Live(entries, now)), now, r) == map[k := Item(e.value, None)]
  {
    LiveAt(entries, now, k);
    assert Live(entries, now) == map[k := Item(e.value, e.expiry)];
  }

  lemma {:induction false} TtlAccepted(k: Bytes, v: Bytes, ttl: nat)
    requires 0 < ttl <= U64_MAX
    ensures ParseOptions([SET, k, v, EX, ToDecimal(ttl)], 3, NO_OPTIONS) == Ok(NO_OPTIONS.(ttl := Some(ttl)))
  {
    ParseU64InvertsWrite(ttl);
    assert Named(EX, "ex");
  }

  lemma {:induction false} LongRecordFits(k: Bytes, v: Bytes, now: nat)
    requires |k| <= U64_MAX && |v| <= U64_MAX
    ensures AllFit(SnapshotCommands([Record(k, StrShape(v), Some(now + I64_MAX + 1))], now))
  {
    var rec := Record(k, StrShape(v), Some(now + I64_MAX + 1));
    U64HasTwentyDigits(I64_MAX + 1);
    assert [rec][1..] == [];
    assert SnapshotCommands([rec], now) == [[SET, k, v], [EXPIRE, k, ToDecimal(I64_MAX + 1)]];
  }

  // ---------------------------------------------------------------- the live run and its log

  datatype Step =
    | Do(cmd: Command, at: nat)
    | Rewrite(records: seq<Record>, at: nat)

  /** The store and the log of a server without a memory limit. */
  ghost function LoggedRun(cfg: Config, db: Db, log: seq<Command>, steps: seq<Step>): (Db, seq<Command>)
    decreases |steps|
  {
    if steps == [] then (db, log)
    else
      match steps[0]
      case Do(cmd, at) =>
        LoggedRun(cfg, Execute(cfg, db, cmd, at, []).0, if Logged(cmd) then log + [cmd] else log, steps[1..])
      case Rewrite(records, at) => LoggedRun(cfg, db, SnapshotCommands(records, at), steps[1..])
  }

  /** No lifetime is longer than EXPIRE can say. */
  ghost predicate LifetimesFit(entries: map<Bytes, Entry>, now: nat) {
    forall k :: k in entries && entries[k].expiry.Some? ==> entries[k].expiry.value - now <= I64_MAX
  }

  /** A step taken while nothing stored has reached its expiry, and that is no flush. */
  ghost predicate CalmStep(db: Db, step: Step) {
    && AllLive(db.entries, step.at)
    && match step
       case Do(cmd, _) => cmd != [] ==> OpOf(cmd[0]) != FlushOp
       case Rewrite(records, at) => Lists(records, db.entries) && LifetimesFit(db.entries, at)
  }

  ghost predicate Calm(cfg: Config, db: Db, steps: seq<Step>)
    decreases |steps|
  {
    steps == [] ||
    (CalmStep(db, steps[0]) &&
     Calm(cfg, if steps[0].Do? then Execute(cfg, db, steps[0].cmd, steps[0].at, []).0 else db, steps[1..]))
  }

  lemma {:induction false} ReplaySnoc(m: Keyspace, cmds: seq<Command>, cmd: Command, r: nat)
    ensures Replay(m, cmds + [cmd], r) == RefExecute(Replay(m, cmds, r), cmd, r, GRANTED).0
  {
    hide RefExecute;
    ReplayConcat(m, cmds, [cmd], r);
    ReplayOne(Replay(m, cmds, r), cmd, r);
  }

  lemma {:induction false} RewriteShape(entries: map<Bytes, Entry>, now: nat, r: nat)
    requires AllLive(entries, now) && LifetimesFit(entries, now)
    ensures SameShape(View(entries), RestoredAt(Live(entries, now), now, r))
  {
    ViewIsLive(entries, now);
  }

  /** The log always stands for the store: the invariant of the live run. */
  ghost predicate LogFaithful(db: Db, log: seq<Command>, r: nat) {
    NoEmptyHash(View(db.entries)) && SameShape(View(db.entries), Replay(map[], log, r))
  }

  lemma {:induction false} DoFaithful(cfg: Config, db: Db, log: seq<Command>, cmd: Command, at: nat, r: nat)
    requires cfg.maxMemory == 0 && CalmStep(db, Do(cmd, at)) && LogFaithful(db, log, r)
    ensures LogFaithful(Execute(cfg, db, cmd, at, []).0, if Logged(cmd) then log + [cmd] else log, r)
  {
    hide Execute, RefExecute, View, SameShape, NoEmptyHash, Logged, OpOf;
    CleanStep(cfg, db, cmd, at, []);
    NoEmptyHashStep(View(db.entries), cmd, at, GRANTED);
    if Logged(cmd) {
      ShapeStep(View(db.entries), Replay(map[], log, r), cmd, at, r);
      ReplaySnoc(map[], log, cmd, r);
    } else {
      UnloggedIsQuiet(View(db.entries), cmd, at);
    }
  }

  lemma {:induction false} RewriteFaithful(db: Db, records: seq<Record>, at: nat, r: nat)
    requires CalmStep(db, Rewrite(records, at)) && NoEmptyHash(View(db.entries))
    ensures LogFaithful(db, SnapshotCommands(records, at), r)
  {
    ViewIsLive(db.entries, at);
    SnapshotMeaning(records, db.entries, at, r);
    RewriteShape(db.entries, at, r);
  }

  lemma {:induction false} RunFaithful(cfg: Config, db: Db, log: seq<Command>, steps: seq<Step>, r: nat)
    requires cfg.maxMemory == 0 && Calm(cfg, db, steps) && LogFaithful(db, log, r)
    ensures var (d, l) := LoggedRun(cfg, db, log, steps);
            LogFaithful(d, l, r)
    decreases |steps|
  {
    hide Execute, LogFaithful, Logged, CalmStep;
    if steps != [] {
      match steps[0]
      case Do(cmd, at) =>
        DoFaithful(cfg, db, log, cmd, at, r);
        RunFaithful(cfg, Execute(cfg, db, cmd, at, []).0, if Logged(cmd) then log + [cmd] else log, steps[1..], r);
      case Rewrite(records, at) =>
        StillNoEmptyHash(db, log, r);
        RewriteFaithful(db, records, at, r);
        RunFaithful(cfg, db, SnapshotCommands(records, at), steps[1..], r);
    }
  }

  lemma {:induction false} StillNoEmptyHash(db: Db, log: seq<Command>, r: nat)
    requires LogFaithful(db, log, r)
    ensures NoEmptyHash(View(db.entries))
  {
  }

  // ---------------------------------------------------------------- servers that start from a log

  /** The store of a server that has just started, at `r0`, from a log with these commands. */
  ghost function Started(cfg: Config, log0: seq<Command>, r0: nat, draws0: seq<seq<Pick>>): Db {
    ReplayDb(cfg, Fresh(cfg), log0, r0, draws0)
  }

  lemma {:induction false} ReplayShape(a: Keyspace, b: Keyspace, cmds: seq<Command>, t: nat, u: nat)
    requires SameShape(a, b)
    ensures SameShape(Replay(a, cmds, t), Replay(b, cmds, u))
    decreases |cmds|
  {
    hide RefExecute, SameShape;
    if cmds != [] {
      ShapeStep(a, b, cmds[0], t, u);
      ReplayShape(RefExecute(a, cmds[0], t, GRANTED).0, RefExecute(b, cmds[0], u, GRANTED).0, cmds[1..], t, u);
    }
  }

  lemma {:induction false} ReplayNoEmptyHash(m: Keyspace, cmds: seq<Command>, r: nat)
    requires NoEmptyHash(m)
    ensures NoEmptyHash(Replay(m, cmds, r))
    decreases |cmds|
  {
    hide RefExecute, NoEmptyHash;
    if cmds != [] {
      NoEmptyHashStep(m, cmds[0], r, GRANTED);
      ReplayNoEmptyHash(RefExecute(m, cmds[0], r, GRANTED).0, cmds[1..], r);
    }
  }

  /** The log that a server started from stands for its store, at whatever time it is replayed again. */
  lemma {:induction false} StartFaithful(cfg: Config, log0: seq<Command>, r0: nat, draws0: seq<seq<Pick>>, r: nat)
    requires cfg.maxMemory == 0
    ensures LogFaithful(Started(cfg, log0, r0, draws0), log0, r)
  {
    hide ReplayDb, Replay;
    assert View(Fresh(cfg).entries) == map[];
    ReplayDbIsReplay(cfg, Fresh(cfg), log0, r0, draws0);
    ReplayNoEmptyHash(map[], log0, r0);
    ReplayShape(map[], map[], log0, r0, r);
  }

  /** After any run of such a server, its log stands for its store, through the dispatcher. */
  lemma {:induction false} RunReplays(
    cfg: Config, log0: seq<Command>, r0: nat, draws0: seq<seq<Pick>>, steps: seq<Step>, r: nat, draws: seq<seq<Pick>>)
    requires cfg.maxMemory == 0 && Calm(cfg, Started(cfg, log0, r0, draws0), steps)
    ensures var (d, log) := LoggedRun(cfg, Started(cfg, log0, r0, draws0), log0, steps);
            SameShape(View(d.entries), View(ReplayDb(cfg, Fresh(cfg), log, r, draws).entries))
  {
    hide ReplayDb, Replay, Calm, LoggedRun, View, SameShape, NoEmptyHash, Started;
    assert View(Fresh(cfg).entries) == map[] by { FreshView(cfg); }
    StartFaithful(cfg, log0, r0, draws0, r);
    RunFaithful(cfg, Started(cfg, log0, r0, draws0), log0, steps, r);
    ReplayDbIsReplay(cfg, Fresh(cfg), LoggedRun(cfg, Started(cfg, log0, r0, draws0), log0, steps).1, r, draws);
  }

  lemma {:induction false} FreshView(cfg: Config)
    ensures View(Fresh(cfg).entries) == map[]
  {
  }

  /**
   * Replay equality: whatever a server without a memory limit was asked to do since it started
   * from any log, the empty one included, with commands that failed and rewrites on the way, its
   * log file reads back in full and rebuilds its keys, values and set of keys with a lifetime,
   * whenever it is replayed.
   */
  lemma {:induction false} ReplayEquality(
    cfg: Config, log0: seq<Command>, r0: nat, draws0: seq<seq<Pick>>, steps: seq<Step>, r: nat, draws: seq<seq<Pick>>)
    requires cfg.maxMemory == 0 && Calm(cfg, Started(cfg, log0, r0, draws0), steps)
    requires AllFit(LoggedRun(cfg, Started(cfg, log0, r0, draws0), log0, steps).1)
    ensures var (d, log) := LoggedRun(cfg, Started(cfg, log0, r0, draws0), log0, steps);
            var (cmds, clean) := ReadLog(EncodeAll(log));
            clean && SameShape(View(d.entries), View(ReplayDb(cfg, Fresh(cfg), cmds, r, draws).entries))
  {
    hide Calm, LoggedRun, Started, View, SameShape, ReplayDb, ReadLog;
    RunReplays(cfg, log0, r0, draws0, steps, r, draws);
    LogRoundTrip(LoggedRun(cfg, Started(cfg, log0, r0, draws0), log0, steps).1);
  }
}
