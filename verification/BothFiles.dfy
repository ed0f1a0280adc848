/**
 * Starting with both files (src/main.rs): the snapshot is loaded first and the whole log is
 * replayed over it. What comes of that, key by key.
 */
module BothFiles {
  import opened Basics
  import opened Decimal
  import opened Resp
  import opened LogReader
  import opened S3Fifo
  import opened Store
  import opened Commands
  import opened Reference
  import opened Snapshot
  import opened Replaying
  import opened Witnesses
  import opened Sharded
  import Rdb
  import Startup

  // ---------------------------------------------------------------- one key at a time

  /** Two key spaces have the same under a key. */
  ghost predicate SameAt(a: Keyspace, b: Keyspace, k: Bytes) {
    (k in a <==> k in b) && (k in a ==> a[k] == b[k])
  }

  ghost predicate Holds(pairs: Pairs, k: Bytes) {
    exists i :: 0 <= i < |pairs| && pairs[i].0 == k
  }

  /** A command that overwrites or deletes a key, whatever is there. */
  ghost predicate ResetsBy(op: Op, cmd: Command, k: Bytes) {
    match op
    case SetOp => |cmd| >= 3 && cmd[1] == k && Unconditional(ParseOptions(cmd, 3, NO_OPTIONS))
    case MSetOp => |cmd| >= 3 && (|cmd| - 1) % 2 == 0 && Holds(MSetPairs(cmd, 1), k)
    case DelOp => |cmd| >= 2 && k in cmd[1..]
    case ExpireOp => |cmd| >= 3 && cmd[1] == k && ParseI64(cmd[2]).Some? && ParseI64(cmd[2]).value <= 0
    case FlushOp => true
    case _ => false
  }

  predicate Unconditional(o: Result<SetOptions, ErrorKind>) {
    o.Ok? && !o.value.nx && !o.value.xx
  }

  ghost predicate Resets(cmd: Command, k: Bytes) {
    cmd != [] && ResetsBy(OpOf(cmd[0]), cmd, k)
  }

  ghost predicate ResetIn(log: seq<Command>, k: Bytes) {
    exists i :: 0 <= i < |log| && Resets(log[i], k)
  }

  lemma {:induction false} LocalPut(a: Keyspace, b: Keyspace, pairs: Pairs, k: Bytes)
    requires SameAt(a, b, k) || Holds(pairs, k)
    ensures SameAt(RefPutStrings(a, pairs), RefPutStrings(b, pairs), k)
    decreases |pairs|
  {
    if pairs != [] {
      var (x, v) := pairs[0];
      var a', b' := a[x := Item(Str(v), None)], b[x := Item(Str(v), None)];
      if x != k && !SameAt(a, b, k) {
        var i :| 0 <= i < |pairs| && pairs[i].0 == k;
        assert pairs[1..][i - 1].0 == k;
      }
      LocalPut(a', b', pairs[1..], k);
    }
  }

  lemma {:induction false} LocalSet(a: Keyspace, b: Keyspace, cmd: Command, t: nat, k: Bytes)
    requires SameAt(a, b, k) || ResetsBy(SetOp, cmd, k)
    ensures SameAt(RefSet(a, cmd, t, GRANTED).0, RefSet(b, cmd, t, GRANTED).0, k)
  {
    hide ParseOptions;
    assert a - {} == a && b - {} == b;
  }

  lemma {:induction false} LocalMSet(a: Keyspace, b: Keyspace, cmd: Command, k: Bytes)
    requires SameAt(a, b, k) || ResetsBy(MSetOp, cmd, k)
    ensures SameAt(RefMSet(a, cmd, GRANTED).0, RefMSet(b, cmd, GRANTED).0, k)
  {
    hide MSetPairs, SameAt;
    assert a - {} == a && b - {} == b;
    if |cmd| >= 3 && (|cmd| - 1) % 2 == 0 {
      LocalPut(a, b, MSetPairs(cmd, 1), k);
    }
  }

  lemma {:induction false} LocalIncr(a: Keyspace, b: Keyspace, x: Bytes, delta: int, k: Bytes)
    requires SameAt(a, b, k)
    ensures SameAt(RefIncr(a, x, delta, GRANTED).0, RefIncr(b, x, delta, GRANTED).0, k)
  {
    hide ParseI64, SignedDecimal;
    assert a - {} == a && b - {} == b;
  }

  lemma {:induction false} LocalHSet(a: Keyspace, b: Keyspace, cmd: Command, k: Bytes)
    requires SameAt(a, b, k)
    ensures SameAt(RefHSet(a, cmd).0, RefHSet(b, cmd).0, k)
  {
    hide PutAll, MSetPairs;
  }

  lemma {:induction false} LocalHDel(a: Keyspace, b: Keyspace, cmd: Command, k: Bytes)
    requires SameAt(a, b, k)
    ensures SameAt(RefHDel(a, cmd).0, RefHDel(b, cmd).0, k)
  {
    hide Elements;
    if |cmd| >= 3 && cmd[1] == k && k in a && a[k].value.Hash? {
      var fields := a[k].value.fields;
      var left := fields - Elements(cmd[2..]);
      assert left == b[k].value.fields - Elements(cmd[2..]);
    } else if |cmd| >= 3 && cmd[1] != k {
      OtherHDel(a, cmd, k);
      OtherHDel(b, cmd, k);
    }
  }

  lemma {:induction false} OtherHDel(m: Keyspace, cmd: Command, k: Bytes)
    requires |cmd| >= 3 && cmd[1] != k
    ensures SameAt(m, RefHDel(m, cmd).0, k)
  {
    hide Elements;
  }

  lemma {:induction false} LocalExpire(a: Keyspace, b: Keyspace, cmd: Command, t: nat, k: Bytes)
    requires SameAt(a, b, k) || ResetsBy(ExpireOp, cmd, k)
    ensures SameAt(RefExpire(a, cmd, t).0, RefExpire(b, cmd, t).0, k)
  {
    hide ParseI64;
  }

  lemma {:induction false} LocalDel(a: Keyspace, b: Keyspace, keys: seq<Bytes>, k: Bytes)
    requires SameAt(a, b, k) || k in keys
    ensures SameAt(RefDel(a, keys).0, RefDel(b, keys).0, k)
  {
  }

  lemma {:induction false} LocalPersist(a: Keyspace, b: Keyspace, x: Bytes, k: Bytes)
    requires SameAt(a, b, k)
    ensures SameAt(RefPersist(a, x).0, RefPersist(b, x).0, k)
  {
  }

  lemma {:induction false} LocalNothing(k: Bytes)
    ensures SameAt(map[], map[], k)
  {
  }

  lemma {:induction false} LocalDispatch(a: Keyspace, b: Keyspace, op: Op, cmd: Command, t: nat, k: Bytes)
    requires SameAt(a, b, k) || ResetsBy(op, cmd, k)
    ensures SameAt(RefDispatch(a, op, cmd, t, GRANTED).0, RefDispatch(b, op, cmd, t, GRANTED).0, k)
  {
    hide RefDispatch, SameAt, RefSet, RefMSet, RefIncr, RefHSet, RefHDel, RefExpire, RefDel, RefPersist, DeltaOf;
    RefDispatchCases(a, op, cmd, t, GRANTED);
    RefDispatchCases(b, op, cmd, t, GRANTED);
    LocalNothing(k);
    if op == SetOp {
      LocalSet(a, b, cmd, t, k);
    } else if op == MSetOp {
      LocalMSet(a, b, cmd, k);
    } else if IsIncr(op) {
      if DeltaOf(op, cmd).Ok? { LocalIncr(a, b, cmd[1], DeltaOf(op, cmd).value, k); }
    } else if op == HSetOp {
      LocalHSet(a, b, cmd, k);
    } else if op == HDelOp {
      LocalHDel(a, b, cmd, k);
    } else if op == ExpireOp {
      LocalExpire(a, b, cmd, t, k);
    } else if op == DelOp {
      if |cmd| >= 2 { LocalDel(a, b, cmd[1..], k); }
    } else if op == PersistOp {
      if |cmd| >= 2 { LocalPersist(a, b, cmd[1], k); }
    }
  }

  /** What a command leaves under a key depends on that key only, and on nothing if it resets it. */
  lemma {:induction false} LocalStep(a: Keyspace, b: Keyspace, cmd: Command, t: nat, k: Bytes)
    requires SameAt(a, b, k) || Resets(cmd, k)
    ensures SameAt(RefExecute(a, cmd, t, GRANTED).0, RefExecute(b, cmd, t, GRANTED).0, k)
  {
    hide RefDispatch, ResetsBy, SameAt;
    if cmd != [] {
      LocalDispatch(a, b, OpOf(cmd[0]), cmd, t, k);
    }
  }

  lemma {:induction false} LocalReplay(a: Keyspace, b: Keyspace, log: seq<Command>, r: nat, k: Bytes)
    requires SameAt(a, b, k) || ResetIn(log, k)
    ensures SameAt(Replay(a, log, r), Replay(b, log, r), k)
    decreases |log|
  {
    hide RefExecute, SameAt, Resets;
    if log != [] {
      var a', b' := RefExecute(a, log[0], r, GRANTED).0, RefExecute(b, log[0], r, GRANTED).0;
      if SameAt(a, b, k) || Resets(log[0], k) {
        LocalStep(a, b, log[0], r, k);
      } else {
        var i :| 0 <= i < |log| && Resets(log[i], k);
        assert Resets(log[1..][i - 1], k);
      }
      LocalReplay(a', b', log[1..], r, k);
    }
  }

  // ---------------------------------------------------------------- a log that never resets a key

  /** A SET of this key that looks at what is there. */
  ghost predicate Conditional(cmd: Command, k: Bytes) {
    && |cmd| >= 3 && OpOf(cmd[0]) == SetOp && cmd[1] == k && ParseOptions(cmd, 3, NO_OPTIONS).Ok?
    && !Unconditional(ParseOptions(cmd, 3, NO_OPTIONS))
  }

  /** The key holds a hash with a certain field. */
  ghost predicate Carries(m: Keyspace, k: Bytes, f: Bytes) {
    k in m && m[k].value.Hash? && f in m[k].value.fields
  }

  ghost predicate Mentions(cmd: Command, f: Bytes) {
    exists i :: 0 <= i < |cmd| && cmd[i] == f
  }

  lemma {:induction false} PutOthers(fields: map<Bytes, Bytes>, pairs: Pairs, f: Bytes)
    requires !Holds(pairs, f)
    ensures f in PutAll(fields, pairs).0 <==> f in fields
    decreases |pairs|
  {
    if pairs != [] {
      assert pairs[0].0 != f;
      PutOthers(fields[pairs[0].0 := pairs[0].1], pairs[1..], f);
    }
  }

  lemma {:induction false} PairsMentioned(cmd: Command, i: nat, f: Bytes)
    requires Holds(MSetPairs(cmd, i), f)
    ensures Mentions(cmd, f)
    decreases |cmd| - i
  {
    var j :| 0 <= j < |MSetPairs(cmd, i)| && MSetPairs(cmd, i)[j].0 == f;
    if j > 0 {
      assert MSetPairs(cmd, i + 2)[j - 1].0 == f;
      PairsMentioned(cmd, i + 2, f);
    }
  }

  lemma {:induction false} StringsElsewhere(m: Keyspace, pairs: Pairs, k: Bytes, f: Bytes)
    requires Carries(m, k, f) ==> !Holds(pairs, k)
    ensures Carries(RefPutStrings(m, pairs), k, f) <==> Carries(m, k, f)
    decreases |pairs|
  {
    if pairs != [] {
      assert Carries(m, k, f) ==> pairs[0].0 != k;
      StringsElsewhere(m[pairs[0].0 := Item(Str(pairs[0].1), None)], pairs[1..], k, f);
    }
  }

  lemma {:induction false} CarriesHSet(m: Keyspace, cmd: Command, k: Bytes, f: Bytes)
    requires !Mentions(cmd, f)
    ensures Carries(RefHSet(m, cmd).0, k, f) <==> Carries(m, k, f)
  {
    hide PutAll, MSetPairs;
    if |cmd| >= 4 && (|cmd| - 2) % 2 == 0 && !(cmd[1] in m && m[cmd[1]].value.Str?) {
      if Holds(MSetPairs(cmd, 2), f) {
        PairsMentioned(cmd, 2, f);
      }
      PutOthers(if cmd[1] in m then m[cmd[1]].value.fields else map[], MSetPairs(cmd, 2), f);
    }
  }

  lemma {:induction false} CarriesHDel(m: Keyspace, cmd: Command, k: Bytes, f: Bytes)
    requires !Mentions(cmd, f)
    ensures Carries(RefHDel(m, cmd).0, k, f) <==> Carries(m, k, f)
  {
    if |cmd| >= 3 && cmd[1] in m && m[cmd[1]].value.Hash? {
      NotNamedThere(cmd, f);
      hide Elements, Mentions;
      var fields := m[cmd[1]].value.fields;
      var left := fields - Elements(cmd[2..]);
      assert f in left <==> f in fields;
    }
  }

  lemma {:induction false} NotNamedThere(cmd: Command, f: Bytes)
    requires |cmd| >= 2 && !Mentions(cmd, f)
    ensures f !in Elements(cmd[2..])
  {
  }

  lemma {:induction false} CarriesIncr(m: Keyspace, x: Bytes, delta: int, k: Bytes, f: Bytes)
    ensures Carries(RefIncr(m, x, delta, GRANTED).0, k, f) <==> Carries(m, k, f)
  {
    hide ParseI64, SignedDecimal;
    assert m - {} == m;
  }

  lemma {:induction false} CarriesSet(m: Keyspace, cmd: Command, t: nat, k: Bytes, f: Bytes)
    requires !ResetsBy(SetOp, cmd, k)
    requires |cmd| >= 3 && cmd[1] == k && ParseOptions(cmd, 3, NO_OPTIONS).Ok? ==> Unconditional(ParseOptions(cmd, 3, NO_OPTIONS))
    ensures Carries(RefSet(m, cmd, t, GRANTED).0, k, f) <==> Carries(m, k, f)
  {
    hide ParseOptions;
    assert m - {} == m;
  }

  lemma {:induction false} CarriesMSet(m: Keyspace, cmd: Command, k: Bytes, f: Bytes)
    requires !ResetsBy(MSetOp, cmd, k)
    ensures Carries(RefMSet(m, cmd, GRANTED).0, k, f) <==> Carries(m, k, f)
  {
    hide MSetPairs, Carries;
    assert m - {} == m;
    if |cmd| >= 3 && (|cmd| - 1) % 2 == 0 {
      StringsElsewhere(m, MSetPairs(cmd, 1), k, f);
    }
  }

  lemma {:induction false} CarriesRest(m: Keyspace, op: Op, cmd: Command, t: nat, k: Bytes, f: Bytes)
    requires !ResetsBy(op, cmd, k)
    ensures op == ExpireOp ==> (Carries(RefExpire(m, cmd, t).0, k, f) <==> Carries(m, k, f))
    ensures op == DelOp && |cmd| >= 2 ==> (Carries(RefDel(m, cmd[1..]).0, k, f) <==> Carries(m, k, f))
    ensures op == PersistOp && |cmd| >= 2 ==> (Carries(RefPersist(m, cmd[1]).0, k, f) <==> Carries(m, k, f))
  {
    hide ParseI64;
  }

  lemma {:induction false} CarriesDispatch(m: Keyspace, op: Op, cmd: Command, t: nat, k: Bytes, f: Bytes)
    requires cmd != [] && op == OpOf(cmd[0]) && !Mentions(cmd, f) && !ResetsBy(op, cmd, k) && !Conditional(cmd, k)
    ensures Carries(RefDispatch(m, op, cmd, t, GRANTED).0, k, f) <==> Carries(m, k, f)
  {
    hide RefDispatch, Carries, RefSet, RefMSet, RefIncr, RefHSet, RefHDel, RefExpire, RefDel, RefPersist, DeltaOf, OpOf, Mentions,
      ParseOptions, MSetPairs;
    RefDispatchCases(m, op, cmd, t, GRANTED);
    CarriesRest(m, op, cmd, t, k, f);
    if op == SetOp {
      CarriesSet(m, cmd, t, k, f);
    } else if op == MSetOp {
      CarriesMSet(m, cmd, k, f);
    } else if IsIncr(op) {
      if DeltaOf(op, cmd).Ok? { CarriesIncr(m, cmd[1], DeltaOf(op, cmd).value, k, f); }
    } else if op == HSetOp {
      CarriesHSet(m, cmd, k, f);
    } else if op == HDelOp {
      CarriesHDel(m, cmd, k, f);
    }
  }

  lemma {:induction false} CarriesStep(m: Keyspace, cmd: Command, t: nat, k: Bytes, f: Bytes)
    requires !Mentions(cmd, f) && !Resets(cmd, k) && !Conditional(cmd, k)
    ensures Carries(RefExecute(m, cmd, t, GRANTED).0, k, f) <==> Carries(m, k, f)
  {
    hide RefDispatch, ResetsBy, Carries, Mentions, Conditional, OpOf;
    if cmd != [] {
      CarriesDispatch(m, OpOf(cmd[0]), cmd, t, k, f);
    }
  }

  lemma {:induction false} CarriesReplay(m: Keyspace, log: seq<Command>, r: nat, k: Bytes, f: Bytes)
    requires forall i :: 0 <= i < |log| ==> !Mentions(log[i], f) && !Resets(log[i], k) && !Conditional(log[i], k)
    ensures Carries(Replay(m, log, r), k, f) <==> Carries(m, k, f)
    decreases |log|
  {
    hide RefExecute, Carries, Mentions, Resets, Conditional;
    if log != [] {
      CarriesStep(m, log[0], r, k, f);
      CarriesReplay(RefExecute(m, log[0], r, GRANTED).0, log[1..], r, k, f);
    }
  }

  lemma {:induction false} LongerThanParts(cmd: Command) returns (n: nat)
    ensures forall i :: 0 <= i < |cmd| ==> |cmd[i]| < n
  {
    if cmd == [] {
      n := 0;
    } else {
      n := LongerThanParts(cmd[1..]);
      n := n + |cmd[0]| + 1;
      forall i | 0 <= i < |cmd| ensures |cmd[i]| < n {
        if i > 0 {
          assert cmd[i] == cmd[1..][i - 1];
        }
      }
    }
  }

  lemma {:induction false} Unmentioned(log: seq<Command>) returns (n: nat)
    ensures forall f: Bytes, i :: 0 <= i < |log| && |f| >= n ==> !Mentions(log[i], f)
  {
    if log == [] {
      n := 0;
    } else {
      var a := LongerThanParts(log[0]);
      n := Unmentioned(log[1..]);
      n := n + a;
      forall f: Bytes, i | 0 <= i < |log| && |f| >= n ensures !Mentions(log[i], f) {
        if i > 0 {
          assert log[i] == log[1..][i - 1];
        }
      }
    }
  }

  /** The log leaves the same under a key, whatever was there when its replay began. */
  ghost predicate Forgets(log: seq<Command>, k: Bytes, r: nat) {
    forall a, b :: SameAt(Replay(a, log, r), Replay(b, log, r), k)
  }

  /**
   * What a key holds before the log is replayed is forgotten if some command overwrites or deletes
   * it; and only then, unless a conditional SET of the key is among the commands.
   */
  lemma {:induction false} ForgetsExactly(log: seq<Command>, k: Bytes, r: nat)
    ensures ResetIn(log, k) ==> Forgets(log, k, r)
    ensures (forall i :: 0 <= i < |log| ==> !Conditional(log[i], k)) ==> (Forgets(log, k, r) <==> ResetIn(log, k))
  {
    hide Replay, SameAt, Resets, Conditional;
    if ResetIn(log, k) {
      forall a, b ensures SameAt(Replay(a, log, r), Replay(b, log, r), k) {
        LocalReplay(a, b, log, r, k);
      }
    } else if forall i :: 0 <= i < |log| ==> !Conditional(log[i], k) {
      Remembers(log, k, r);
    }
  }

  /** A log that never resets a key keeps an unusual field of a hash. */
  lemma {:induction false} Remembers(log: seq<Command>, k: Bytes, r: nat)
    requires !ResetIn(log, k) && forall i :: 0 <= i < |log| ==> !Conditional(log[i], k)
    ensures !Forgets(log, k, r)
  {
    hide Replay, Resets, Conditional, Mentions;
    var n := Unmentioned(log);
    var f: Bytes := seq(n, _ => 0);
    var a: Keyspace := map[k := Item(Hash(map[f := []]), None)];
    forall i | 0 <= i < |log| ensures !Mentions(log[i], f) && !Resets(log[i], k) {
      assert |f| >= n;
    }
    CarriesReplay(a, log, r, k, f);
    CarriesReplay(map[], log, r, k, f);
    assert Carries(a, k, f) && !Carries(map[], k, f);
    assert !SameAt(Replay(a, log, r), Replay(map[], log, r), k);
  }

  lemma {:induction false} SameEverywhere(a: Keyspace, b: Keyspace)
    requires forall k :: SameAt(a, b, k)
    ensures a == b
  {
    forall k ensures k in a <==> k in b {
      assert SameAt(a, b, k);
    }
    forall k | k in a ensures a[k] == b[k] {
      assert SameAt(a, b, k);
    }
  }

  // ---------------------------------------------------------------- restart

  /** The store after a start at `r` that finds both files. */
  ghost function FromBoth(cfg: Config, c: Rdb.Codec, image: Bytes, file: Bytes, r: nat, draws: seq<seq<Pick>>): Db {
    ReplayDb(cfg, Rdb.Load(cfg, c, image, r, Fresh(cfg)).0, ReadLog(file).0, r, draws)
  }

  /** The two loads of src/main.rs, one after the other; a snapshot that fails to load is not fatal. */
  method StartWithBoth(store: ShardedStore, c: Rdb.Codec, image: Bytes, file: Bytes, now: nat, draws: seq<seq<Pick>>)
    returns (clean: bool)
    requires store.Valid() && store.View() == Fresh(store.cfg)
    modifies store, store.queues
    ensures store.Valid() && store.View() == FromBoth(store.cfg, c, image, file, now, draws)
    ensures clean == ReadLog(file).1
  {
    hide Merged, Partitioned, ReadLog, ReplayDb, Rdb.Load, Rdb.CountLoaded;
    var _, _ := Startup.LoadSnapshot(store, c, image, now);
    var _, ended := Startup.ReplayLog(store, file, now, draws);
    clean := ended;
  }

  lemma {:induction false} BothIsReplay(
    cfg: Config, c: Rdb.Codec, records: seq<Record>, entries: map<Bytes, Entry>, t: nat, log: seq<Command>, r: nat,
    draws: seq<seq<Pick>>)
    requires cfg.maxMemory == 0 && Lists(records, entries) && Rdb.Framed(c, records) && |records| <= U64_MAX && t <= r
    requires AllFit(log)
    ensures View(FromBoth(cfg, c, Rdb.Image(c, records, t), EncodeAll(log), r, draws).entries)
            == Replay(View(Rdb.Reloaded(entries, r)), log, r)
  {
    hide Lists, Rdb.Framed, Rdb.Image, Rdb.Load, AllFit, Replay, ReplayDb, EncodeAll, ReadLog, View, Rdb.CountLoaded;
    Rdb.RoundTrip(cfg, c, records, entries, t, r);
    LogRoundTrip(log);
    ReplayDbIsReplay(cfg, Rdb.Load(cfg, c, Rdb.Image(c, records, t), r, Fresh(cfg)).0, log, r, draws);
  }

  /**
   * Starting with a snapshot and a log leaves the same under a key as starting with the log alone,
   * if the key is not among those loaded or some command of the log overwrites or deletes it.
   */
  lemma {:induction false} RestartFromBoth(
    cfg: Config, c: Rdb.Codec, records: seq<Record>, entries: map<Bytes, Entry>, t: nat, log: seq<Command>, r: nat,
    draws: seq<seq<Pick>>)
    requires cfg.maxMemory == 0 && Lists(records, entries) && Rdb.Framed(c, records) && |records| <= U64_MAX && t <= r
    requires AllFit(log)
    ensures var both := View(FromBoth(cfg, c, Rdb.Image(c, records, t), EncodeAll(log), r, draws).entries);
            var alone := View(Started(cfg, log, r, draws).entries);
            var loaded := Rdb.Reloaded(entries, r);
            && (forall k :: k !in loaded || ResetIn(log, k) ==> SameAt(both, alone, k))
            && ((forall k :: k in loaded ==> ResetIn(log, k)) ==> both == alone)
  {
    hide Lists, Rdb.Framed, Rdb.Image, AllFit, Replay, ReplayDb, EncodeAll, FromBoth, ResetIn, Rdb.Reloaded;
    BothIsReplay(cfg, c, records, entries, t, log, r, draws);
    var loaded := Rdb.Reloaded(entries, r);
    var both, alone := Replay(View(loaded), log, r), Replay(map[], log, r);
    assert View(Fresh(cfg).entries) == map[] by { FreshView(cfg); }
    ReplayDbIsReplay(cfg, Fresh(cfg), log, r, draws);
    forall k | k !in loaded || ResetIn(log, k) ensures SameAt(both, alone, k) {
      LocalReplay(View(loaded), map[], log, r, k);
    }
    if forall k :: k in loaded ==> ResetIn(log, k) {
      SameEverywhere(both, alone);
    }
  }

  /**
   * A server that has run since it started from some log, and any snapshot: if the log overwrites
   * or deletes every key that the snapshot brings back, a start with both files rebuilds the
   * server's keys, values and set of keys with a lifetime.
   */
  lemma {:induction false} RunSurvivesBoth(
    cfg: Config, c: Rdb.Codec, records: seq<Record>, entries: map<Bytes, Entry>, t: nat,
    log0: seq<Command>, r0: nat, draws0: seq<seq<Pick>>, steps: seq<Step>, r: nat, draws: seq<seq<Pick>>)
    requires cfg.maxMemory == 0 && Lists(records, entries) && Rdb.Framed(c, records) && |records| <= U64_MAX && t <= r
    requires Calm(cfg, Started(cfg, log0, r0, draws0), steps)
    requires AllFit(LoggedRun(cfg, Started(cfg, log0, r0, draws0), log0, steps).1)
    requires forall k :: k in Rdb.Reloaded(entries, r)
                         ==> ResetIn(LoggedRun(cfg, Started(cfg, log0, r0, draws0), log0, steps).1, k)
    ensures var (d, log) := LoggedRun(cfg, Started(cfg, log0, r0, draws0), log0, steps);
            SameShape(View(d.entries), View(FromBoth(cfg, c, Rdb.Image(c, records, t), EncodeAll(log), r, draws).entries))
  {
    hide Lists, Rdb.Framed, Rdb.Image, AllFit, ReplayDb, EncodeAll, FromBoth, ResetIn, Rdb.Reloaded, LoggedRun, Calm, View, SameShape;
    var log := LoggedRun(cfg, Started(cfg, log0, r0, draws0), log0, steps).1;
    RunReplays(cfg, log0, r0, draws0, steps, r, draws);
    RestartFromBoth(cfg, c, records, entries, t, log, r, draws);
  }

  const ONE: Bytes := [49]
  const TWO: Bytes := [50]

  lemma {:induction false} IncrFrom(m: Keyspace, k: Bytes, t: nat)
    ensures m == map[] ==> RefExecute(m, [INCR, k], t, GRANTED).0 == map[k := Item(Str(ONE), None)]
    ensures m == map[k := Item(Str(ONE), None)] ==> RefExecute(m, [INCR, k], t, GRANTED).0 == map[k := Item(Str(TWO), None)]
  {
    IncrName();
    hide OpOf;
    assert m - {} == m;
    ParseI64InvertsPrint(1);
    assert SignedDecimal(1) == ONE && SignedDecimal(2) == TWO;
    hide ParseI64, SignedDecimal;
  }

  /**
   * The condition is needed: a counter raised to 1, saved, and brought up from both files stands
   * at 2.
   */
  lemma {:induction false} AppliedTwice(cfg: Config, c: Rdb.Codec, k: Bytes, t: nat, r: nat, draws: seq<seq<Pick>>)
    requires cfg.maxMemory == 0 && |k| <= U64_MAX && t <= r && Rdb.Framed(c, [Record(k, StrShape(ONE), None)])
    ensures var records := [Record(k, StrShape(ONE), None)];
            var (d, log) := LoggedRun(cfg, Fresh(cfg), [], [Do([INCR, k], t)]);
            && View(d.entries) == map[k := Item(Str(ONE), None)] && log == [[INCR, k]] && Lists(records, d.entries)
            && View(FromBoth(cfg, c, Rdb.Image(c, records, t), EncodeAll(log), r, draws).entries) == map[k := Item(Str(TWO), None)]
  {
    var records := [Record(k, StrShape(ONE), None)];
    var d := Execute(cfg, Fresh(cfg), [INCR, k], t, []).0;
    IncrIsLogged(k);
    hide Execute, Rdb.Framed, Rdb.Image, Replay, EncodeAll, FromBoth, Lists, RefExecute, Logged, View;
    CleanStep(cfg, Fresh(cfg), [INCR, k], t, []);
    FreshView(cfg);
    IncrFrom(map[], k, t);
    ViewOfOne(d.entries, k);
    OneListed(k, d.entries[k], d.entries);
    assert [Do([INCR, k], t)][1..] == [] && [] + [[INCR, k]] == [[INCR, k]];
    BothIsReplay(cfg, c, records, d.entries, t, [[INCR, k]], r, draws);
    ReloadedOne(d.entries, k, r);
    IncrFrom(map[k := Item(Str(ONE), None)], k, r);
    ReplayOne(map[k := Item(Str(ONE), None)], [INCR, k], r);
  }

  lemma {:induction false} IncrIsLogged(k: Bytes)
    ensures Logged([INCR, k])
  {
    IncrName();
    hide OpOf;
  }

  lemma {:induction false} ViewOfOne(entries: map<Bytes, Entry>, k: Bytes)
    requires View(entries) == map[k := Item(Str(ONE), None)]
    ensures entries.Keys == {k} && entries[k].value == Str(ONE) && entries[k].expiry == None
  {
    assert View(entries).Keys == entries.Keys;
    assert k in View(entries) && View(entries)[k] == Item(entries[k].value, entries[k].expiry);
  }

  lemma {:induction false} ReloadedOne(entries: map<Bytes, Entry>, k: Bytes, r: nat)
    requires View(entries) == map[k := Item(Str(ONE), None)]
    ensures View(Rdb.Reloaded(entries, r)) == map[k := Item(Str(ONE), None)]
  {
    ViewOfOne(entries, k);
  }
}
