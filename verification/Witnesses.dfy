/**
 * Runs of commands from a fresh server that show where a promise ends: the hash whose expiry INCR
 * overlooks, the stale entries that DBSIZE and INFO count, and the two ways to leave the memory
 * counter too high.
 */
module Witnesses {
  import opened Basics
  import opened Decimal
  import opened Sums
  import opened Store
  import opened Commands
  import opened Names
  import opened Reference
  import opened Snapshot
  import opened Replaying

  // ---------------------------------------------------------------- single commands

  lemma {:induction false} RunOne(cfg: Config, db: Db, cmd: Command, picks: seq<Pick>, at: nat, rest: seq<Event>)
    ensures var (d, r) := Execute(cfg, db, cmd, at, picks);
            var (d', rs) := Run(cfg, d, rest);
            Run(cfg, db, [Request(cmd, picks, at)] + rest) == (d', [r] + rs)
  {
    hide Execute;
    assert ([Request(cmd, picks, at)] + rest)[1..] == rest;
  }

  lemma {:induction false} RunNothing(cfg: Config, db: Db)
    ensures Run(cfg, db, []) == (db, [])
  {
  }

  /** A run of two requests. */
  lemma {:induction false} RunTwo(cfg: Config, db: Db, first: Command, t: nat, second: Command, u: nat)
    ensures var (d, r) := Execute(cfg, db, first, t, []);
            var (d', r') := Execute(cfg, d, second, u, []);
            Run(cfg, db, [Request(first, [], t), Request(second, [], u)]) == (d', [r, r'])
  {
    hide Execute, Run;
    var (d, r) := Execute(cfg, db, first, t, []);
    var (d', r') := Execute(cfg, d, second, u, []);
    var tail := [Request(second, [], u)];
    assert [Request(first, [], t), Request(second, [], u)] == [Request(first, [], t)] + tail && tail == tail + [];
    RunOne(cfg, db, first, [], t, tail);
    RunOne(cfg, d, second, [], u, []);
    RunNothing(cfg, d');
    assert [r] + ([r'] + []) == [r, r'];
  }

  lemma {:induction false} ExecuteSet(cfg: Config, db: Db, k: Bytes, v: Bytes, now: nat, picks: seq<Pick>)
    ensures Execute(cfg, db, [SET, k, v], now, picks) == ExecSet(cfg, db, [SET, k, v], now, picks)
  {
    hide OpOf, ExecSet;
    EmittedNames();
  }

  lemma {:induction false} ExecuteHSet(cfg: Config, db: Db, k: Bytes, f: Bytes, v: Bytes)
    ensures var (d, n) := HSet(cfg, db, k, [(f, v)], 0);
            Execute(cfg, db, [HSET, k, f, v], 0, []) == (d, if n.Some? then Integer(n.value) else Error(WrongType))
  {
    var cmd := [HSET, k, f, v];
    hide OpOf, HSet, Dispatch;
    EmittedNames();
    assert MSetPairs(cmd, 4) == [];
    assert MSetPairs(cmd, 2) == [(f, v)];
    DispatchHSet(cfg, db, cmd, 0);
  }

  lemma {:induction false} DispatchHSet(cfg: Config, db: Db, cmd: Command, now: nat)
    ensures Dispatch(cfg, db, HSetOp, cmd, now, []) == ExecHSet(cfg, db, cmd, now)
  {
    hide ExecHSet;
  }

  /** SET with a lifetime of one second, when it fits. */
  lemma {:induction false} SetForOneSecond(cfg: Config, k: Bytes, v: Bytes)
    requires cfg.maxMemory == 0 || |k| + |v| + 64 <= cfg.maxMemory
    ensures var (d, r) := Execute(cfg, Fresh(cfg), [SET, k, v, EX, ToDecimal(1)], 0, []);
            && r == Okay && d.entries.Keys == {k} && d.entries[k].value == Str(v) && d.entries[k].expiry == Some(1)
            && d.used == if cfg.maxMemory > 0 then |k| + |v| + 64 else 0
  {
    hide ParseOptions, Dispatch, ExecSet, ToDecimal;
    var cmd := [SET, k, v, EX, ToDecimal(1)];
    TtlAccepted(k, v, 1);
    hide OpOf;
    EmittedNames();
    DispatchSet(cfg, Fresh(cfg), cmd, 0);
    PlainSet(cfg, Fresh(cfg), cmd, 0, Some(1));
    hide SetAndCharge;
    FirstEntry(cfg, k, v, 1, 0);
    FirstCharge(cfg, k, v);
  }

  lemma {:induction false} FirstCharge(cfg: Config, k: Bytes, v: Bytes)
    ensures SetAndCharge(cfg, Fresh(cfg), k, v, Some(1), 0).used == if cfg.maxMemory > 0 then |k| + |v| + 64 else 0
  {
    hide Set;
  }

  // ---------------------------------------------------------------- stale entries that are counted

  const DBSIZE: Bytes := [68, 66, 83, 73, 90, 69]
  const INFO: Bytes := [73, 78, 70, 79]

  lemma {:induction false} Sizes(cfg: Config, db: Db, m: Keyspace, now: nat)
    ensures Execute(cfg, db, [DBSIZE], now, []) == (db, Integer(|db.entries|))
    ensures Execute(cfg, db, [INFO], now, []) == (db, Info(|db.entries|))
    ensures RefExecute(m, [DBSIZE], now, GRANTED).1 == Integer(|m|)
    ensures RefExecute(m, [INFO], now, GRANTED).1 == Info(|m|)
  {
    hide OpOf;
    DbsizeWord(DBSIZE);
    InfoWord(INFO);
  }

  /** One key that has died: DBSIZE and INFO still count it, where a client should be told of none. */
  lemma {:induction false} DeadKeyCounted(cfg: Config, k: Bytes, v: Bytes)
    requires cfg.maxMemory == 0 || |k| + |v| + 64 <= cfg.maxMemory
    ensures var set1 := Request([SET, k, v, EX, ToDecimal(1)], [], 0);
            var (d, replies) := Run(cfg, Fresh(cfg), [set1, Request([DBSIZE], [], 1)]);
            && replies == [Okay, Integer(1)] && Live(d.entries, 1) == map[]
            && RefExecute(map[], [DBSIZE], 1, GRANTED).1 == Integer(0)
            && Run(cfg, Fresh(cfg), [set1, Request([INFO], [], 1)]).1 == [Okay, Info(1)]
            && RefExecute(map[], [INFO], 1, GRANTED).1 == Info(0)
  {
    hide Execute, Run, RefExecute, ToDecimal;
    var cmd := [SET, k, v, EX, ToDecimal(1)];
    var d := Execute(cfg, Fresh(cfg), cmd, 0, []).0;
    SetForOneSecond(cfg, k, v);
    Sizes(cfg, d, map[], 1);
    RunTwo(cfg, Fresh(cfg), cmd, 0, [DBSIZE], 1);
    RunTwo(cfg, Fresh(cfg), cmd, 0, [INFO], 1);
    assert |d.entries| == |d.entries.Keys| == 1;
    assert Live(d.entries, 1) == map[];
  }

  // ---------------------------------------------------------------- the two leaks

  const HDEL: Bytes := [72, 68, 69, 76]
  const FLUSHALL: Bytes := [70, 76, 85, 83, 72, 65, 76, 76]

  lemma {:induction false} ExecuteFlush(cfg: Config, db: Db, now: nat)
    ensures Execute(cfg, db, [FLUSHALL], now, []) == (Flush(db, now), Okay)
  {
    hide OpOf, Flush;
    FlushallWord(FLUSHALL);
  }

  /** A key that dies and is flushed: nothing is stored, and its size stays in the counter. */
  lemma {:induction false} FlushLeaksRun(cfg: Config, k: Bytes, v: Bytes)
    requires |k| + |v| + 64 <= cfg.maxMemory
    ensures var (d, replies) := Run(cfg, Fresh(cfg), [Request([SET, k, v, EX, ToDecimal(1)], [], 0), Request([FLUSHALL], [], 1)]);
            replies == [Okay, Okay] && d.entries == map[] && d.used == |k| + |v| + 64
  {
    hide Execute, Run, ToDecimal, Total;
    var cmd := [SET, k, v, EX, ToDecimal(1)];
    var d := Execute(cfg, Fresh(cfg), cmd, 0, []).0;
    SetForOneSecond(cfg, k, v);
    ExecuteFlush(cfg, d, 1);
    RunTwo(cfg, Fresh(cfg), cmd, 0, [FLUSHALL], 1);
    assert LiveEntries(d.entries, 1) == map[];
    NothingStored();
  }

  lemma {:induction false} NothingStored()
    ensures Total(map[]) == 0
  {
  }

  lemma {:induction false} FirstHash(cfg: Config, k: Bytes, f: Bytes, v: Bytes)
    ensures var (d, r) := Execute(cfg, Fresh(cfg), [HSET, k, f, v], 0, []);
            && r == Integer(1) && d.entries.Keys == {k}
            && d.entries[k].value == Hash(map[f := v]) && d.entries[k].expiry == None
            && d.used == Charge(cfg, 0, Size(k, Hash(map[f := v])))
  {
    hide Track, FieldBytes, Execute;
    ExecuteHSet(cfg, Fresh(cfg), k, f, v);
    var pairs := [(f, v)];
    assert pairs[1..] == [];
    assert PutAll(map[][f := v], []) == (map[f := v], 0);
    assert PutAll(map[], pairs) == (map[f := v], 1);
    hide PutAll;
    assert Fresh(cfg).entries.Keys == {};
  }

  lemma {:induction false} OneField(f: Bytes, v: Bytes)
    ensures FieldBytes(map[f := v]) == |f| + |v|
  {
    var none: map<Bytes, Bytes> := map[];
    SumUpdate(none, PairSize, f, v);
    assert none - {f} == none && none[f := v] == map[f := v];
  }

  lemma {:induction false} LastFieldGone(cfg: Config, db: Db, k: Bytes, f: Bytes, v: Bytes)
    requires db.entries.Keys == {k} && db.entries[k].value == Hash(map[f := v]) && db.entries[k].expiry == None
    ensures var (d, r) := Execute(cfg, db, [HDEL, k, f], 0, []);
            r == Integer(1) && d.entries == map[] && d.used == Charge(cfg, db.used, 0 - (|k| + 192))
  {
    var cmd := [HDEL, k, f];
    hide OpOf;
    HdelWord(HDEL);
    assert cmd[2..] == [f] && [f][1..] == [];
    assert map[f := v] - {f} == map[];
    assert TakeAll(map[], []) == (map[], 0);
    assert TakeAll(map[f := v], [f]) == (map[], 1);
    hide TakeAll;
    NoFields();
    hide FieldBytes;
    assert db.entries - {k} == map[];
  }

  lemma {:induction false} NoFields()
    ensures FieldBytes(map[]) == 0
  {
  }

  /** A hash that loses its last field: nothing is stored, and the bytes of the field stay in the counter. */
  lemma {:induction false} HDelLeaksRun(cfg: Config, k: Bytes, f: Bytes, v: Bytes)
    requires cfg.maxMemory > 0
    ensures var (d, replies) := Run(cfg, Fresh(cfg), [Request([HSET, k, f, v], [], 0), Request([HDEL, k, f], [], 0)]);
            replies == [Integer(1), Integer(1)] && d.entries == map[] && d.used == |f| + |v|
  {
    hide Execute, Run, FieldBytes;
    var d := Execute(cfg, Fresh(cfg), [HSET, k, f, v], 0, []).0;
    FirstHash(cfg, k, f, v);
    OneField(f, v);
    LastFieldGone(cfg, d, k, f, v);
    RunTwo(cfg, Fresh(cfg), [HSET, k, f, v], 0, [HDEL, k, f], 0);
  }

  // ---------------------------------------------------------------- an expired hash

  const INCR: Bytes := [73, 78, 67, 82]

  lemma {:induction false} IncrName()
    ensures OpOf(INCR) == IncrOp
  {
    hide OpOf;
    IncrWord(INCR);
  }

  /** A hash with a lifetime of one second, and an INCR one second later. */
  function IncrTooLate(k: Bytes, f: Bytes, v: Bytes): seq<Event> {
    [Request([HSET, k, f, v], [], 0)] + ([Request([EXPIRE, k, ToDecimal(1)], [], 0)] + ([Request([INCR, k], [], 1)] + []))
  }

  /** The store reports the wrong type for a key that is not there, which the reference never does. */
  lemma {:induction false} IncrSeesExpiredHash(cfg: Config, k: Bytes, f: Bytes, v: Bytes)
    ensures var (d, replies) := Run(cfg, Fresh(cfg), IncrTooLate(k, f, v));
            replies == [Integer(1), Integer(1), Error(WrongType)] && Live(d.entries, 1) == map[]
    ensures forall adm :: RefIncr(map[], k, 1, adm).1 != Error(WrongType)
  {
    hide Execute, Run, ToDecimal;
    var second, third := Request([EXPIRE, k, ToDecimal(1)], [], 0), Request([INCR, k], [], 1);
    FirstHash(cfg, k, f, v);
    var d1 := Execute(cfg, Fresh(cfg), [HSET, k, f, v], 0, []).0;
    OneSecondLeft(cfg, d1, k);
    var d2 := Execute(cfg, d1, [EXPIRE, k, ToDecimal(1)], 0, []).0;
    IncrOnHash(cfg, d2, k);
    RunOne(cfg, Fresh(cfg), [HSET, k, f, v], [], 0, [second] + ([third] + []));
    RunOne(cfg, d1, [EXPIRE, k, ToDecimal(1)], [], 0, [third] + []);
    RunOne(cfg, d2, [INCR, k], [], 1, []);
    RunNothing(cfg, d2);
    assert Live(d2.entries, 1) == map[];
  }

  lemma {:induction false} OneSecondLeft(cfg: Config, db: Db, k: Bytes)
    requires db.entries.Keys == {k} && db.entries[k].expiry == None
    ensures Execute(cfg, db, [EXPIRE, k, ToDecimal(1)], 0, []) == (SetExpiry(db, k, Some(1)), Integer(1))
  {
    var cmd := [EXPIRE, k, ToDecimal(1)];
    EmittedNames();
    OneSecondParses();
    hide OpOf, ParseI64, ToDecimal, Dispatch, DeleteAll, Reap;
    DispatchExpire(cfg, db, cmd, 0);
  }

  lemma {:induction false} OneSecondParses()
    ensures ParseI64(ToDecimal(1)) == Some(1)
  {
    ParseI64InvertsPrint(1);
    assert SignedDecimal(1) == ToDecimal(1);
  }

  lemma {:induction false} DispatchExpire(cfg: Config, db: Db, cmd: Command, now: nat)
    ensures Dispatch(cfg, db, ExpireOp, cmd, now, []) == ExecExpire(cfg, db, cmd, now)
  {
    hide ExecExpire;
  }

  lemma {:induction false} IncrOnHash(cfg: Config, db: Db, k: Bytes)
    requires k in db.entries && db.entries[k].value.Hash?
    ensures Execute(cfg, db, [INCR, k], 1, []) == (db, Error(WrongType))
  {
    IncrName();
    hide OpOf;
    DispatchIncr(cfg, db, IncrOp, [INCR, k], 1, []);
    hide Dispatch;
  }
}
