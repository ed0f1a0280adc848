/** The INCR family from outside: what INCR, DECR, INCRBY and DECRBY add, store, reply and undo. */
module Counters {
  import opened Basics
  import opened Decimal
  import opened Store
  import opened Commands
  import opened Names
  import opened Reference
  import opened Clients

  /** The bytes of a command that is to add `n` to the key in its second place. */
  predicate Adds(cmd: Command, n: int) {
    || (|cmd| >= 2 && Spells(cmd[0], "INCR") && n == 1)
    || (|cmd| >= 2 && Spells(cmd[0], "DECR") && n == -1)
    || (|cmd| >= 3 && Spells(cmd[0], "INCRBY") && ParseI64(cmd[2]) == Some(n))
    || (|cmd| >= 3 && Spells(cmd[0], "DECRBY") && ParseI64(cmd[2]) == Some(-n))
  }

  lemma {:induction false} AddsIsIncr(cfg: Config, db: Db, cmd: Command, n: int, now: nat, picks: seq<Pick>)
    requires Adds(cmd, n)
    ensures I64_MIN < n <= I64_MAX
    ensures Execute(cfg, db, cmd, now, picks) == ExecIncr(cfg, db, cmd[1], n, now, picks)
    ensures !ExpiredHash(db, cmd[1], now) ==>
              Sees(cfg, db, cmd, now, picks)
              == RefIncr(Live(db.entries, now), cmd[1], n, IncrAdmission(cfg, db, cmd[1], n, now, picks))
  {
    hide OpOf, Spells, ExecIncr, Live, RefIncr, IncrAdmission;
    var op := AddingOp(cmd, n);
    DispatchIncr(cfg, db, op, cmd, now, picks);
    hide Dispatch;
    if !ExpiredHash(db, cmd[1], now) {
      TransparentIncr(cfg, db, cmd[1], n, now, picks);
    }
  }

  lemma {:induction false} AddingOp(cmd: Command, n: int) returns (op: Op)
    requires Adds(cmd, n)
    ensures OpOf(cmd[0]) == op && IsIncr(op) && DeltaOf(op, cmd) == Ok(n) && I64_MIN < n <= I64_MAX
  {
    hide OpOf, Spells, ParseI64;
    var name := cmd[0];
    if |cmd| >= 2 && Spells(name, "INCR") && n == 1 {
      IncrWord(name);
      op := IncrOp;
    } else if |cmd| >= 2 && Spells(name, "DECR") && n == -1 {
      DecrWord(name);
      op := DecrOp;
    } else if Spells(name, "INCRBY") && ParseI64(cmd[2]) == Some(n) {
      IncrbyWord(name);
      op := IncrByOp;
    } else {
      DecrbyWord(name);
      op := DecrByOp;
    }
    assert DeltaOf(op, cmd) == Ok(n);
  }

  /**
   * A key that holds the number `a` holds `a + n` afterwards, with its lifetime, if that is an i64
   * and the bytes by which the key grows are granted.
   */
  lemma {:induction false} CounterLaw(cfg: Config, db: Db, cmd: Command, n: int, a: int, now: nat, picks: seq<Pick>)
    requires Adds(cmd, n) && IsLive(db.entries, cmd[1], now)
    requires db.entries[cmd[1]].value.Str? && ParseI64(db.entries[cmd[1]].value.bytes) == Some(a)
    ensures var k, sum := cmd[1], a + n;
            var before, after := db.entries[k].value.bytes, SignedDecimal(sum);
            var (d, ok) := Admit(cfg, db, |after| - |before|, picks);
            if !(I64_MIN <= sum <= I64_MAX) then
              Execute(cfg, db, cmd, now, picks) == (db, Error(if n > 0 then IncrOverflow else DecrOverflow))
            else if !ok then Sees(cfg, db, cmd, now, picks) == (Live(d.entries, now), Error(OutOfMemory))
            else
              Sees(cfg, db, cmd, now, picks)
              == (Live(d.entries, now)[k := Item(Str(after), db.entries[k].expiry)], Integer(sum))
  {
    hide Sees, Execute, ExecIncr, Live, Spells, ParseI64, SignedDecimal, Admit, RefIncr, IncrAdmission;
    var k, sum := cmd[1], a + n;
    AddsIsIncr(cfg, db, cmd, n, now, picks);
    if I64_MIN <= sum <= I64_MAX {
      var m, after := Live(db.entries, now), SignedDecimal(sum);
      LiveAt(db.entries, now, k);
      AsksForGrowth(cfg, db, k, n, a, now, picks);
      LiveAdmit(cfg, db, |after| - |db.entries[k].value.bytes|, picks, now);
      IncrOf(m, k, n, a, AdmissionFor(cfg, db, |after| - |db.entries[k].value.bytes|, picks));
    } else {
      Overflows(cfg, db, k, n, a, now, picks);
    }
  }

  lemma {:induction false} AsksForGrowth(cfg: Config, db: Db, k: Bytes, n: int, a: int, now: nat, picks: seq<Pick>)
    requires IsLive(db.entries, k, now) && db.entries[k].value.Str? && ParseI64(db.entries[k].value.bytes) == Some(a)
    ensures IncrAdmission(cfg, db, k, n, now, picks)
            == AdmissionFor(cfg, db, |SignedDecimal(a + n)| - |db.entries[k].value.bytes|, picks)
  {
    hide ParseI64, SignedDecimal, AdmissionFor;
    assert Size(k, Str(SignedDecimal(a + n))) - EntrySize(k, db.entries[k]) == |SignedDecimal(a + n)| - |db.entries[k].value.bytes|;
  }

  lemma {:induction false} IncrOf(m: Keyspace, k: Bytes, n: int, a: int, adm: Admission)
    requires k in m && m[k].value.Str? && ParseI64(m[k].value.bytes) == Some(a) && I64_MIN <= a + n <= I64_MAX
    ensures RefIncr(m, k, n, adm)
            == if adm.ok then ((m - adm.victims)[k := Item(Str(SignedDecimal(a + n)), m[k].expiry)], Integer(a + n))
               else (m - adm.victims, Error(OutOfMemory))
  {
    hide ParseI64, SignedDecimal;
  }

  lemma {:induction false} Overflows(cfg: Config, db: Db, k: Bytes, n: int, a: int, now: nat, picks: seq<Pick>)
    requires I64_MIN <= n <= I64_MAX && !(I64_MIN <= a + n <= I64_MAX)
    requires IsLive(db.entries, k, now) && db.entries[k].value.Str? && ParseI64(db.entries[k].value.bytes) == Some(a)
    ensures ExecIncr(cfg, db, k, n, now, picks) == (db, Error(if n > 0 then IncrOverflow else DecrOverflow))
  {
    hide ParseI64, IncrWrite;
  }

  /** A key that is not there, or whose string is dead, counts as 0 and lives for good. */
  lemma {:induction false} CounterFromNothing(cfg: Config, db: Db, cmd: Command, n: int, now: nat, picks: seq<Pick>)
    requires Adds(cmd, n) && !IsLive(db.entries, cmd[1], now) && !ExpiredHash(db, cmd[1], now)
    ensures var k, after := cmd[1], SignedDecimal(n);
            var (d, ok) := Admit(cfg, Reap(cfg, db, k, now), |k| + |after| + 64, picks);
            Sees(cfg, db, cmd, now, picks)
            == if ok then (Live(d.entries, now)[k := Item(Str(after), None)], Integer(n))
               else (Live(d.entries, now), Error(OutOfMemory))
  {
    hide Sees, Execute, ExecIncr, Live, Spells, SignedDecimal, Admit, RefIncr, IncrAdmission, Reap;
    var k, after := cmd[1], SignedDecimal(n);
    AddsIsIncr(cfg, db, cmd, n, now, picks);
    LiveAt(db.entries, now, k);
    LiveReap(cfg, db, k, now);
    LiveAdmit(cfg, Reap(cfg, db, k, now), |k| + |after| + 64, picks, now);
    AsksForAll(cfg, db, k, n, now, picks);
    IncrOfNothing(Live(db.entries, now), k, n, AdmissionFor(cfg, Reap(cfg, db, k, now), |k| + |after| + 64, picks));
  }

  lemma {:induction false} AsksForAll(cfg: Config, db: Db, k: Bytes, n: int, now: nat, picks: seq<Pick>)
    requires !IsLive(db.entries, k, now)
    ensures IncrAdmission(cfg, db, k, n, now, picks)
            == AdmissionFor(cfg, Reap(cfg, db, k, now), |k| + |SignedDecimal(n)| + 64, picks)
  {
    hide SignedDecimal, AdmissionFor, Reap;
    assert Size(k, Str(SignedDecimal(n))) == |k| + |SignedDecimal(n)| + 64;
  }

  lemma {:induction false} IncrOfNothing(m: Keyspace, k: Bytes, n: int, adm: Admission)
    requires k !in m && I64_MIN <= n <= I64_MAX
    ensures RefIncr(m, k, n, adm)
            == if adm.ok then ((m - adm.victims)[k := Item(Str(SignedDecimal(n)), None)], Integer(n))
               else (m - adm.victims, Error(OutOfMemory))
  {
    hide SignedDecimal;
  }

  /** A hash, dead or alive, is of the wrong type, and a live string must be a number. */
  lemma {:induction false} NoCounter(cfg: Config, db: Db, cmd: Command, n: int, now: nat, picks: seq<Pick>)
    requires Adds(cmd, n) && cmd[1] in db.entries
    ensures db.entries[cmd[1]].value.Hash? ==> Execute(cfg, db, cmd, now, picks) == (db, Error(WrongType))
    ensures db.entries[cmd[1]].value.Str? && IsLive(db.entries, cmd[1], now)
            && ParseI64(db.entries[cmd[1]].value.bytes) == None
            ==> Execute(cfg, db, cmd, now, picks) == (db, Error(NotAnInteger))
  {
    AddsIsIncr(cfg, db, cmd, n, now, picks);
    hide Execute, Sees, Spells, ParseI64, IncrWrite;
  }

  /** Without a key, or without an amount that is a number. */
  lemma {:induction false} NoAmount(cfg: Config, db: Db, cmd: Command, now: nat, picks: seq<Pick>)
    requires cmd != []
    ensures (Spells(cmd[0], "INCR") || Spells(cmd[0], "DECR")) && |cmd| < 2
            ==> Execute(cfg, db, cmd, now, picks) == (db, Error(WrongArity))
    ensures (Spells(cmd[0], "INCRBY") || Spells(cmd[0], "DECRBY")) && |cmd| < 3
            ==> Execute(cfg, db, cmd, now, picks) == (db, Error(WrongArity))
    ensures (Spells(cmd[0], "INCRBY") || Spells(cmd[0], "DECRBY")) && |cmd| >= 3 && ParseI64(cmd[2]) == None
            ==> Execute(cfg, db, cmd, now, picks) == (db, Error(NotAnInteger))
  {
    hide OpOf, Spells, ExecIncr, ParseI64;
    var name := cmd[0];
    if Spells(name, "INCR") { IncrWord(name); }
    if Spells(name, "DECR") { DecrWord(name); }
    if Spells(name, "INCRBY") { IncrbyWord(name); }
    if Spells(name, "DECRBY") { DecrbyWord(name); }
  }

  // ---------------------------------------------------------------- there and back

  /** Without a memory limit nothing is asked for. */
  lemma {:induction false} UnlimitedCounter(cfg: Config, db: Db, cmd: Command, n: int, a: int, t: nat)
    requires cfg.maxMemory == 0 && Adds(cmd, n) && ParseI64(SignedDecimal(a)) == Some(a)
    requires IsLive(db.entries, cmd[1], t) && db.entries[cmd[1]].value == Str(SignedDecimal(a))
    ensures var m := Live(db.entries, t);
            var (d, r) := Execute(cfg, db, cmd, t, []);
            if I64_MIN <= a + n <= I64_MAX then
              && (Live(d.entries, t), r)
                 == (m[cmd[1] := Item(Str(SignedDecimal(a + n)), db.entries[cmd[1]].expiry)], Integer(a + n))
              && IsLive(d.entries, cmd[1], t) && d.entries[cmd[1]].value == Str(SignedDecimal(a + n))
              && d.entries[cmd[1]].expiry == db.entries[cmd[1]].expiry
            else (d, r) == (db, Error(if n > 0 then IncrOverflow else DecrOverflow))
  {
    hide Execute, Spells, SignedDecimal, ParseI64, Live;
    CounterLaw(cfg, db, cmd, n, a, t, []);
    LiveAt(Execute(cfg, db, cmd, t, []).0.entries, t, cmd[1]);
  }

  /**
   * Adding `n` and then taking it away again replies `a + n` and `a` and leaves all keys as they
   * were, if and only if `a + n` is an i64 other than the smallest, which no later command can read.
   */
  lemma {:induction false} ThereAndBack(cfg: Config, db: Db, add: Command, sub: Command, n: int, a: int, t: nat)
    requires cfg.maxMemory == 0 && Adds(add, n) && Adds(sub, -n) && add[1] == sub[1]
    requires I64_MIN < a <= I64_MAX && IsLive(db.entries, add[1], t) && db.entries[add[1]].value == Str(SignedDecimal(a))
    ensures var (d, r) := Execute(cfg, db, add, t, []);
            var (d', r') := Execute(cfg, d, sub, t, []);
            (r, r', Live(d'.entries, t)) == (Integer(a + n), Integer(a), Live(db.entries, t))
            <==> I64_MIN < a + n <= I64_MAX
  {
    hide Execute, Spells, SignedDecimal, ParseI64, Live, IsLive;
    ParseI64InvertsPrint(a);
    UnlimitedCounter(cfg, db, add, n, a, t);
    var d := Execute(cfg, db, add, t, []).0;
    if a + n == I64_MIN {
      SmallestIsUnreadable();
      LiveIsStored(d.entries, add[1], t);
      NoCounter(cfg, d, sub, -n, t, []);
    } else if I64_MIN < a + n <= I64_MAX {
      ParseI64InvertsPrint(a + n);
      UnlimitedCounter(cfg, d, sub, -n, a + n, t);
      PutBack(db.entries, add[1], SignedDecimal(a + n), SignedDecimal(a), t);
    }
  }

  lemma {:induction false} LiveIsStored(entries: map<Bytes, Entry>, k: Bytes, t: nat)
    requires IsLive(entries, k, t)
    ensures k in entries
  {
  }

  lemma {:induction false} PutBack(entries: map<Bytes, Entry>, k: Bytes, v: Bytes, w: Bytes, t: nat)
    requires IsLive(entries, k, t) && entries[k].value == Str(w)
    ensures var m, x := Live(entries, t), entries[k].expiry;
            m[k := Item(Str(v), x)][k := Item(Str(w), x)] == m
  {
  }

  lemma {:induction false} SmallestIsUnreadable()
    ensures ParseI64(SignedDecimal(I64_MIN)) == None
  {
    ParseI64InvertsPrint(I64_MIN);
  }
}
