/** How dead entries leave the store: on contact, and when a sampling pass meets them. */
module Lapsing {
  import opened Basics
  import opened Decimal
  import opened Store
  import opened Commands
  import opened Names
  import opened Accounting

  /** A command that looks at one key, for more than whether it is there. */
  predicate LooksAt(cmd: Command) {
    || (|cmd| >= 2 && (Spells(cmd[0], "GET") || Spells(cmd[0], "TTL") || Spells(cmd[0], "PTTL") || Spells(cmd[0], "TYPE")
                       || Spells(cmd[0], "PERSIST") || Spells(cmd[0], "HGETALL")))
    || (|cmd| >= 3 && (Spells(cmd[0], "HGET") || Spells(cmd[0], "HDEL")
                       || (Spells(cmd[0], "EXPIRE") && ParseI64(cmd[2]).Some? && ParseI64(cmd[2]).value > 0)))
  }

  lemma {:induction false} LookReaps(cfg: Config, db: Db, op: Op, cmd: Command, now: nat, picks: seq<Pick>)
    requires |cmd| >= 2 && op in {GetOp, TtlOp, PttlOp, TypeOp, PersistOp, HGetAllOp} && !IsLive(db.entries, cmd[1], now)
    ensures Dispatch(cfg, db, op, cmd, now, picks).0 == Reap(cfg, db, cmd[1], now)
  {
    hide Dispatch, Reap, Access;
    DispatchOnKeys(cfg, db, op, cmd, now, picks);
  }

  lemma {:induction false} HashReaps(cfg: Config, db: Db, op: Op, cmd: Command, now: nat, picks: seq<Pick>)
    requires |cmd| >= 3 && op in {HGetOp, HDelOp} && !IsLive(db.entries, cmd[1], now)
    ensures Dispatch(cfg, db, op, cmd, now, picks).0 == Reap(cfg, db, cmd[1], now)
  {
    hide Dispatch, Reap, Access;
    DispatchHashes(cfg, db, op, cmd, now, picks);
  }

  lemma {:induction false} ExpireReaps(cfg: Config, db: Db, cmd: Command, now: nat, picks: seq<Pick>)
    requires |cmd| >= 3 && ParseI64(cmd[2]).Some? && ParseI64(cmd[2]).value > 0 && !IsLive(db.entries, cmd[1], now)
    ensures Dispatch(cfg, db, ExpireOp, cmd, now, picks).0 == Reap(cfg, db, cmd[1], now)
  {
    hide Dispatch, Reap, ParseI64, DeleteAll;
    DispatchWrites(cfg, db, ExpireOp, cmd, now, picks);
  }

  lemma {:induction false} ContactReaps(cfg: Config, db: Db, cmd: Command, now: nat, picks: seq<Pick>)
    requires LooksAt(cmd) && !IsLive(db.entries, cmd[1], now)
    ensures Execute(cfg, db, cmd, now, picks).0 == Reap(cfg, db, cmd[1], now)
  {
    hide OpOf, Spells, Reap, ParseI64, Dispatch, IsLive;
    var name := cmd[0];
    if |cmd| >= 3 && Spells(name, "EXPIRE") && ParseI64(cmd[2]).Some? && ParseI64(cmd[2]).value > 0 {
      ExpireWord(name);
      ExpireReaps(cfg, db, cmd, now, picks);
    } else if |cmd| >= 3 && (Spells(name, "HGET") || Spells(name, "HDEL")) {
      if Spells(name, "HGET") { HgetWord(name); } else { HdelWord(name); }
      HashReaps(cfg, db, OpOf(name), cmd, now, picks);
    } else {
      if Spells(name, "GET") { GetWord(name); }
      else if Spells(name, "TTL") { TtlWord(name); }
      else if Spells(name, "PTTL") { PttlWord(name); }
      else if Spells(name, "TYPE") { TypeWord(name); }
      else if Spells(name, "PERSIST") { PersistWord(name); }
      else { HgetallWord(name); }
      LookReaps(cfg, db, OpOf(name), cmd, now, picks);
    }
  }

  /** A dead entry that such a command meets is dropped, and its size is given back; the queues are not told. */
  lemma {:induction false} DeadOnContact(cfg: Config, db: Db, cmd: Command, now: nat, picks: seq<Pick>)
    requires LooksAt(cmd) && cmd[1] in db.entries && !IsLive(db.entries, cmd[1], now)
    ensures var d, k := Execute(cfg, db, cmd, now, picks).0, cmd[1];
            && d.entries == db.entries - {k} && d.queues == db.queues
            && d.used == db.used - (if cfg.maxMemory > 0 then EntrySize(k, db.entries[k]) else 0)
  {
    hide Execute, LooksAt, EntrySize;
    assert |cmd| >= 2 by { AtLeastTwo(cmd); }
    ContactReaps(cfg, db, cmd, now, picks);
  }

  lemma {:induction false} AtLeastTwo(cmd: Command)
    requires LooksAt(cmd)
    ensures |cmd| >= 2
  {
    hide Spells, ParseI64;
  }

  /** A sampling pass drops exactly the dead ones among the entries it looks at, and gives back their sizes. */
  lemma {:induction false} SampleExactly(cfg: Config, db: Db, sample: seq<Bytes>, now: nat)
    ensures var d := ReapAll(cfg, db, sample, now);
            && d.entries == (map k | k in db.entries && !(k in sample && !IsLive(db.entries, k, now)) :: db.entries[k])
            && d.queues == db.queues
            && (cfg.maxMemory > 0 ==> db.used - d.used == Total(db.entries) - Total(d.entries))
  {
    hide Total;
    SampleDrops(cfg, db, sample, now);
    if cfg.maxMemory > 0 {
      ReapAllKeeps(cfg, db, sample, now);
    }
  }

  lemma {:induction false} SampleDrops(cfg: Config, db: Db, sample: seq<Bytes>, now: nat)
    ensures var d := ReapAll(cfg, db, sample, now);
            && d.entries == (map k | k in db.entries && !(k in sample && !IsLive(db.entries, k, now)) :: db.entries[k])
            && d.queues == db.queues
    decreases |sample|
  {
    hide EntrySize;
    if sample != [] {
      SampleDrops(cfg, Reap(cfg, db, sample[0], now), sample[1..], now);
    }
  }
}
