/**
 * What a client can rely on, command by command: for every name in any letter case, the reply and
 * the effect on the unexpired keys, as values. SET and the INCR family have modules of their own.
 */
module Clients {
  import opened Basics
  import opened Decimal
  import opened S3Fifo
  import opened Store
  import opened Commands
  import opened Names
  import opened Reference

  /** What a command does to the unexpired keys, and what it replies. */
  ghost function Sees(cfg: Config, db: Db, cmd: Command, now: nat, picks: seq<Pick>): (Keyspace, Reply) {
    var (d, r) := Execute(cfg, db, cmd, now, picks);
    (Live(d.entries, now), r)
  }

  lemma {:induction false} SeesReference(cfg: Config, db: Db, op: Op, cmd: Command, now: nat, picks: seq<Pick>)
    requires cmd != [] && OpOf(cmd[0]) == op && !IsIncr(op) && op !in {ScanOp, DbSizeOp, InfoOp}
    ensures Sees(cfg, db, cmd, now, picks)
            == RefDispatch(Live(db.entries, now), op, cmd, now, AdmissionOfOp(cfg, db, op, cmd, now, picks))
  {
    hide OpOf, Dispatch, RefDispatch, AdmissionOfOp, Live, DeltaOf;
    Transparent(cfg, db, cmd, now, picks);
  }

  // ---------------------------------------------------------------- reading

  lemma {:induction false} GetLaw(cfg: Config, db: Db, cmd: Command, now: nat, picks: seq<Pick>)
    requires |cmd| >= 2 && Spells(cmd[0], "GET")
    ensures var m, k := Live(db.entries, now), cmd[1];
            Sees(cfg, db, cmd, now, picks)
            == (m, if k in m && m[k].value.Str? then Bulk(m[k].value.bytes) else Nil)
  {
    hide OpOf, Sees, Live;
    GetWord(cmd[0]);
    SeesReference(cfg, db, GetOp, cmd, now, picks);
  }

  lemma {:induction false} MGetLaw(cfg: Config, db: Db, cmd: Command, now: nat, picks: seq<Pick>)
    requires |cmd| >= 2 && Spells(cmd[0], "MGET")
    ensures var m := Live(db.entries, now);
            var (m', r) := Sees(cfg, db, cmd, now, picks);
            && m' == m && r.Many? && |r.replies| == |cmd| - 1
            && forall i :: 1 <= i < |cmd| ==>
                 r.replies[i - 1] == if cmd[i] in m && m[cmd[i]].value.Str? then Bulk(m[cmd[i]].value.bytes) else Nil
  {
    hide OpOf, Sees, Live;
    MgetWord(cmd[0]);
    SeesReference(cfg, db, MGetOp, cmd, now, picks);
  }

  /** EXISTS counts the arguments that name a key, repeats included. */
  lemma {:induction false} ExistsLaw(cfg: Config, db: Db, cmd: Command, now: nat, picks: seq<Pick>)
    requires |cmd| >= 2 && Spells(cmd[0], "EXISTS")
    ensures var m := Live(db.entries, now);
            Sees(cfg, db, cmd, now, picks) == (m, Integer(|set i | 1 <= i < |cmd| && cmd[i] in m|))
  {
    hide OpOf, Sees, Live;
    var m := Live(db.entries, now);
    ExistsWord(cmd[0]);
    SeesReference(cfg, db, ExistsOp, cmd, now, picks);
    CountedIn(m, cmd, 1);
  }

  lemma {:induction false} CountedIn(m: Keyspace, cmd: Command, a: nat)
    requires a <= |cmd|
    ensures CountIn(m, cmd[a..]) == |set i | a <= i < |cmd| && cmd[i] in m|
    decreases |cmd| - a
  {
    if a < |cmd| {
      assert cmd[a..][0] == cmd[a] && cmd[a..][1..] == cmd[a + 1..];
      CountedIn(m, cmd, a + 1);
      var here := set i | a <= i < |cmd| && cmd[i] in m;
      var rest := set i | a + 1 <= i < |cmd| && cmd[i] in m;
      assert here == if cmd[a] in m then {a} + rest else rest;
    }
  }

  lemma {:induction false} KeysLaw(cfg: Config, db: Db, cmd: Command, now: nat, picks: seq<Pick>)
    requires cmd != [] && Spells(cmd[0], "KEYS")
    ensures var m := Live(db.entries, now);
            Sees(cfg, db, cmd, now, picks) == (m, KeySet(m.Keys))
  {
    hide OpOf, Sees, Live;
    KeysWord(cmd[0]);
    SeesReference(cfg, db, KeysOp, cmd, now, picks);
  }

  lemma {:induction false} TypeLaw(cfg: Config, db: Db, cmd: Command, now: nat, picks: seq<Pick>)
    requires |cmd| >= 2 && Spells(cmd[0], "TYPE")
    ensures var m, k := Live(db.entries, now), cmd[1];
            Sees(cfg, db, cmd, now, picks)
            == (m, TypeIs(if k !in m then NoKey else match m[k].value case Str(_) => StringKey case Hash(_) => HashKey))
  {
    hide OpOf, Sees, Live;
    TypeWord(cmd[0]);
    SeesReference(cfg, db, TypeOp, cmd, now, picks);
  }

  lemma {:induction false} HGetLaw(cfg: Config, db: Db, cmd: Command, now: nat, picks: seq<Pick>)
    requires |cmd| >= 3 && Spells(cmd[0], "HGET")
    ensures var m, k, f := Live(db.entries, now), cmd[1], cmd[2];
            Sees(cfg, db, cmd, now, picks)
            == (m, if k !in m then Nil
                   else match m[k].value
                        case Str(_) => Error(WrongType)
                        case Hash(fields) => if f in fields then Bulk(fields[f]) else Nil)
  {
    hide OpOf, Sees, Live;
    HgetWord(cmd[0]);
    SeesReference(cfg, db, HGetOp, cmd, now, picks);
  }

  lemma {:induction false} HGetAllLaw(cfg: Config, db: Db, cmd: Command, now: nat, picks: seq<Pick>)
    requires |cmd| >= 2 && Spells(cmd[0], "HGETALL")
    ensures var m, k := Live(db.entries, now), cmd[1];
            Sees(cfg, db, cmd, now, picks)
            == (m, if k !in m then FieldMap(map[])
                   else match m[k].value
                        case Str(_) => Error(WrongType)
                        case Hash(fields) => FieldMap(fields))
  {
    hide OpOf, Sees, Live;
    HgetallWord(cmd[0]);
    SeesReference(cfg, db, HGetAllOp, cmd, now, picks);
  }

  /** DBSIZE and INFO tell how many entries are stored, dead ones included. */
  lemma {:induction false} SizeLaw(cfg: Config, db: Db, cmd: Command, now: nat, picks: seq<Pick>)
    requires cmd != []
    ensures Spells(cmd[0], "DBSIZE") ==> Execute(cfg, db, cmd, now, picks) == (db, Integer(|db.entries|))
    ensures Spells(cmd[0], "INFO") ==> Execute(cfg, db, cmd, now, picks) == (db, Info(|db.entries|))
  {
    hide OpOf, Spells;
    if Spells(cmd[0], "DBSIZE") {
      DbsizeWord(cmd[0]);
    }
    if Spells(cmd[0], "INFO") {
      InfoWord(cmd[0]);
    }
  }

  // ---------------------------------------------------------------- lifetimes

  /**
   * TTL gives the seconds left: all of them up to the largest i64, and beyond that, up to the
   * largest u64, the number that the cast to i64 makes of them.
   */
  lemma {:induction false} TtlLaw(cfg: Config, db: Db, cmd: Command, now: nat, picks: seq<Pick>)
    requires |cmd| >= 2 && Spells(cmd[0], "TTL")
    ensures var m, k := Live(db.entries, now), cmd[1];
            var (m', r) := Sees(cfg, db, cmd, now, picks);
            && m' == m
            && (k !in m ==> r == Integer(-2))
            && (k in m && m[k].expiry == None ==> r == Integer(-1))
            && (k in m && m[k].expiry.Some? ==>
                  var left := m[k].expiry.value - now;
                  && left > 0
                  && (left <= I64_MAX ==> r == Integer(left))
                  && (I64_MAX < left <= U64_MAX ==> r == Integer(left - 0x1_0000_0000_0000_0000)))
  {
    hide OpOf, Sees;
    TtlWord(cmd[0]);
    SeesReference(cfg, db, TtlOp, cmd, now, picks);
  }

  /** PTTL gives the milliseconds left, or the largest i64 if they are more. */
  lemma {:induction false} PttlLaw(cfg: Config, db: Db, cmd: Command, now: nat, picks: seq<Pick>)
    requires |cmd| >= 2 && Spells(cmd[0], "PTTL")
    ensures var m, k := Live(db.entries, now), cmd[1];
            var (m', r) := Sees(cfg, db, cmd, now, picks);
            && m' == m
            && (k !in m ==> r == Integer(-2))
            && (k in m && m[k].expiry == None ==> r == Integer(-1))
            && (k in m && m[k].expiry.Some? ==>
                  var left := 1000 * (m[k].expiry.value - now);
                  r == Integer(if left <= 0x7FFF_FFFF_FFFF_FFFF then left else 0x7FFF_FFFF_FFFF_FFFF))
  {
    hide OpOf, Sees;
    PttlWord(cmd[0]);
    SeesReference(cfg, db, PttlOp, cmd, now, picks);
  }

  lemma {:induction false} ExpireLaw(cfg: Config, db: Db, cmd: Command, n: int, now: nat, picks: seq<Pick>)
    requires |cmd| >= 3 && Spells(cmd[0], "EXPIRE") && ParseI64(cmd[2]) == Some(n)
    ensures var m, k := Live(db.entries, now), cmd[1];
            Sees(cfg, db, cmd, now, picks)
            == if k !in m then (m, Integer(0))
               else if n <= 0 then (m - {k}, Integer(1))
               else (m[k := Item(m[k].value, Some(now + n))], Integer(1))
  {
    hide OpOf, Sees, Live, ParseI64;
    ExpireWord(cmd[0]);
    SeesReference(cfg, db, ExpireOp, cmd, now, picks);
  }

  lemma {:induction false} ExpireNoNumber(cfg: Config, db: Db, cmd: Command, now: nat, picks: seq<Pick>)
    requires |cmd| >= 3 && Spells(cmd[0], "EXPIRE") && ParseI64(cmd[2]) == None
    ensures Execute(cfg, db, cmd, now, picks) == (db, Error(NotAnInteger))
  {
    hide OpOf, ParseI64, DeleteAll;
    ExpireWord(cmd[0]);
  }

  lemma {:induction false} PersistLaw(cfg: Config, db: Db, cmd: Command, now: nat, picks: seq<Pick>)
    requires |cmd| >= 2 && Spells(cmd[0], "PERSIST")
    ensures var m, k := Live(db.entries, now), cmd[1];
            Sees(cfg, db, cmd, now, picks)
            == if k in m && m[k].expiry != None then (m[k := Item(m[k].value, None)], Integer(1)) else (m, Integer(0))
  {
    hide OpOf, Sees, Live;
    PersistWord(cmd[0]);
    SeesReference(cfg, db, PersistOp, cmd, now, picks);
  }

  // ---------------------------------------------------------------- removing

  lemma {:induction false} NamedFrom(cmd: Command, a: nat)
    requires a <= |cmd|
    ensures Elements(cmd[a..]) == set i | a <= i < |cmd| :: cmd[i]
  {
    var named := set i | a <= i < |cmd| :: cmd[i];
    forall x ensures x in cmd[a..] <==> x in named {
      if x in cmd[a..] {
        var i :| 0 <= i < |cmd[a..]| && cmd[a..][i] == x;
        assert cmd[i + a] == x;
      }
      if x in named {
        var i :| a <= i < |cmd| && cmd[i] == x;
        assert cmd[a..][i - a] == x;
      }
    }
  }

  lemma {:induction false} DelLaw(cfg: Config, db: Db, cmd: Command, now: nat, picks: seq<Pick>)
    requires |cmd| >= 2 && Spells(cmd[0], "DEL")
    ensures var m := Live(db.entries, now);
            var named := set i | 1 <= i < |cmd| :: cmd[i];
            Sees(cfg, db, cmd, now, picks) == (m - named, Integer(|m.Keys * named|))
  {
    hide OpOf, Sees, Live;
    DelWord(cmd[0]);
    SeesReference(cfg, db, DelOp, cmd, now, picks);
    NamedFrom(cmd, 1);
  }

  lemma {:induction false} FlushLaw(cfg: Config, db: Db, cmd: Command, now: nat, picks: seq<Pick>)
    requires cmd != [] && (Spells(cmd[0], "FLUSHDB") || Spells(cmd[0], "FLUSHALL"))
    ensures var (d, r) := Execute(cfg, db, cmd, now, picks);
            d.entries == map[] && d.queues == db.queues && r == Okay
  {
    hide OpOf, Spells;
    if Spells(cmd[0], "FLUSHDB") {
      FlushdbWord(cmd[0]);
    } else {
      FlushallWord(cmd[0]);
    }
  }

  // ---------------------------------------------------------------- hashes

  /** What the last of the pairs from argument `a` on that name this gives it. */
  function LastValue(cmd: Command, a: nat, f: Bytes): Option<Bytes>
    decreases |cmd| - a
  {
    if a + 1 >= |cmd| then None
    else if LastValue(cmd, a + 2, f).Some? then LastValue(cmd, a + 2, f)
    else if cmd[a] == f then Some(cmd[a + 1]) else None
  }

  /** A field has what its last pair gives it, or what it had. */
  ghost predicate FieldWritten(cmd: Command, f: Bytes, before: map<Bytes, Bytes>, after: map<Bytes, Bytes>) {
    match LastValue(cmd, 2, f)
    case Some(v) => f in after && after[f] == v
    case None => (f in after <==> f in before) && (f in before ==> f in after && after[f] == before[f])
  }

  lemma {:induction false} PairPut(fields: map<Bytes, Bytes>, cmd: Command, a: nat, f: Bytes)
    ensures var fields' := PutAll(fields, MSetPairs(cmd, a)).0;
            match LastValue(cmd, a, f)
            case Some(v) => f in fields' && fields'[f] == v
            case None => (f in fields' <==> f in fields) && (f in fields ==> f in fields' && fields'[f] == fields[f])
    decreases |cmd| - a
  {
    if a + 1 < |cmd| {
      var pairs := MSetPairs(cmd, a);
      assert pairs[0] == (cmd[a], cmd[a + 1]) && pairs[1..] == MSetPairs(cmd, a + 2);
      PairPut(fields[cmd[a] := cmd[a + 1]], cmd, a + 2, f);
    }
  }

  /** HSET writes its pairs into the hash, the last one for each field, and replies by how many fields it grew. */
  lemma {:induction false} HSetLaw(cfg: Config, db: Db, cmd: Command, now: nat, picks: seq<Pick>)
    requires |cmd| >= 4 && |cmd| % 2 == 0 && Spells(cmd[0], "HSET")
    ensures var m, k := Live(db.entries, now), cmd[1];
            var (m', r) := Sees(cfg, db, cmd, now, picks);
            if k in m && m[k].value.Str? then (m', r) == (m, Error(WrongType))
            else
              var fields := if k in m then m[k].value.fields else map[];
              && k in m' && m'[k].value.Hash? && m'[k].expiry == (if k in m then m[k].expiry else None)
              && (forall x :: x != k ==> (x in m' <==> x in m) && (x in m ==> x in m' && m'[x] == m[x]))
              && (forall f :: FieldWritten(cmd, f, fields, m'[k].value.fields))
              && r == Integer(|m'[k].value.fields| - |fields|)
  {
    hide OpOf, Sees, Live, PutAll, MSetPairs, LastValue;
    var m, k := Live(db.entries, now), cmd[1];
    HsetWord(cmd[0]);
    SeesReference(cfg, db, HSetOp, cmd, now, picks);
    if !(k in m && m[k].value.Str?) {
      var fields := if k in m then m[k].value.fields else map[];
      var fields' := PutAll(fields, MSetPairs(cmd, 2)).0;
      forall f ensures FieldWritten(cmd, f, fields, fields') {
        PairPut(fields, cmd, 2, f);
      }
      hide FieldWritten;
    }
  }

  /** HDEL takes fields out of a hash, and the hash with its last field. */
  lemma {:induction false} HDelLaw(cfg: Config, db: Db, cmd: Command, now: nat, picks: seq<Pick>)
    requires |cmd| >= 3 && Spells(cmd[0], "HDEL")
    ensures var m, k := Live(db.entries, now), cmd[1];
            var named := set i | 2 <= i < |cmd| :: cmd[i];
            Sees(cfg, db, cmd, now, picks)
            == if k !in m then (m, Integer(0))
               else
                 match m[k].value
                 case Str(_) => (m, Error(WrongType))
                 case Hash(fields) =>
                   var left := fields - named;
                   (if left == fields then m else if left == map[] then m - {k} else m[k := Item(Hash(left), m[k].expiry)],
                    Integer(|fields.Keys * named|))
  {
    hide OpOf, Sees, Live;
    var m, k := Live(db.entries, now), cmd[1];
    var named := set i | 2 <= i < |cmd| :: cmd[i];
    HdelWord(cmd[0]);
    SeesReference(cfg, db, HDelOp, cmd, now, picks);
    NamedFrom(cmd, 2);
    if k in m && m[k].value.Hash? {
      Removed(m[k].value.fields, named);
    }
  }

  lemma {:induction false} Removed(fields: map<Bytes, Bytes>, named: set<Bytes>)
    ensures var left := fields - named;
            && |fields| - |left| == |fields.Keys * named|
            && (|left| == |fields| <==> left == fields)
  {
    var left := fields - named;
    assert left.Keys == fields.Keys - named && |left| == |left.Keys| && |fields| == |fields.Keys|;
    assert fields.Keys == left.Keys + fields.Keys * named;
    if |left| == |fields| {
      assert fields.Keys * named == {};
      assert left.Keys == fields.Keys;
    }
  }

  // ---------------------------------------------------------------- several strings at once

  /** A key has what its last pair gives it, for good, or what it had. */
  ghost predicate StringWritten(cmd: Command, k: Bytes, before: Keyspace, after: Keyspace) {
    match LastValue(cmd, 1, k)
    case Some(v) => k in after && after[k] == Item(Str(v), None)
    case None => (k in after <==> k in before) && (k in before ==> k in after && after[k] == before[k])
  }

  lemma {:induction false} StringPut(m: Keyspace, cmd: Command, a: nat, k: Bytes)
    ensures var m' := RefPutStrings(m, MSetPairs(cmd, a));
            match LastValue(cmd, a, k)
            case Some(v) => k in m' && m'[k] == Item(Str(v), None)
            case None => (k in m' <==> k in m) && (k in m ==> k in m' && m'[k] == m[k])
    decreases |cmd| - a
  {
    if a + 1 < |cmd| {
      var pairs := MSetPairs(cmd, a);
      assert pairs[0] == (cmd[a], cmd[a + 1]) && pairs[1..] == MSetPairs(cmd, a + 2);
      StringPut(m[cmd[a] := Item(Str(cmd[a + 1]), None)], cmd, a + 2, k);
    }
  }

  /** MSET asks for the net growth, and then each key holds the last value given for it, for good. */
  lemma {:induction false} MSetLaw(cfg: Config, db: Db, cmd: Command, now: nat, picks: seq<Pick>)
    requires |cmd| >= 3 && |cmd| % 2 == 1 && Spells(cmd[0], "MSET")
    ensures var (d, ok) := Admit(cfg, db, NetSize(db, MSetPairs(cmd, 1), now), picks);
            var m := Live(d.entries, now);
            var (m', r) := Sees(cfg, db, cmd, now, picks);
            if ok then r == Okay && forall k :: StringWritten(cmd, k, m, m')
            else (m', r) == (m, Error(OutOfMemory))
  {
    hide OpOf, Sees, Live, NetSize, Admit, MSetPairs, RefPutStrings, LastValue;
    MsetWord(cmd[0]);
    SeesReference(cfg, db, MSetOp, cmd, now, picks);
    LiveAdmit(cfg, db, NetSize(db, MSetPairs(cmd, 1), now), picks, now);
    var m := Live(Admit(cfg, db, NetSize(db, MSetPairs(cmd, 1), now), picks).0.entries, now);
    forall k ensures StringWritten(cmd, k, m, RefPutStrings(m, MSetPairs(cmd, 1))) {
      StringPut(m, cmd, 1, k);
    }
    hide StringWritten;
  }

  // ---------------------------------------------------------------- the rest

  /** SCAN and the administrative commands leave the store as it is. */
  lemma {:induction false} QuietLaw(cfg: Config, db: Db, cmd: Command, now: nat, picks: seq<Pick>)
    requires cmd != []
    requires || Spells(cmd[0], "SCAN") || Spells(cmd[0], "PING") || Spells(cmd[0], "SAVE") || Spells(cmd[0], "AUTH")
             || Spells(cmd[0], "BGSAVE") || Spells(cmd[0], "CONFIG") || Spells(cmd[0], "COMMAND")
             || Spells(cmd[0], "LASTSAVE") || Spells(cmd[0], "BGREWRITEAOF")
    ensures Execute(cfg, db, cmd, now, picks).0 == db
  {
    hide OpOf, Spells;
    var name := cmd[0];
    if Spells(name, "SCAN") { ScanWord(name); }
    else if Spells(name, "PING") { PingWord(name); }
    else if Spells(name, "SAVE") { SaveWord(name); }
    else if Spells(name, "AUTH") { AuthWord(name); }
    else if Spells(name, "BGSAVE") { BgsaveWord(name); }
    else if Spells(name, "CONFIG") { ConfigWord(name); }
    else if Spells(name, "COMMAND") { CommandWord(name); }
    else if Spells(name, "LASTSAVE") { LastsaveWord(name); }
    else { BgrewriteaofWord(name); }
  }

  lemma {:induction false} UnknownLaw(cfg: Config, db: Db, cmd: Command, now: nat, picks: seq<Pick>)
    ensures cmd == [] ==> Execute(cfg, db, cmd, now, picks) == (db, Error(EmptyCommand))
    ensures cmd != [] && !Known(cmd[0]) ==> Execute(cfg, db, cmd, now, picks) == (db, Error(UnknownCommand))
  {
    hide OpOf, Known;
    if cmd != [] && !Known(cmd[0]) {
      UnknownName(cmd[0]);
    }
  }

  /** Commands that need a key, without one. */
  lemma {:induction false} KeyMissing(cfg: Config, db: Db, cmd: Command, now: nat, picks: seq<Pick>)
    requires |cmd| == 1
    requires || Spells(cmd[0], "GET") || Spells(cmd[0], "DEL") || Spells(cmd[0], "TTL") || Spells(cmd[0], "PTTL")
             || Spells(cmd[0], "MGET") || Spells(cmd[0], "EXISTS") || Spells(cmd[0], "TYPE") || Spells(cmd[0], "PERSIST")
             || Spells(cmd[0], "HGETALL")
    ensures Execute(cfg, db, cmd, now, picks) == (db, Error(WrongArity))
  {
    hide OpOf, Spells;
    var name := cmd[0];
    if Spells(name, "GET") { GetWord(name); }
    else if Spells(name, "DEL") { DelWord(name); }
    else if Spells(name, "TTL") { TtlWord(name); }
    else if Spells(name, "PTTL") { PttlWord(name); }
    else if Spells(name, "MGET") { MgetWord(name); }
    else if Spells(name, "EXISTS") { ExistsWord(name); }
    else if Spells(name, "TYPE") { TypeWord(name); }
    else if Spells(name, "PERSIST") { PersistWord(name); }
    else { HgetallWord(name); }
  }

  /** Commands that need more than a key, or pairs. */
  lemma {:induction false} ArgumentsMissing(cfg: Config, db: Db, cmd: Command, now: nat, picks: seq<Pick>)
    requires cmd != []
    requires || ((Spells(cmd[0], "SET") || Spells(cmd[0], "EXPIRE") || Spells(cmd[0], "HGET") || Spells(cmd[0], "HDEL")) && |cmd| < 3)
             || (Spells(cmd[0], "MSET") && (|cmd| < 3 || |cmd| % 2 == 0))
             || (Spells(cmd[0], "HSET") && (|cmd| < 4 || |cmd| % 2 == 1))
    ensures Execute(cfg, db, cmd, now, picks) == (db, Error(WrongArity))
  {
    hide OpOf, Spells, Admit, HSet, HDel, NetSize, SetPairs, MSetPairs, DeleteAll;
    var name := cmd[0];
    if Spells(name, "SET") && |cmd| < 3 { SetWord(name); }
    else if Spells(name, "EXPIRE") && |cmd| < 3 { ExpireWord(name); }
    else if Spells(name, "HGET") && |cmd| < 3 { HgetWord(name); }
    else if Spells(name, "HDEL") && |cmd| < 3 { HdelWord(name); }
    else if Spells(name, "MSET") && (|cmd| < 3 || |cmd| % 2 == 0) { MsetWord(name); }
    else { HsetWord(name); }
  }
}
