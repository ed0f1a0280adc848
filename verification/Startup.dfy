/**
 * The store walked, written out and rebuilt in place: the shard iteration behind a save and a log
 * rewrite, `load_snapshot` of src/persistence.rs and the replay loop of src/main.rs.
 */
module Startup {
  import opened Basics
  import opened S3Fifo
  import opened Store
  import opened Commands
  import opened Accounting
  import opened Sharded
  import opened Resp
  import opened LogReader
  import opened Snapshot
  import opened Replaying
  import opened Durability
  import opened AppendOnly
  import opened Handlers
  import Rdb

  // ---------------------------------------------------------------- walking the shards

  lemma {:induction false} ListsSnoc(records: seq<Record>, m: map<Bytes, Entry>, r: Record, e: Entry)
    requires Lists(records, m) && r.key !in m && Shows(r.shape, e.value) && r.expiry == e.expiry
    ensures Lists(records + [r], m[r.key := e])
  {
    hide Shows;
    var all, m' := records + [r], m[r.key := e];
    forall k | k in m' ensures exists i :: 0 <= i < |all| && all[i].key == k {
      if k == r.key {
        assert all[|records|].key == k;
      } else {
        var i :| 0 <= i < |records| && records[i].key == k;
        assert all[i].key == k;
      }
    }
  }

  lemma {:induction false} ListsJoin(a: seq<Record>, m: map<Bytes, Entry>, b: seq<Record>, n: map<Bytes, Entry>)
    requires Lists(a, m) && Lists(b, n) && m.Keys !! n.Keys
    ensures Lists(a + b, m + n)
  {
    hide Shows;
    var all := a + b;
    forall i, j | 0 <= i < j < |all| ensures all[i].key != all[j].key {
      if i < |a| <= j {
        assert a[i].key in m && b[j - |a|].key in n;
      }
    }
    forall k | k in m + n ensures exists i :: 0 <= i < |all| && all[i].key == k {
      if k in n {
        var i :| 0 <= i < |b| && b[i].key == k;
        assert all[|a| + i].key == k;
      } else {
        var i :| 0 <= i < |a| && a[i].key == k;
        assert all[i].key == k;
      }
    }
  }

  lemma {:induction false} FieldsSnoc(pairs: Pairs, m: map<Bytes, Bytes>, f: Bytes, v: Bytes)
    requires ListsFields(pairs, m) && f !in m
    ensures ListsFields(pairs + [(f, v)], m[f := v])
  {
    var all, m' := pairs + [(f, v)], m[f := v];
    forall g | g in m' ensures exists i :: 0 <= i < |all| && all[i].0 == g {
      if g == f {
        assert all[|pairs|].0 == g;
      } else {
        var i :| 0 <= i < |pairs| && pairs[i].0 == g;
        assert all[i].0 == g;
      }
    }
  }

  lemma {:induction false} VisitOne<V>(m: map<Bytes, V>, rest: map<Bytes, V>, k: Bytes)
    requires rest.Keys <= m.Keys && k in rest
    ensures m - (rest - {k}).Keys == (m - rest.Keys)[k := m[k]]
  {
  }

  /** The fields of a hash, in the order its iterator happens to yield them. */
  method ListHash(fields: map<Bytes, Bytes>) returns (pairs: Pairs)
    ensures ListsFields(pairs, fields)
  {
    pairs := [];
    var rest := fields;
    assert fields - rest.Keys == map[];
    while rest.Keys != {}
      invariant rest.Keys <= fields.Keys && forall f :: f in rest ==> rest[f] == fields[f]
      invariant ListsFields(pairs, fields - rest.Keys)
      decreases |rest|
    {
      var f :| f in rest.Keys;
      VisitOne(fields, rest, f);
      FieldsSnoc(pairs, fields - rest.Keys, f, rest[f]);
      pairs := pairs + [(f, rest[f])];
      rest := rest - {f};
    }
    assert fields - rest.Keys == fields;
  }

  /** One shard, in the order its iterator happens to yield it. */
  method ListShard(shard: map<Bytes, Entry>) returns (records: seq<Record>)
    ensures Lists(records, shard)
  {
    records := [];
    var rest := shard;
    assert shard - rest.Keys == map[];
    while rest.Keys != {}
      invariant rest.Keys <= shard.Keys && forall k :: k in rest ==> rest[k] == shard[k]
      invariant Lists(records, shard - rest.Keys)
      decreases |rest|
    {
      var k :| k in rest.Keys;
      var e := rest[k];
      var shape: Shape;
      if e.value.Str? {
        shape := StrShape(e.value.bytes);
      } else {
        var pairs := ListHash(e.value.fields);
        shape := HashShape(pairs);
      }
      VisitOne(shard, rest, k);
      ListsSnoc(records, shard - rest.Keys, Record(k, shape, e.expiry), e);
      records := records + [Record(k, shape, e.expiry)];
      rest := rest - {k};
    }
    assert shard - rest.Keys == shard;
  }

  lemma {:induction false} VisitShard(cfg: Config, shards: Shards, i: nat)
    requires Partitioned(cfg, shards) && i < |shards|
    requires Ahead(cfg, shards, i).Keys <= Merged(cfg, shards).Keys
    ensures Ahead(cfg, shards, i + 1).Keys <= Merged(cfg, shards).Keys
    ensures Merged(cfg, shards) - Ahead(cfg, shards, i + 1).Keys
            == (Merged(cfg, shards) - Ahead(cfg, shards, i).Keys) + shards[i]
    ensures (Merged(cfg, shards) - Ahead(cfg, shards, i).Keys).Keys !! shards[i].Keys
  {
    hide Merged, Ahead;
    OneAhead(cfg, shards, i);
    forall k | k in shards[i] ensures k in Merged(cfg, shards) && Merged(cfg, shards)[k] == shards[i][k] {
      MergedAt(cfg, shards, k);
    }
    Apart(Merged(cfg, shards), Ahead(cfg, shards, i).Keys, shards[i].Keys);
  }

  lemma {:induction false} Apart<V>(m: map<Bytes, V>, taken: set<Bytes>, part: set<Bytes>)
    requires part <= taken
    ensures (m - taken).Keys !! part
  {
  }

  /** The walk over all shards that a save and a log rewrite make. */
  method ListStore(store: ShardedStore) returns (records: seq<Record>)
    requires store.Valid()
    ensures Lists(records, store.Entries())
  {
    hide Merged, Lists, Ahead;
    records := [];
    ghost var all := store.Entries();
    AllAhead(store.cfg, store.shards);
    NothingListed();
    assert all - all.Keys == map[];
    for i := 0 to |store.shards|
      invariant Ahead(store.cfg, store.shards, i).Keys <= all.Keys
      invariant Lists(records, all - Ahead(store.cfg, store.shards, i).Keys)
    {
      VisitShard(store.cfg, store.shards, i);
      var part := ListShard(store.shards[i]);
      ListsJoin(records, all - Ahead(store.cfg, store.shards, i).Keys, part, store.shards[i]);
      records := records + part;
    }
    assert all - Ahead(store.cfg, store.shards, |store.shards|).Keys == all;
  }

  lemma {:induction false} NothingListed()
    ensures Lists([], map[])
  {
  }

  // ---------------------------------------------------------------- saving, rewriting, loading

  /** The body of `save_snapshot_sync` over the live store. */
  method SaveStore(store: ShardedStore, c: Rdb.Codec, now: nat) returns (image: Bytes, count: nat)
    requires store.Valid()
    ensures exists records :: Lists(records, store.Entries()) && image == Rdb.Image(c, records, now)
                              && count == |Rdb.Unexpired(records, now)|
  {
    var records := ListStore(store);
    image, count := Rdb.SaveImage(c, records, now);
  }

  /** `Aof::rewrite` over the live store. */
  method RewriteFromStore(store: ShardedStore, aof: AppendOnlyFile, now: nat) returns (stats: Option<RewriteStats>)
    requires store.Valid()
    modifies aof
    ensures store.Valid() && store.View() == old(store.View())
    ensures old(aof.rewriteInProgress) ==> stats == None && aof.View() == old(aof.View())
    ensures !old(aof.rewriteInProgress) ==>
              && aof.sizeBytes == |Log(aof.View())| && stats.Some?
              && exists records :: Lists(records, store.Entries()) && Log(aof.View()) == EncodeAll(SnapshotCommands(records, now))
  {
    hide Merged, Partitioned, Lists, EncodeAll, SnapshotCommands, Script, PerformAll;
    var records := ListStore(store);
    stats := aof.RewriteLog(records, now);
  }

  /** One entry of the load loop of `load_snapshot`. */
  method LoadRecord(store: ShardedStore, r: Record, now: nat)
    requires store.Valid()
    modifies store
    ensures store.Valid() && store.View() == Rdb.Insert(store.cfg, old(store.View()), r, now)
  {
    hide Merged, Partitioned;
    if Expired(r.expiry, now) {
      return;
    }
    var value: Value;
    match r.shape {
      case StrShape(bytes) => value := Str(bytes);
      case HashShape(pairs) =>
        var m, _ := ShardedStore.InsertFields(map[], pairs);
        value := Hash(m);
    }
    var size := CalculateEntrySize(r.key, value);
    TotalPut(store.Entries(), r.key, Entry(value, Rdb.LoadedExpiry(r.expiry, now), Small, 0));
    store.Add(size);
    store.Put(r.key, Entry(value, Rdb.LoadedExpiry(r.expiry, now), Small, 0));
  }

  /** The frame loop of `load_snapshot`. */
  method LoadBody(store: ShardedStore, c: Rdb.Codec, bytes: Bytes, count: nat, now: nat) returns (ok: bool, loaded: nat)
    requires store.Valid()
    modifies store
    ensures store.Valid() && (store.View(), ok) == Rdb.LoadFrames(store.cfg, c, bytes, count, now, old(store.View()))
    ensures ok ==> loaded == Rdb.CountFrames(c, bytes, count, now)
  {
    hide Merged, Partitioned, Rdb.Insert, Rdb.FromLe;
    var pos: nat := 0;
    loaded := 0;
    for i := 0 to count
      invariant store.Valid() && pos <= |bytes|
      invariant Rdb.LoadFrames(store.cfg, c, bytes, count, now, old(store.View()))
                == Rdb.LoadFrames(store.cfg, c, bytes[pos..], count - i, now, store.View())
      invariant Rdb.CountFrames(c, bytes, count, now) == loaded + Rdb.CountFrames(c, bytes[pos..], count - i, now)
    {
      if |bytes| - pos < 4 {
        return true, loaded;
      }
      ghost var rest := bytes[pos..];
      var len := Rdb.FromLe(bytes[pos..pos + 4]);
      assert rest[..4] == bytes[pos..pos + 4];
      if |bytes| - pos - 4 < len {
        return false, loaded;
      }
      var data := bytes[pos + 4..pos + 4 + len];
      assert rest[4..4 + len] == data && rest[4 + len..] == bytes[pos + 4 + len..];
      var record := Rdb.Decode(c, data);
      if record.None? {
        return false, loaded;
      }
      LoadRecord(store, record.value, now);
      if !Expired(record.value.expiry, now) {
        loaded := loaded + 1;
      }
      pos := pos + 4 + len;
    }
    return true, loaded;
  }

  /** `load_snapshot` on the bytes of an existing file. */
  method LoadSnapshot(store: ShardedStore, c: Rdb.Codec, file: Bytes, now: nat) returns (ok: bool, loaded: nat)
    requires store.Valid()
    modifies store
    ensures store.Valid() && (store.View(), ok) == Rdb.Load(store.cfg, c, file, now, old(store.View()))
    ensures ok ==> loaded == Rdb.CountLoaded(c, file, now)
  {
    hide Merged, Partitioned, Rdb.LoadFrames, Rdb.CountFrames, Rdb.FromLe;
    if |file| < Rdb.COUNT_AT + 8 || file[..4] != Rdb.MAGIC || file[4] != Rdb.VERSION {
      return false, 0;
    }
    var count := Rdb.FromLe(file[Rdb.COUNT_AT..Rdb.COUNT_AT + 8]);
    ok, loaded := LoadBody(store, c, file[Rdb.COUNT_AT + 8..], count, now);
  }

  // ---------------------------------------------------------------- replaying the log

  /** The commands a reader has yet to yield, one frame at a time. */
  lemma {:induction false} ReadLogStep(s: Bytes)
    ensures var (cmds, clean) := ReadLog(s);
            match NextFrame(s)
            case Eof => cmds == [] && clean
            case Corrupt => cmds == [] && !clean
            case Frame(cmd, rest) => |rest| < |s| && cmds != [] && cmds[0] == cmd && (cmds[1..], clean) == ReadLog(rest)
  {
  }

  lemma {:induction false} ReplayDbStep(cfg: Config, db: Db, cmds: seq<Command>, r: nat, draws: seq<seq<Pick>>)
    ensures ReplayDb(cfg, db, cmds, r, draws)
            == if cmds == [] then db
               else ReplayDb(cfg, Execute(cfg, db, cmds[0], r, DrawnFirst(draws)).0, cmds[1..], r, DrawnLater(draws))
  {
  }

  /** One turn of the startup loop; `rest` is what the reader has yet to yield. */
  method ReplayNext(
    store: ShardedStore, reader: CommandReader, now: nat, picks: seq<Pick>, ghost rest: seq<Command>, ghost ended: bool)
    returns (done: bool, clean: bool)
    requires store.Valid() && reader.Valid() && ReadLog(reader.Remaining()) == (rest, ended)
    modifies reader, store, store.queues
    ensures store.Valid() && reader.Valid() && (done <==> rest == [])
    ensures done ==> clean == ended && store.View() == old(store.View())
    ensures !done ==> store.View() == Execute(store.cfg, old(store.View()), rest[0], now, picks).0
    ensures !done ==> |reader.Remaining()| < |old(reader.Remaining())| && ReadLog(reader.Remaining()) == (rest[1..], ended)
  {
    hide Merged, Partitioned, Execute, ReadLog, NextFrame;
    ReadLogStep(reader.Remaining());
    var next := reader.NextCommand();
    if next.Failed? {
      return true, false;
    }
    if next.value.None? {
      return true, true;
    }
    var _ := ExecuteCommand(store, null, next.value.value, now, picks);
    return false, false;
  }

  /** The startup loop of src/main.rs, before the log is opened for appending. */
  method ReplayLog(store: ShardedStore, file: Bytes, now: nat, draws: seq<seq<Pick>>) returns (replayed: nat, clean: bool)
    requires store.Valid()
    modifies store, store.queues
    ensures store.Valid()
    ensures var (cmds, ended) := ReadLog(file);
            && replayed == |cmds| && clean == ended
            && store.View() == ReplayDb(store.cfg, old(store.View()), cmds, now, draws)
  {
    hide Merged, Partitioned, Execute, ReadLog, ReplayDb;
    var reader := new CommandReader(file);
    replayed := 0;
    var left := draws;
    ghost var goal := ReplayDb(store.cfg, store.View(), ReadLog(file).0, now, draws);
    ghost var rest, ended := ReadLog(file).0, ReadLog(file).1;
    while true
      invariant store.Valid() && reader.Valid()
      invariant ReadLog(reader.Remaining()) == (rest, ended)
      invariant ReplayDb(store.cfg, store.View(), rest, now, left) == goal
      invariant replayed + |rest| == |ReadLog(file).0|
      decreases |rest|
    {
      ReplayDbStep(store.cfg, store.View(), rest, now, left);
      var done, ok := ReplayNext(store, reader, now, DrawnFirst(left), rest, ended);
      if done {
        return replayed, ok;
      }
      rest := rest[1..];
      left := DrawnLater(left);
      replayed := replayed + 1;
    }
  }
}
