/**
 * Log compaction (src/aof.rs): the store is re-serialised as one SET or HSET per live key, plus an
 * EXPIRE for the remaining lifetime, and means the same when replayed.
 */
module Snapshot {
  import opened Basics
  import opened Decimal
  import opened Resp
  import opened Store
  import opened Commands
  import opened Names
  import opened Reference

  const SET: Bytes := [83, 69, 84]
  const HSET: Bytes := [72, 83, 69, 84]
  const EXPIRE: Bytes := [69, 88, 80, 73, 82, 69]

  lemma {:induction false} EmittedNames()
    ensures OpOf(SET) == SetOp && OpOf(HSET) == HSetOp && OpOf(EXPIRE) == ExpireOp
  {
    hide OpOf;
    SetWord(SET);
    HsetWord(HSET);
    ExpireWord(EXPIRE);
  }

  // ---------------------------------------------------------------- walking the store

  /** A value as an iteration yields it: the fields of a hash come in some order. */
  datatype Shape = StrShape(bytes: Bytes) | HashShape(pairs: Pairs)

  datatype Record = Record(key: Bytes, shape: Shape, expiry: Option<nat>)

  /** `pairs` is `fields` in some order, each field once. */
  ghost predicate ListsFields(pairs: Pairs, fields: map<Bytes, Bytes>) {
    && (forall i, j :: 0 <= i < j < |pairs| ==> pairs[i].0 != pairs[j].0)
    && (forall i :: 0 <= i < |pairs| ==> pairs[i].0 in fields && fields[pairs[i].0] == pairs[i].1)
    && (forall f :: f in fields ==> exists i :: 0 <= i < |pairs| && pairs[i].0 == f)
  }

  ghost predicate Shows(shape: Shape, value: Value) {
    match shape
    case StrShape(bytes) => value == Str(bytes)
    case HashShape(pairs) => value.Hash? && ListsFields(pairs, value.fields)
  }

  /** `records` is the store in some order, each key once. */
  ghost predicate Lists(records: seq<Record>, entries: map<Bytes, Entry>) {
    && (forall i, j :: 0 <= i < j < |records| ==> records[i].key != records[j].key)
    && (forall i :: 0 <= i < |records| ==>
          && records[i].key in entries
          && Shows(records[i].shape, entries[records[i].key].value)
          && records[i].expiry == entries[records[i].key].expiry)
    && (forall k :: k in entries ==> exists i :: 0 <= i < |records| && records[i].key == k)
  }

  function FlattenPairs(pairs: Pairs): Command {
    if pairs == [] then [] else [pairs[0].0, pairs[0].1] + FlattenPairs(pairs[1..])
  }

  /** Expired keys and hashes without fields are passed over. */
  predicate Skipped(r: Record, now: nat) {
    Expired(r.expiry, now) || r.shape == HashShape([])
  }

  function WriteCommand(r: Record): Command {
    match r.shape
    case StrShape(bytes) => [SET, r.key, bytes]
    case HashShape(pairs) => [HSET, r.key] + FlattenPairs(pairs)
  }

  function CommandsFor(r: Record, now: nat): seq<Command> {
    if Skipped(r, now) then []
    else
      [WriteCommand(r)]
      + if r.expiry.Some? then [[EXPIRE, r.key, ToDecimal(r.expiry.value - now)]] else []
  }

  function SnapshotCommands(records: seq<Record>, now: nat): seq<Command> {
    if records == [] then [] else CommandsFor(records[0], now) + SnapshotCommands(records[1..], now)
  }

  function Kept(records: seq<Record>, now: nat): nat {
    if records == [] then 0 else (if Skipped(records[0], now) then 0 else 1) + Kept(records[1..], now)
  }

  // ---------------------------------------------------------------- write_store_snapshot

  method EmitHSet(key: Bytes, pairs: Pairs) returns (frame: Bytes, n: nat)
    ensures frame == EncodeCommand([HSET, key] + FlattenPairs(pairs)) && n == |frame|
  {
    var parts: Command := [HSET, key];
    for i := 0 to |pairs|
      invariant [HSET, key] + FlattenPairs(pairs) == parts + FlattenPairs(pairs[i..])
    {
      assert pairs[i..][1..] == pairs[i + 1..];
      PairsStep(parts, pairs[i..]);
      parts := parts + [pairs[i].0];
      parts := parts + [pairs[i].1];
    }
    assert parts + [] == parts;
    frame, n := WriteRespArray(parts);
  }

  lemma {:induction false} PairsStep(parts: Command, pairs: Pairs)
    requires pairs != []
    ensures parts + FlattenPairs(pairs) == parts + [pairs[0].0] + [pairs[0].1] + FlattenPairs(pairs[1..])
  {
  }

  /** The frames of one entry. */
  method EmitRecord(r: Record, now: nat) returns (out: Bytes, n: nat)
    requires !Skipped(r, now)
    ensures out == EncodeAll(CommandsFor(r, now)) && n == |out|
  {
    match r.shape {
      case StrShape(v) => out, n := WriteRespArray([SET, r.key, v]);
      case HashShape(pairs) => out, n := EmitHSet(r.key, pairs);
    }
    assert out == EncodeCommand(WriteCommand(r));
    EncodeAllSingle(WriteCommand(r));
    if r.expiry.Some? {
      var remaining := r.expiry.value - now;
      if remaining > 0 {
        var expire := [EXPIRE, r.key, ToDecimal(remaining)];
        var frame, m := WriteRespArray(expire);
        EncodeAllSingle(expire);
        EncodeAllConcat([WriteCommand(r)], [expire]);
        out, n := out + frame, n + m;
      }
    } else {
      assert [WriteCommand(r)] + [] == [WriteCommand(r)];
    }
  }

  /** The walk over the shards; `bytes` is the size the log is afterwards believed to have. */
  method WriteStoreSnapshot(records: seq<Record>, now: nat) returns (file: Bytes, keys: nat, bytes: nat)
    ensures file == EncodeAll(SnapshotCommands(records, now))
    ensures bytes == |file|
    ensures keys == Kept(records, now)
  {
    file, keys, bytes := [], 0, 0;
    assert records[0..] == records;
    for i := 0 to |records|
      invariant EncodeAll(SnapshotCommands(records, now)) == file + EncodeAll(SnapshotCommands(records[i..], now))
      invariant bytes == |file|
      invariant Kept(records, now) == keys + Kept(records[i..], now)
    {
      var r := records[i];
      assert records[i..][1..] == records[i + 1..];
      SnapshotStep(file, records[i..], now);
      if Expired(r.expiry, now) || r.shape == HashShape([]) {
        continue;
      }
      var out, n := EmitRecord(r, now);
      file := file + out;
      bytes := bytes + n;
      keys := keys + 1;
    }
    assert file + [] == file;
  }

  lemma {:induction false} SnapshotStep(file: Bytes, records: seq<Record>, now: nat)
    requires records != []
    ensures file + EncodeAll(SnapshotCommands(records, now))
            == file + EncodeAll(CommandsFor(records[0], now)) + EncodeAll(SnapshotCommands(records[1..], now))
    ensures Skipped(records[0], now) ==>
              EncodeAll(SnapshotCommands(records, now)) == EncodeAll(SnapshotCommands(records[1..], now))
  {
    var first, rest := CommandsFor(records[0], now), SnapshotCommands(records[1..], now);
    EncodeAllConcat(first, rest);
    ConcatAssociative(file, EncodeAll(first), EncodeAll(rest));
    assert [] + rest == rest;
  }

  // ---------------------------------------------------------------- what the snapshot means

  /** Replaying commands at one moment, in the reference semantics. */
  function Replay(m: Keyspace, cmds: seq<Command>, r: nat): Keyspace
    decreases |cmds|
  {
    if cmds == [] then m else Replay(RefExecute(m, cmds[0], r, GRANTED).0, cmds[1..], r)
  }

  lemma {:induction false} ReplayConcat(m: Keyspace, a: seq<Command>, b: seq<Command>, r: nat)
    ensures Replay(m, a + b, r) == Replay(Replay(m, a, r), b, r)
    decreases |a|
  {
    hide RefExecute;
    if a == [] {
      assert a + b == b;
    } else {
      assert (a + b)[0] == a[0] && (a + b)[1..] == a[1..] + b;
      ReplayConcat(RefExecute(m, a[0], r, GRANTED).0, a[1..], b, r);
    }
  }

  /** A lifetime that EXPIRE cannot express is lost; any other is measured anew from the replay. */
  function RestoredExpiry(expiry: Option<nat>, now: nat, r: nat): Option<nat> {
    if expiry.Some? && expiry.value > now && expiry.value - now <= I64_MAX
    then Some(r + (expiry.value - now)) else None
  }

  /** The key space a snapshot taken at `now` stands for when replayed at `r`. */
  function RestoredAt(m: Keyspace, now: nat, r: nat): Keyspace {
    map k | k in m :: Item(m[k].value, RestoredExpiry(m[k].expiry, now, r))
  }

  ghost predicate NoEmptyHash(m: Keyspace) {
    forall k :: k in m ==> m[k].value != Hash(map[])
  }

  /** The keys a snapshot can show: HSET cannot write a hash without fields. */
  ghost function Showable(m: Keyspace): Keyspace {
    map k | k in m && m[k].value != Hash(map[]) :: m[k]
  }

  lemma {:induction false} AllShowable(m: Keyspace)
    ensures NoEmptyHash(m) <==> Showable(m) == m
    ensures NoEmptyHash(m) <==> Showable(m).Keys == m.Keys
  {
    if !NoEmptyHash(m) {
      var k :| k in m && m[k].value == Hash(map[]);
      assert k !in Showable(m).Keys && k in m.Keys;
    }
  }

  // ------------------------------------------------ replaying one record

  lemma {:induction false} FlattenPairsRead(cmd: Command, i: nat, pairs: Pairs)
    requires i <= |cmd| && cmd[i..] == FlattenPairs(pairs)
    ensures MSetPairs(cmd, i) == pairs
    ensures |cmd| - i == 2 * |pairs|
    decreases |pairs|
  {
    if pairs != [] {
      assert cmd[i] == cmd[i..][0] && cmd[i + 1] == cmd[i..][1];
      assert cmd[i + 2..] == cmd[i..][2..] == FlattenPairs(pairs[1..]);
      FlattenPairsRead(cmd, i + 2, pairs[1..]);
      assert [pairs[0]] + pairs[1..] == pairs;
    }
  }

  /** Inserting the listed fields rebuilds the hash, in whatever order they were listed. */
  lemma {:induction false} PutListed(fields: map<Bytes, Bytes>, pairs: Pairs, i: nat, m: map<Bytes, Bytes>)
    requires ListsFields(pairs, fields) && i <= |pairs|
    requires m.Keys <= fields.Keys && (forall f :: f in m ==> m[f] == fields[f])
    requires forall j :: 0 <= j < i ==> pairs[j].0 in m
    ensures PutAll(m, pairs[i..]).0 == fields
    decreases |pairs| - i
  {
    if i == |pairs| {
      assert m.Keys == fields.Keys;
    } else {
      assert pairs[i..][1..] == pairs[i + 1..];
      PutListed(fields, pairs, i + 1, m[pairs[i].0 := pairs[i].1]);
    }
  }

  lemma {:induction false} ReplayHSet(m: Keyspace, k: Bytes, pairs: Pairs, fields: map<Bytes, Bytes>, r: nat)
    requires k !in m && ListsFields(pairs, fields) && pairs != []
    ensures RefExecute(m, [HSET, k] + FlattenPairs(pairs), r, GRANTED).0 == m[k := Item(Hash(fields), None)]
  {
    hide OpOf, RefExecute, PutAll;
    var cmd := [HSET, k] + FlattenPairs(pairs);
    assert cmd[0] == HSET && cmd[1] == k && cmd[2..] == FlattenPairs(pairs);
    FlattenPairsRead(cmd, 2, pairs);
    assert pairs[0..] == pairs;
    PutListed(fields, pairs, 0, map[]);
    HSetInto(m, cmd, r);
  }

  lemma {:induction false} HSetInto(m: Keyspace, cmd: Command, r: nat)
    requires |cmd| >= 4 && |cmd| % 2 == 0 && cmd[0] == HSET && cmd[1] !in m
    ensures RefExecute(m, cmd, r, GRANTED).0 == m[cmd[1] := Item(Hash(PutAll(map[], MSetPairs(cmd, 2)).0), None)]
  {
    hide OpOf;
    EmittedNames();
  }

  lemma {:induction false} ReplaySet(m: Keyspace, k: Bytes, v: Bytes, r: nat)
    ensures RefExecute(m, [SET, k, v], r, GRANTED).0 == m[k := Item(Str(v), None)]
  {
    hide OpOf;
    EmittedNames();
    assert ParseOptions([SET, k, v], 3, NO_OPTIONS) == Ok(NO_OPTIONS);
    assert m - {} == m;
  }

  lemma {:induction false} ReplayExpire(m: Keyspace, k: Bytes, seconds: nat, r: nat)
    requires k in m && seconds > 0
    ensures RefExecute(m, [EXPIRE, k, ToDecimal(seconds)], r, GRANTED).0
            == if seconds <= I64_MAX then m[k := m[k].(expiry := Some(r + seconds))] else m
  {
    hide OpOf;
    EmittedNames();
    FromToDecimal(seconds);
    assert IsDigit(ToDecimal(seconds)[0]);
    ParseI64Digits(ToDecimal(seconds));
  }

  lemma {:induction false} ReplayRecord(m: Keyspace, rec: Record, value: Value, now: nat, r: nat)
    requires rec.key !in m && Shows(rec.shape, value) && !Skipped(rec, now)
    ensures Replay(m, CommandsFor(rec, now), r) == m[rec.key := Item(value, RestoredExpiry(rec.expiry, now, r))]
  {
    hide RefExecute;
    var k, write := rec.key, WriteCommand(rec);
    var m1 := RefExecute(m, write, r, GRANTED).0;
    assert m1 == m[k := Item(value, None)] by {
      match rec.shape
      case StrShape(bytes) => ReplaySet(m, k, bytes, r);
      case HashShape(pairs) => ReplayHSet(m, k, pairs, value.fields, r);
    }
    if rec.expiry.Some? {
      var left := rec.expiry.value - now;
      var expire := [EXPIRE, k, ToDecimal(left)];
      ReplayExpire(m1, k, left, r);
      ReplayTwo(m, write, expire, r);
    } else {
      ReplayOne(m, write, r);
      assert [write] + [] == [write];
    }
  }

  lemma {:induction false} ReplayOne(m: Keyspace, cmd: Command, r: nat)
    ensures Replay(m, [cmd], r) == RefExecute(m, cmd, r, GRANTED).0
  {
    hide RefExecute;
    assert [cmd][1..] == [];
  }

  lemma {:induction false} ReplayTwo(m: Keyspace, a: Command, b: Command, r: nat)
    ensures Replay(m, [a] + [b], r) == RefExecute(RefExecute(m, a, r, GRANTED).0, b, r, GRANTED).0
  {
    hide RefExecute;
    ReplayConcat(m, [a], [b], r);
    ReplayOne(m, a, r);
    ReplayOne(RefExecute(m, a, r, GRANTED).0, b, r);
  }

  // ------------------------------------------------ replaying the walk

  function Seen(records: seq<Record>, n: nat): set<Bytes>
    requires n <= |records|
  {
    set i | 0 <= i < n :: records[i].key
  }

  function Restrict<V>(m: map<Bytes, V>, keys: set<Bytes>): map<Bytes, V> {
    map k | k in m && k in keys :: m[k]
  }

  lemma {:induction false} RestrictMore<V>(m: map<Bytes, V>, keys: set<Bytes>, k: Bytes)
    ensures Restrict(m, keys + {k}) == if k in m then Restrict(m, keys)[k := m[k]] else Restrict(m, keys)
  {
  }

  lemma {:induction false} SeenMore(records: seq<Record>, entries: map<Bytes, Entry>, n: nat)
    requires Lists(records, entries) && n < |records|
    ensures Seen(records, n + 1) == Seen(records, n) + {records[n].key}
    ensures records[n].key !in Seen(records, n)
  {
  }

  /** The part of the restored key space that the first `n` records account for. */
  ghost function RestoredPrefix(records: seq<Record>, entries: map<Bytes, Entry>, n: nat, now: nat, r: nat): Keyspace
    requires n <= |records|
  {
    Restrict(RestoredAt(Showable(Live(entries, now)), now, r), Seen(records, n))
  }

  lemma {:induction false} PrefixStep(records: seq<Record>, entries: map<Bytes, Entry>, n: nat, now: nat, r: nat)
    requires Lists(records, entries) && n < |records|
    ensures var rec := records[n];
            var done := RestoredPrefix(records, entries, n, now, r);
            && rec.key !in done
            && RestoredPrefix(records, entries, n + 1, now, r)
               == if Skipped(rec, now) then done
                  else done[rec.key := Item(entries[rec.key].value, RestoredExpiry(rec.expiry, now, r))]
  {
    var rec := records[n];
    SeenMore(records, entries, n);
    SkippedIsNotShown(records, entries, n, now);
    LiveAt(entries, now, rec.key);
    RestrictMore(RestoredAt(Showable(Live(entries, now)), now, r), Seen(records, n), rec.key);
  }

  lemma {:induction false} EmptyShape(shape: Shape, value: Value)
    requires Shows(shape, value)
    ensures shape == HashShape([]) <==> value == Hash(map[])
  {
    if shape == HashShape([]) {
      assert value.fields == map[];
    } else if shape.HashShape? {
      assert shape.pairs[0].0 in value.fields;
    }
  }

  lemma {:induction false} SkippedIsNotShown(records: seq<Record>, entries: map<Bytes, Entry>, n: nat, now: nat)
    requires Lists(records, entries) && n < |records|
    ensures Skipped(records[n], now) <==> records[n].key !in Showable(Live(entries, now))
  {
    var rec := records[n];
    LiveAt(entries, now, rec.key);
    EmptyShape(rec.shape, entries[rec.key].value);
  }

  lemma {:induction false} ReplayPrefix(records: seq<Record>, entries: map<Bytes, Entry>, n: nat, now: nat, r: nat)
    requires Lists(records, entries) && n <= |records|
    ensures Replay(RestoredPrefix(records, entries, n, now, r), SnapshotCommands(records[n..], now), r)
            == RestoredPrefix(records, entries, |records|, now, r)
    decreases |records| - n
  {
    hide RefExecute, RestoredPrefix;
    if n < |records| {
      var rec := records[n];
      var done := RestoredPrefix(records, entries, n, now, r);
      PrefixStep(records, entries, n, now, r);
      assert records[n..][0] == rec && records[n..][1..] == records[n + 1..];
      ReplayConcat(done, CommandsFor(rec, now), SnapshotCommands(records[n + 1..], now), r);
      if !Skipped(rec, now) {
        ReplayRecord(done, rec, entries[rec.key].value, now, r);
      }
      ReplayPrefix(records, entries, n + 1, now, r);
    }
  }

  lemma {:induction false} AllSeen(records: seq<Record>, entries: map<Bytes, Entry>, now: nat, r: nat)
    requires Lists(records, entries)
    ensures RestoredPrefix(records, entries, |records|, now, r) == RestoredAt(Showable(Live(entries, now)), now, r)
  {
    forall k | k in entries ensures k in Seen(records, |records|) {
      var i :| 0 <= i < |records| && records[i].key == k;
    }
  }

  /**
   * A rewrite preserves meaning: replayed at `r`, the snapshot taken at `now` yields exactly the
   * keys live at `now`, with their values and with their remaining lifetimes counted from `r`,
   * in whatever order the walk visited them. Only a hash without fields is left behind, and the
   * commands never store one.
   */
  lemma {:induction false} SnapshotMeaning(records: seq<Record>, entries: map<Bytes, Entry>, now: nat, r: nat)
    requires Lists(records, entries)
    ensures var m := Live(entries, now);
            var restored := Replay(map[], SnapshotCommands(records, now), r);
            && restored == RestoredAt(Showable(m), now, r)
            && (NoEmptyHash(m) ==> restored == RestoredAt(m, now, r))
            && (NoEmptyHash(m) <==> restored.Keys == m.Keys)
  {
    hide RefExecute, Replay, SnapshotCommands, NoEmptyHash, Live;
    AllShowable(Live(entries, now));
    assert RestoredAt(Showable(Live(entries, now)), now, r).Keys == Showable(Live(entries, now)).Keys;
    ReplayPrefix(records, entries, 0, now, r);
    assert records[0..] == records;
    assert RestoredPrefix(records, entries, 0, now, r) == map[];
    AllSeen(records, entries, now, r);
  }
}
