/**
 * The snapshot file of src/persistence.rs: header, back-patched entry count and length-prefixed
 * frames around an entry codec that is taken as given.
 */
module Rdb {
  import opened Basics
  import opened Resp
  import opened S3Fifo
  import opened Store
  import opened Snapshot
  import opened Accounting

  // ---------------------------------------------------------------- little-endian numbers

  /** The low `k` bytes of a number, least significant first: a cast and `to_le_bytes` in one. */
  function Le(n: nat, k: nat): (s: Bytes)
    ensures |s| == k
    decreases k
  {
    if k == 0 then [] else [n % 256] + Le(n / 256, k - 1)
  }

  function FromLe(s: Bytes): nat {
    if s == [] then 0 else s[0] + 256 * FromLe(s[1..])
  }

  function Pow256(k: nat): nat {
    if k == 0 then 1 else 256 * Pow256(k - 1)
  }

  lemma {:induction false} FromLeLe(n: nat, k: nat)
    requires n < Pow256(k)
    ensures FromLe(Le(n, k)) == n
    decreases k
  {
    if k > 0 {
      assert n / 256 < Pow256(k - 1);
      FromLeLe(n / 256, k - 1);
      assert Le(n, k)[1..] == Le(n / 256, k - 1);
    }
  }

  lemma {:induction false} Widths()
    ensures Pow256(4) == 0x1_0000_0000 && Pow256(8) == U64_MAX + 1
  {
    assert Pow256(2) == 65536;
  }

  lemma {:induction false} FromLeBound(n: nat, k: nat)
    ensures FromLe(Le(n, k)) < Pow256(k)
    decreases k
  {
    if k > 0 {
      FromLeBound(n / 256, k - 1);
      assert Le(n, k)[1..] == Le(n / 256, k - 1);
    }
  }

  /** The 32-bit cast of an entry's length: the prefix tells the truth exactly below 4 GiB. */
  lemma {:induction false} LengthPrefix(len: nat)
    ensures FromLe(Le(len, 4)) == len <==> len < 0x1_0000_0000
  {
    Widths();
    FromLeBound(len, 4);
    if len < 0x1_0000_0000 {
      FromLeLe(len, 4);
    }
  }

  // ---------------------------------------------------------------- the format

  /** The serialiser of entries, and the two decoders tried in turn. */
  datatype Codec = Codec(enc: Record -> Bytes, dec: Bytes -> Option<Record>, legacy: Bytes -> Option<Record>)

  /** The entry is read back, by the decoder of today or, where that one fails, by the older one. */
  ghost predicate Inverts(c: Codec, r: Record) {
    var data := c.enc(r);
    c.dec(data) == Some(r) || (c.dec(data) == None && c.legacy(data) == Some(r))
  }

  const MAGIC: Bytes := [82, 68, 83, 84]
  const VERSION: Byte := 1
  const COUNT_AT: nat := 13

  function Frame(c: Codec, r: Record): Bytes {
    Le(|c.enc(r)|, 4) + c.enc(r)
  }

  function Frames(c: Codec, records: seq<Record>): Bytes {
    if records == [] then [] else Frame(c, records[0]) + Frames(c, records[1..])
  }

  /** The records a save at `now` writes. */
  function Unexpired(records: seq<Record>, now: nat): seq<Record> {
    if records == [] then []
    else (if Expired(records[0].expiry, now) then [] else [records[0]]) + Unexpired(records[1..], now)
  }

  function Image(c: Codec, records: seq<Record>, now: nat): Bytes {
    var kept := Unexpired(records, now);
    MAGIC + [VERSION] + Le(now, 8) + Le(|kept|, 8) + Frames(c, kept)
  }

  // ---------------------------------------------------------------- saving

  lemma {:induction false} FramesSnoc(c: Codec, records: seq<Record>, r: Record)
    ensures Frames(c, records + [r]) == Frames(c, records) + Frame(c, r)
  {
    if records == [] {
      assert [r][1..] == [] && records + [r] == [r];
    } else {
      assert (records + [r])[1..] == records[1..] + [r];
      FramesSnoc(c, records[1..], r);
      ConcatAssociative(Frame(c, records[0]), Frames(c, records[1..]), Frame(c, r));
    }
  }

  lemma {:induction false} UnexpiredSnoc(records: seq<Record>, r: Record, now: nat)
    ensures Unexpired(records + [r], now) == Unexpired(records, now) + (if Expired(r.expiry, now) then [] else [r])
  {
    if records == [] {
      assert [r][1..] == [] && records + [r] == [r];
    } else {
      assert (records + [r])[1..] == records[1..] + [r];
      UnexpiredSnoc(records[1..], r, now);
    }
  }

  /** The loop of `save_snapshot_sync`: the frames of unexpired entries, streamed and counted. */
  method StreamEntries(c: Codec, records: seq<Record>, now: nat, start: Bytes) returns (file: Bytes, count: nat)
    ensures file == start + Frames(c, Unexpired(records, now))
    ensures count == |Unexpired(records, now)|
  {
    file, count := start, 0;
    assert records[..0] == [] && start + [] == start;
    for i := 0 to |records|
      invariant file == start + Frames(c, Unexpired(records[..i], now))
      invariant count == |Unexpired(records[..i], now)|
    {
      assert records[..i + 1] == records[..i] + [records[i]];
      UnexpiredSnoc(records[..i], records[i], now);
      ghost var kept := Unexpired(records[..i], now);
      if Expired(records[i].expiry, now) {
        assert kept + [] == kept;
        continue;
      }
      StreamOne(c, start, kept, records[i]);
      var encoded := c.enc(records[i]);
      file := file + Le(|encoded|, 4);
      file := file + encoded;
      count := count + 1;
    }
    assert records[..|records|] == records;
  }

  lemma {:induction false} StreamOne(c: Codec, start: Bytes, kept: seq<Record>, r: Record)
    ensures start + Frames(c, kept) + Le(|c.enc(r)|, 4) + c.enc(r) == start + Frames(c, kept + [r])
  {
    FramesSnoc(c, kept, r);
    Concat4(start, Frames(c, kept), Le(|c.enc(r)|, 4), c.enc(r));
  }

  lemma {:induction false} Concat4(a: Bytes, b: Bytes, c: Bytes, d: Bytes)
    ensures a + b + c + d == a + (b + (c + d))
  {
  }

  /** `save_snapshot_sync` up to the rename: a zero count is written first and patched at the end. */
  method SaveImage(c: Codec, records: seq<Record>, now: nat) returns (file: Bytes, count: nat)
    ensures file == Image(c, records, now)
    ensures count == |Unexpired(records, now)|
  {
    var header := MAGIC + [VERSION] + Le(now, 8);
    var countAt := |header|;
    file, count := StreamEntries(c, records, now, header + Le(0, 8));
    Patch(header, Le(0, 8), Frames(c, Unexpired(records, now)));
    file := file[..countAt] + Le(count, 8) + file[countAt + 8..];
  }

  lemma {:induction false} Patch(header: Bytes, placeholder: Bytes, body: Bytes)
    ensures (header + placeholder + body)[..|header|] == header
    ensures (header + placeholder + body)[|header| + |placeholder|..] == body
  {
  }

  // ---------------------------------------------------------------- loading

  function ValueOf(shape: Shape): Value {
    match shape
    case StrShape(bytes) => Str(bytes)
    case HashShape(pairs) => Hash(PutAll(map[], pairs).0)
  }

  /** `ttl.map(|t| now + t)` after `ttl = exp - now`: the absolute expiry comes back unchanged. */
  function LoadedExpiry(expiry: Option<nat>, now: nat): Option<nat> {
    match expiry
    case None => None
    case Some(t) => if t > now then Some(now + (t - now)) else None
  }

  function LoadedEntry(r: Record, now: nat): Entry {
    Entry(ValueOf(r.shape), LoadedExpiry(r.expiry, now), Small, 0)
  }

  /** One entry into the store; the counter grows by its size whatever it replaces. */
  ghost function Insert(cfg: Config, db: Db, r: Record, now: nat): Db {
    if Expired(r.expiry, now) then db
    else
      var e := LoadedEntry(r, now);
      db.(entries := db.entries[r.key := e], used := Charge(cfg, db.used, EntrySize(r.key, e)))
  }

  function Decode(c: Codec, data: Bytes): Option<Record> {
    if c.dec(data).Some? then c.dec(data) else c.legacy(data)
  }

  /** The frame loop: it stops early at a missing length and fails at a torn or unreadable frame. */
  ghost function LoadFrames(cfg: Config, c: Codec, bytes: Bytes, count: nat, now: nat, db: Db): (Db, bool)
    decreases count
  {
    if count == 0 || |bytes| < 4 then (db, true)
    else
      var len := FromLe(bytes[..4]);
      if |bytes| - 4 < len then (db, false)
      else
        match Decode(c, bytes[4..4 + len])
        case None => (db, false)
        case Some(r) => LoadFrames(cfg, c, bytes[4 + len..], count - 1, now, Insert(cfg, db, r, now))
  }

  /** The number of entries the loop inserts. */
  function CountFrames(c: Codec, bytes: Bytes, count: nat, now: nat): nat
    decreases count
  {
    if count == 0 || |bytes| < 4 then 0
    else
      var len := FromLe(bytes[..4]);
      if |bytes| - 4 < len then 0
      else
        match Decode(c, bytes[4..4 + len])
        case None => 0
        case Some(r) => (if Expired(r.expiry, now) then 0 else 1) + CountFrames(c, bytes[4 + len..], count - 1, now)
  }

  function CountLoaded(c: Codec, file: Bytes, now: nat): nat {
    if |file| < COUNT_AT + 8 then 0
    else CountFrames(c, file[COUNT_AT + 8..], FromLe(file[COUNT_AT..COUNT_AT + 8]), now)
  }

  ghost function Load(cfg: Config, c: Codec, file: Bytes, now: nat, db: Db): (Db, bool) {
    if |file| < COUNT_AT + 8 || file[..4] != MAGIC || file[4] != VERSION then (db, false)
    else LoadFrames(cfg, c, file[COUNT_AT + 8..], FromLe(file[COUNT_AT..COUNT_AT + 8]), now, db)
  }

  // ---------------------------------------------------------------- round trip

  ghost function InsertAll(cfg: Config, db: Db, records: seq<Record>, now: nat): Db
    decreases |records|
  {
    if records == [] then db else InsertAll(cfg, Insert(cfg, db, records[0], now), records[1..], now)
  }

  /** A codec that inverts itself on these records, and whose output fits the 32-bit length prefix. */
  ghost predicate Framed(c: Codec, records: seq<Record>) {
    forall i :: 0 <= i < |records| ==> Inverts(c, records[i]) && |c.enc(records[i])| < 0x1_0000_0000
  }

  lemma {:induction false} FrameReads(c: Codec, r: Record, rest: Bytes)
    requires Inverts(c, r) && |c.enc(r)| < 0x1_0000_0000
    ensures var bytes := Frame(c, r) + rest;
            var len := FromLe(bytes[..4]);
            && len == |c.enc(r)| && 4 + len <= |bytes|
            && Decode(c, bytes[4..4 + len]) == Some(r) && bytes[4 + len..] == rest
  {
    var bytes := Frame(c, r) + rest;
    Widths();
    FromLeLe(|c.enc(r)|, 4);
    assert bytes[..4] == Le(|c.enc(r)|, 4);
    assert bytes[4..4 + |c.enc(r)|] == c.enc(r);
  }

  lemma {:induction false} FramesLoad(cfg: Config, c: Codec, records: seq<Record>, now: nat, db: Db)
    requires Framed(c, records)
    ensures LoadFrames(cfg, c, Frames(c, records), |records|, now, db) == (InsertAll(cfg, db, records, now), true)
    decreases |records|
  {
    hide Insert, Frame, Inverts;
    if records != [] {
      FrameReads(c, records[0], Frames(c, records[1..]));
      FramesLoad(cfg, c, records[1..], now, Insert(cfg, db, records[0], now));
    }
  }

  lemma {:induction false} FramesCount(c: Codec, records: seq<Record>, now: nat)
    requires Framed(c, records)
    ensures CountFrames(c, Frames(c, records), |records|, now) == |Unexpired(records, now)|
    decreases |records|
  {
    hide Frame, Inverts, CountFrames, Expired;
    if records == [] {
      NoFrames(c, now);
    } else {
      CountOne(c, records[0], Frames(c, records[1..]), |records| - 1, now);
      FramesCount(c, records[1..], now);
    }
  }

  lemma {:induction false} NoFrames(c: Codec, now: nat)
    ensures CountFrames(c, [], 0, now) == 0
  {
  }

  lemma {:induction false} CountOne(c: Codec, r: Record, rest: Bytes, n: nat, now: nat)
    requires Inverts(c, r) && |c.enc(r)| < 0x1_0000_0000
    ensures CountFrames(c, Frame(c, r) + rest, n + 1, now)
            == (if Expired(r.expiry, now) then 0 else 1) + CountFrames(c, rest, n, now)
  {
    FrameReads(c, r, rest);
    hide Frame, Inverts, FromLe, Decode;
  }

  lemma {:induction false} UnexpiredSubset(records: seq<Record>, now: nat)
    ensures |Unexpired(records, now)| <= |records|
    ensures forall r :: r in Unexpired(records, now) <==> r in records && !Expired(r.expiry, now)
  {
    if records != [] {
      UnexpiredSubset(records[1..], now);
    }
  }

  lemma {:induction false} ImageParts(time: Bytes, count: Bytes, frames: Bytes)
    requires |time| == 8 && |count| == 8
    ensures var file := MAGIC + [VERSION] + time + count + frames;
            && |file| >= COUNT_AT + 8 && file[..4] == MAGIC && file[4] == VERSION
            && file[COUNT_AT..COUNT_AT + 8] == count && file[COUNT_AT + 8..] == frames
  {
  }

  lemma {:induction false} ImageLoads(cfg: Config, c: Codec, records: seq<Record>, t: nat, now: nat, db: Db)
    requires Framed(c, records) && |records| <= U64_MAX
    ensures Load(cfg, c, Image(c, records, t), now, db) == (InsertAll(cfg, db, Unexpired(records, t), now), true)
    ensures CountLoaded(c, Image(c, records, t), now) == |Unexpired(Unexpired(records, t), now)|
  {
    var kept := Unexpired(records, t);
    UnexpiredSubset(records, t);
    forall i | 0 <= i < |kept| ensures Inverts(c, kept[i]) && |c.enc(kept[i])| < 0x1_0000_0000 {
      assert kept[i] in records;
    }
    hide Le, Frames, Unexpired, LoadFrames, CountFrames, Inverts, FromLe;
    ImageParts(Le(t, 8), Le(|kept|, 8), Frames(c, kept));
    Widths();
    FromLeLe(|kept|, 8);
    FramesLoad(cfg, c, kept, now, db);
    FramesCount(c, kept, now);
  }

  /** The entries live at `now`, as a load leaves them. */
  ghost function Reloaded(entries: map<Bytes, Entry>, now: nat): map<Bytes, Entry> {
    map k | k in entries && !Expired(entries[k].expiry, now) :: Entry(entries[k].value, entries[k].expiry, Small, 0)
  }

  ghost function ReloadedFrom(records: seq<Record>, entries: map<Bytes, Entry>, n: nat, now: nat): map<Bytes, Entry>
    requires n <= |records|
  {
    Restrict(Reloaded(entries, now), Seen(records, n))
  }

  lemma {:induction false} ShapeRebuilds(shape: Shape, value: Value)
    requires Shows(shape, value)
    ensures ValueOf(shape) == value
  {
    if shape.HashShape? {
      assert shape.pairs[0..] == shape.pairs;
      PutListed(value.fields, shape.pairs, 0, map[]);
    }
  }

  /** Skipping at the save what would be skipped at the load anyway changes nothing. */
  lemma {:induction false} SkipEarly(cfg: Config, db: Db, records: seq<Record>, t: nat, now: nat)
    requires t <= now
    ensures InsertAll(cfg, db, Unexpired(records, t), now) == InsertAll(cfg, db, records, now)
    decreases |records|
  {
    if records != [] {
      SkipEarly(cfg, Insert(cfg, db, records[0], now), records[1..], t, now);
      var rest := Unexpired(records[1..], t);
      if !Expired(records[0].expiry, t) {
        assert ([records[0]] + rest)[1..] == rest;
      } else {
        assert [] + rest == rest;
      }
    }
  }

  lemma {:induction false} InsertStep(cfg: Config, db: Db, records: seq<Record>, entries: map<Bytes, Entry>, n: nat, now: nat)
    requires Lists(records, entries) && n < |records| && db.entries == ReloadedFrom(records, entries, n, now)
    ensures Insert(cfg, db, records[n], now).entries == ReloadedFrom(records, entries, n + 1, now)
    ensures cfg.maxMemory > 0 ==> Excess(Insert(cfg, db, records[n], now)) == Excess(db)
  {
    var r := records[n];
    ShapeRebuilds(r.shape, entries[r.key].value);
    SeenMore(records, entries, n);
    RestrictMore(Reloaded(entries, now), Seen(records, n), r.key);
    if !Expired(r.expiry, now) {
      TotalPut(db.entries, r.key, LoadedEntry(r, now));
    }
  }

  lemma {:induction false} InsertListed(cfg: Config, db: Db, records: seq<Record>, entries: map<Bytes, Entry>, n: nat, now: nat)
    requires Lists(records, entries) && n <= |records| && db.entries == ReloadedFrom(records, entries, n, now)
    ensures InsertAll(cfg, db, records[n..], now).entries == ReloadedFrom(records, entries, |records|, now)
    ensures cfg.maxMemory > 0 ==> Excess(InsertAll(cfg, db, records[n..], now)) == Excess(db)
    decreases |records| - n
  {
    hide Insert, ReloadedFrom, Excess, Lists;
    if n < |records| {
      InsertStep(cfg, db, records, entries, n, now);
      assert records[n..][0] == records[n] && records[n..][1..] == records[n + 1..];
      InsertListed(cfg, Insert(cfg, db, records[n], now), records, entries, n + 1, now);
    }
  }

  lemma {:induction false} LateCount(records: seq<Record>, t: nat, now: nat)
    requires t <= now
    ensures Unexpired(Unexpired(records, t), now) == Unexpired(records, now)
  {
    if records != [] {
      LateCount(records[1..], t, now);
      var rest := Unexpired(records[1..], t);
      if Expired(records[0].expiry, t) {
        assert Unexpired(records, t) == rest;
      } else {
        assert Unexpired(records, t)[0] == records[0] && Unexpired(records, t)[1..] == rest;
      }
    }
  }

  /** One record for each entry that is live. */
  lemma {:induction false} CountReloaded(records: seq<Record>, entries: map<Bytes, Entry>, now: nat)
    requires Lists(records, entries)
    ensures |Unexpired(records, now)| == |Reloaded(entries, now)|
  {
    KeysCounted(records, now);
    var keys := set r | r in Unexpired(records, now) :: r.key;
    UnexpiredSubset(records, now);
    hide Shows, Unexpired;
    forall k | k in Reloaded(entries, now) ensures k in keys {
      var i :| 0 <= i < |records| && records[i].key == k;
      assert records[i] in records && records[i] in Unexpired(records, now);
    }
    assert keys == Reloaded(entries, now).Keys;
    assert |Reloaded(entries, now)| == |Reloaded(entries, now).Keys|;
  }

  lemma {:induction false} KeysCounted(records: seq<Record>, now: nat)
    requires forall i, j :: 0 <= i < j < |records| ==> records[i].key != records[j].key
    ensures |set r | r in Unexpired(records, now) :: r.key| == |Unexpired(records, now)|
  {
    if records != [] {
      var first, rest := records[0], records[1..];
      KeysCounted(rest, now);
      UnexpiredSubset(rest, now);
      var keys := set r | r in Unexpired(rest, now) :: r.key;
      if !Expired(first.expiry, now) {
        forall r | r in Unexpired(rest, now) ensures r.key != first.key {
          var i :| 0 <= i < |rest| && rest[i] == r;
          assert records[i + 1] == r;
        }
        assert (set r | r in Unexpired(records, now) :: r.key) == keys + {first.key};
      } else {
        assert Unexpired(records, now) == Unexpired(rest, now);
      }
    }
  }

  lemma {:induction false} LoadedCount(cfg: Config, c: Codec, records: seq<Record>, entries: map<Bytes, Entry>, t: nat, now: nat)
    requires Lists(records, entries) && Framed(c, records) && |records| <= U64_MAX && t <= now
    ensures CountLoaded(c, Image(c, records, t), now) == |Reloaded(entries, now)|
  {
    hide Image, Framed, Unexpired, CountLoaded, Lists, Load, Reloaded;
    ImageLoads(cfg, c, records, t, now, Fresh(cfg));
    LateCount(records, t, now);
    CountReloaded(records, entries, now);
  }

  /**
   * RDB round trip: an image saved at `t` and loaded into a fresh server at `now` restores exactly
   * the entries live at `now`, with their values and their original expiry times, and the counter
   * starts at their total size.
   */
  lemma {:induction false} RoundTrip(cfg: Config, c: Codec, records: seq<Record>, entries: map<Bytes, Entry>, t: nat, now: nat)
    requires Lists(records, entries) && Framed(c, records) && |records| <= U64_MAX && t <= now
    ensures var (d, ok) := Load(cfg, c, Image(c, records, t), now, Fresh(cfg));
            && ok && d.entries == Reloaded(entries, now)
            && CountLoaded(c, Image(c, records, t), now) == |d.entries|
            && (cfg.maxMemory > 0 ==> d.used == Total(d.entries))
  {
    hide Image, Framed, Load, Unexpired, CountLoaded, Lists, InsertAll, Reloaded, Fresh, Total;
    LoadedCount(cfg, c, records, entries, t, now);
    ImageLoads(cfg, c, records, t, now, Fresh(cfg));
    SkipEarly(cfg, Fresh(cfg), records, t, now);
    InsertedIntoFresh(cfg, records, entries, now);
  }

  lemma {:induction false} InsertedIntoFresh(cfg: Config, records: seq<Record>, entries: map<Bytes, Entry>, now: nat)
    requires Lists(records, entries)
    ensures InsertAll(cfg, Fresh(cfg), records, now).entries == Reloaded(entries, now)
    ensures cfg.maxMemory > 0 ==> Excess(InsertAll(cfg, Fresh(cfg), records, now)) == 0
  {
    hide InsertAll, Shows;
    assert Fresh(cfg).entries == ReloadedFrom(records, entries, 0, now);
    assert records[0..] == records;
    InsertListed(cfg, Fresh(cfg), records, entries, 0, now);
    AllSeen(records, entries, now);
    assert Excess(Fresh(cfg)) == 0;
  }

  lemma {:induction false} AllSeen(records: seq<Record>, entries: map<Bytes, Entry>, now: nat)
    requires Lists(records, entries)
    ensures ReloadedFrom(records, entries, |records|, now) == Reloaded(entries, now)
  {
    hide Shows, Expired;
    forall k | k in entries ensures k in Seen(records, |records|) {
      var i :| 0 <= i < |records| && records[i].key == k;
    }
  }

  // ---------------------------------------------------------------- the bytes of the header

  /** Numbers are written with the least significant byte first. */
  lemma {:induction false} LeastFirst(n: nat, k: nat)
    requires n < 256 && k > 0
    ensures Le(n, k) == [n] + seq(k - 1, _ => 0)
    decreases k
  {
    if k > 1 {
      LeastFirst(0, k - 1);
    }
  }

  /** A snapshot file starts with RDST, version 1, the time and the number of entries. */
  lemma {:induction false} Header(c: Codec, records: seq<Record>, now: nat)
    ensures var file := Image(c, records, now);
            && |file| >= 21 && file[..5] == [82, 68, 83, 84, 1]
            && file[5..13] == Le(now, 8) && file[13..21] == Le(|Unexpired(records, now)|, 8)
  {
    hide Le, Frames, Unexpired;
  }

}
