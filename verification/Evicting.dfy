/**
 * Which entries an eviction removes, and when it makes enough room. The draws alone say which keys
 * go, in which order; the loop takes as many of them as it needs, up to a hundred.
 */
module Evicting {
  import opened Basics
  import opened S3Fifo
  import opened Store
  import opened Commands
  import opened Names
  import opened Reference
  import opened Accounting
  import opened Setting

  // ---------------------------------------------------------------- which keys the draws name

  /** The keys of a shard in the order in which it gives them up: Small before Main, oldest first. */
  function Pending(q: Queues): seq<Bytes> {
    q.small + q.main
  }

  type Waiting = seq<seq<Bytes>>

  ghost function WaitingIn(cfg: Config, db: Db): (w: Waiting)
    ensures |w| == cfg.numShards
  {
    seq(cfg.numShards, i requires 0 <= i < cfg.numShards => Pending(QueueAt(db, i)))
  }

  /** Shards visited in turn, each giving up its next key, until one of these is stored there. */
  ghost function Visit(cfg: Config, stored: set<Bytes>, w: Waiting, shards: seq<nat>): (r: (Option<Bytes>, Waiting))
    requires |w| == cfg.numShards
    ensures |r.1| == cfg.numShards
    decreases |shards|
  {
    if shards == [] then (None, w)
    else
      var i := shards[0] % cfg.numShards;
      if w[i] == [] then Visit(cfg, stored, w, shards[1..])
      else if w[i][0] in stored && ShardOf(cfg, w[i][0]) == i then (Some(w[i][0]), w[i := w[i][1..]])
      else Visit(cfg, stored, w[i := w[i][1..]], shards[1..])
  }

  /** The key one draw finds. Under LRU and random it names a key; under S3-FIFO it names shards. */
  ghost function Draw(cfg: Config, stored: set<Bytes>, w: Waiting, pick: Pick): (r: (Option<Bytes>, Waiting))
    requires |w| == cfg.numShards
    ensures |r.1| == cfg.numShards && (r.0.Some? ==> r.0.value in stored)
  {
    match cfg.policy
    case NoEviction => (None, w)
    case AllKeysS3Fifo =>
      VisitStored(cfg, stored, w, pick.shards);
      Visit(cfg, stored, w, pick.shards)
    case AllKeysLru | AllKeysRandom => (if pick.victim.Some? && pick.victim.value in stored then pick.victim else None, w)
  }

  lemma {:induction false} VisitStored(cfg: Config, stored: set<Bytes>, w: Waiting, shards: seq<nat>)
    requires |w| == cfg.numShards
    ensures Visit(cfg, stored, w, shards).0.Some? ==> Visit(cfg, stored, w, shards).0.value in stored
    decreases |shards|
  {
    if shards != [] {
      var i := shards[0] % cfg.numShards;
      if w[i] == [] {
        VisitStored(cfg, stored, w, shards[1..]);
      } else {
        VisitStored(cfg, stored, w[i := w[i][1..]], shards[1..]);
      }
    }
  }

  /** The keys that successive draws find, up to the first that finds none. */
  ghost function Victims(cfg: Config, stored: set<Bytes>, w: Waiting, picks: seq<Pick>): seq<Bytes>
    requires |w| == cfg.numShards
    decreases |picks|
  {
    if picks == [] then []
    else
      var (k, w') := Draw(cfg, stored, w, picks[0]);
      if k == None then [] else [k.value] + Victims(cfg, stored - {k.value}, w', picks[1..])
  }

  ghost function VictimsOf(cfg: Config, db: Db, picks: seq<Pick>): seq<Bytes> {
    Victims(cfg, db.entries.Keys, WaitingIn(cfg, db), picks)
  }

  lemma {:induction false} VictimsStored(cfg: Config, stored: set<Bytes>, w: Waiting, picks: seq<Pick>)
    requires |w| == cfg.numShards
    ensures var vs := Victims(cfg, stored, w, picks);
            |vs| <= |picks| && Distinct(vs) && forall k :: k in vs ==> k in stored
    decreases |picks|
  {
    hide Draw;
    if picks != [] {
      var (k, w') := Draw(cfg, stored, w, picks[0]);
      if k.Some? {
        VictimsStored(cfg, stored - {k.value}, w', picks[1..]);
      }
    }
  }

  /** Under LRU and random, draws that name different stored keys find exactly these. */
  lemma {:induction false} NamedKeys(cfg: Config, stored: set<Bytes>, w: Waiting, picks: seq<Pick>, ks: seq<Bytes>)
    requires |w| == cfg.numShards && (cfg.policy == AllKeysLru || cfg.policy == AllKeysRandom)
    requires |ks| <= |picks| && Distinct(ks) && forall i :: 0 <= i < |ks| ==> ks[i] in stored && picks[i].victim == Some(ks[i])
    ensures ks <= Victims(cfg, stored, w, picks)
    decreases |picks|
  {
    if ks != [] {
      forall i | 0 <= i < |ks[1..]| ensures ks[1..][i] in stored - {ks[0]} && picks[1..][i].victim == Some(ks[1..][i]) {
        assert ks[1..][i] == ks[i + 1];
      }
      NamedKeys(cfg, stored - {ks[0]}, w, picks[1..], ks[1..]);
      assert ks == [ks[0]] + ks[1..];
    }
  }

  /** Under S3-FIFO, draws of one shard find its oldest keys, if these are stored there. */
  lemma {:induction false} OldestKeys(cfg: Config, stored: set<Bytes>, w: Waiting, picks: seq<Pick>, i: nat, m: nat)
    requires |w| == cfg.numShards && cfg.policy == AllKeysS3Fifo && i < |w| && m <= |w[i]| && m <= |picks|
    requires forall j :: 0 <= j < m ==> picks[j].shards != [] && picks[j].shards[0] % cfg.numShards == i
    requires Distinct(w[i][..m]) && forall j :: 0 <= j < m ==> w[i][j] in stored && ShardOf(cfg, w[i][j]) == i
    ensures w[i][..m] <= Victims(cfg, stored, w, picks)
    decreases m
  {
    hide ShardOf;
    if m > 0 {
      var k, w' := w[i][0], w[i := w[i][1..]];
      assert Draw(cfg, stored, w, picks[0]) == (Some(k), w');
      forall j | 0 <= j < m - 1
        ensures w'[i][j] in stored - {k} && ShardOf(cfg, w'[i][j]) == i && picks[1..][j].shards != [] && picks[1..][j].shards[0] % cfg.numShards == i
      {
        assert w'[i][j] == w[i][j + 1] == w[i][..m][j + 1] && w[i][..m][0] == k && picks[1..][j] == picks[j + 1];
      }
      assert w'[i][..m - 1] == w[i][..m][1..];
      OldestKeys(cfg, stored - {k}, w', picks[1..], i, m - 1);
      assert w[i][..m] == [k] + w'[i][..m - 1];
    }
  }

  // ---------------------------------------------------------------- one eviction

  lemma {:induction false} PopTakesNext(q: Queues, hash: Bytes -> U64, caps: Caps)
    ensures var (q', k) := PopVictim(q, hash, caps);
            if Pending(q) == [] then k == None && Pending(q') == []
            else k == Some(Pending(q)[0]) && Pending(q') == Pending(q)[1..]
  {
    if q.small != [] {
      assert Pending(q)[1..] == q.small[1..] + q.main;
    } else if q.main != [] {
      assert Pending(q)[1..] == [] + q.main[1..];
    }
  }

  lemma {:induction false} WaitingAfter(cfg: Config, db: Db, i: nat, q: Queues)
    requires |db.queues| == cfg.numShards && i < cfg.numShards
    ensures WaitingIn(cfg, SetQueue(db, i, q)) == WaitingIn(cfg, db)[i := Pending(q)]
  {
  }

  lemma {:induction false} S3Draws(cfg: Config, db: Db, shards: seq<nat>)
    requires |db.queues| == cfg.numShards
    ensures var (d, n) := EvictS3(cfg, db, shards);
            var (k, w) := Visit(cfg, db.entries.Keys, WaitingIn(cfg, db), shards);
            && |d.queues| == cfg.numShards && WaitingIn(cfg, d) == w
            && (if k == None then n == 0 && d.entries == db.entries && d.used == db.used
                else k.value in db.entries && n == EntrySize(k.value, db.entries[k.value])
                     && d.entries == db.entries - {k.value} && d.used == db.used - n)
    decreases |shards|
  {
    hide PopVictim, Pending, EntrySize, ShardOf;
    if shards != [] {
      var i := shards[0] % cfg.numShards;
      var (q, victim) := PopVictim(QueueAt(db, i), cfg.hash, cfg.caps);
      var d := SetQueue(db, i, q);
      PopTakesNext(QueueAt(db, i), cfg.hash, cfg.caps);
      WaitingAfter(cfg, db, i, q);
      var w := WaitingIn(cfg, db);
      if w[i] == [] {
        assert w[i := Pending(q)] == w;
      }
      hide WaitingIn;
      if !(victim.Some? && victim.value in d.entries && ShardOf(cfg, victim.value) == i) {
        S3Draws(cfg, d, shards[1..]);
      } else {
        SameWaiting(cfg, d, Expel(d, victim.value).0);
      }
    }
  }

  lemma {:induction false} SameWaiting(cfg: Config, db: Db, d: Db)
    requires d.queues == db.queues
    ensures WaitingIn(cfg, d) == WaitingIn(cfg, db)
  {
  }

  /** One eviction removes exactly the key its draw finds, and reports its size. */
  lemma {:induction false} EvictionIsDraw(cfg: Config, db: Db, pick: Pick)
    requires |db.queues| == cfg.numShards
    ensures var (d, n) := EvictOne(cfg, db, pick);
            var (k, w) := Draw(cfg, db.entries.Keys, WaitingIn(cfg, db), pick);
            && |d.queues| == cfg.numShards && WaitingIn(cfg, d) == w
            && (if k == None then n == 0 && d.entries == db.entries && d.used == db.used
                else k.value in db.entries && n == EntrySize(k.value, db.entries[k.value])
                     && d.entries == db.entries - {k.value} && d.used == db.used - n)
  {
    hide EvictS3, Visit, EntrySize, WaitingIn;
    S3Draws(cfg, db, pick.shards);
    if cfg.policy != AllKeysS3Fifo {
      SameWaiting(cfg, db, EvictOne(cfg, db, pick).0);
    }
  }

  // ---------------------------------------------------------------- the loop

  /** The sizes of these keys, together. */
  ghost function Weight(entries: map<Bytes, Entry>, ks: seq<Bytes>): nat {
    if ks == [] then 0 else SizeAt(entries, ks[0]) + Weight(entries, ks[1..])
  }

  lemma {:induction false} WeightWithout(entries: map<Bytes, Entry>, k: Bytes, ks: seq<Bytes>)
    requires k !in ks
    ensures Weight(entries - {k}, ks) == Weight(entries, ks)
  {
    hide EntrySize;
    if ks != [] {
      WeightWithout(entries, k, ks[1..]);
    }
  }

  lemma {:induction false} WeightGrows(entries: map<Bytes, Entry>, ks: seq<Bytes>, n: nat)
    requires n <= |ks|
    ensures Weight(entries, ks[..n]) <= Weight(entries, ks)
  {
    hide SizeAt;
    if n > 0 {
      assert ks[..n][0] == ks[0] && ks[..n][1..] == ks[1..][..n - 1];
      WeightGrows(entries, ks[1..], n - 1);
    }
  }

  /** The first `n` of a list that starts with `k`. */
  lemma {:induction false} FirstAndRest(entries: map<Bytes, Entry>, k: Bytes, rest: seq<Bytes>, n: nat)
    requires n <= |rest| && k in entries && k !in rest
    ensures var ks := ([k] + rest)[..n + 1];
            && Weight(entries, ks) == EntrySize(k, entries[k]) + Weight(entries - {k}, rest[..n])
            && entries - Elements(ks) == entries - {k} - Elements(rest[..n])
  {
    hide EntrySize;
    var ks := ([k] + rest)[..n + 1];
    assert ks[0] == k && ks[1..] == rest[..n];
    ElementsCons(ks);
    WeightWithout(entries, k, rest[..n]);
  }

  lemma {:induction false} NothingYet(entries: map<Bytes, Entry>, ks: seq<Bytes>)
    ensures Weight(entries, ks[..0]) == 0 && entries - Elements(ks[..0]) == entries
  {
    assert ks[..0] == [];
  }

  /**
   * The loop removes the first `n` victims of the draws: as many as it takes to free what is
   * needed, or all there are, or as many as are left of a hundred.
   */
  lemma {:induction false} LoopTakes(cfg: Config, db: Db, needed: nat, picks: seq<Pick>, freed: nat, attempts: nat) returns (n: nat)
    requires |db.queues| == cfg.numShards && attempts <= 100
    ensures var vs := VictimsOf(cfg, db, picks);
            var d := EvictLoop(cfg, db, needed, picks, freed, attempts);
            && n <= |vs| && attempts + n <= 100
            && d.entries == db.entries - Elements(vs[..n]) && d.used == db.used - Weight(db.entries, vs[..n])
            && (freed + Weight(db.entries, vs[..n]) >= needed || n == |vs| || attempts + n == 100)
            && (n > 0 ==> freed + Weight(db.entries, vs[..n - 1]) < needed)
    decreases |picks|
  {
    hide EvictOne, Draw, Weight, EntrySize, WaitingIn, Elements;
    var vs := VictimsOf(cfg, db, picks);
    NothingYet(db.entries, vs);
    n := 0;
    if freed < needed && attempts < 100 && picks != [] {
      EvictionIsDraw(cfg, db, picks[0]);
      var (d, size) := EvictOne(cfg, db, picks[0]);
      var k := Draw(cfg, db.entries.Keys, WaitingIn(cfg, db), picks[0]).0;
      if k.Some? {
        SizesArePositive(k.value, db.entries[k.value]);
        var m := LoopTakes(cfg, d, needed, picks[1..], freed + size, attempts + 1);
        n := m + 1;
        var rest := VictimsOf(cfg, d, picks[1..]);
        assert d.entries.Keys == db.entries.Keys - {k.value};
        VictimsStored(cfg, d.entries.Keys, WaitingIn(cfg, d), picks[1..]);
        assert vs == [k.value] + rest;
        FirstAndRest(db.entries, k.value, rest, m);
        if m > 0 {
          FirstAndRest(db.entries, k.value, rest, m - 1);
        } else {
          assert vs[..n - 1] == vs[..0];
        }
      }
    }
  }

  lemma {:induction false} SizesArePositive(k: Bytes, e: Entry)
    ensures EntrySize(k, e) > 0
  {
  }

  // ---------------------------------------------------------------- making room

  /** As many victims as one request can take. */
  ghost function Takeable(cfg: Config, db: Db, picks: seq<Pick>): seq<Bytes> {
    var vs := VictimsOf(cfg, db, picks);
    if |vs| <= 100 then vs else vs[..100]
  }

  /**
   * Making room, exactly. Nothing goes if the request fits or nothing may be evicted. Otherwise the
   * first `n` victims go, no more than needed, and the request is granted if it fits then.
   */
  lemma {:induction false} RoomExactly(cfg: Config, db: Db, needed: nat, picks: seq<Pick>) returns (n: nat)
    requires |db.queues| == cfg.numShards
    ensures var vs := Takeable(cfg, db, picks);
            var (d, ok) := EvictIfNeeded(cfg, db, needed, picks);
            && n <= |vs| && d.entries == db.entries - Elements(vs[..n]) && d.used == db.used - Weight(db.entries, vs[..n])
            && (cfg.maxMemory == 0 || db.used + needed <= cfg.maxMemory ==> n == 0 && ok)
            && (cfg.maxMemory > 0 && db.used + needed > cfg.maxMemory ==>
                  && (ok <==> cfg.policy != NoEviction && d.used + needed <= cfg.maxMemory)
                  && (cfg.policy != NoEviction ==> Weight(db.entries, vs[..n]) >= needed || n == |vs|)
                  && (n > 0 ==> Weight(db.entries, vs[..n - 1]) < needed))
  {
    hide EvictLoop, Weight, VictimsOf, Elements;
    var all := VictimsOf(cfg, db, picks);
    var vs := Takeable(cfg, db, picks);
    NothingYet(db.entries, vs);
    n := 0;
    if cfg.maxMemory > 0 && db.used + needed > cfg.maxMemory && cfg.policy != NoEviction {
      n := LoopTakes(cfg, db, needed, picks, 0, 0);
      assert vs[..n] == all[..n];
      if n > 0 {
        assert vs[..n - 1] == all[..n - 1];
      }
    }
  }

  /**
   * When a store within its limit grants a request: if and only if it fits, or something may be
   * evicted and the victims of the draws, a hundred at most, are at least as large as the shortfall.
   */
  lemma {:induction false} GrantedExactly(cfg: Config, db: Db, needed: nat, picks: seq<Pick>)
    requires |db.queues| == cfg.numShards && cfg.maxMemory > 0 && db.used <= cfg.maxMemory
    ensures EvictIfNeeded(cfg, db, needed, picks).1
            <==> || db.used + needed <= cfg.maxMemory
                 || (cfg.policy != NoEviction
                     && Weight(db.entries, Takeable(cfg, db, picks)) >= db.used + needed - cfg.maxMemory)
  {
    hide EvictIfNeeded, Weight, Takeable, Elements;
    var vs := Takeable(cfg, db, picks);
    var n := RoomExactly(cfg, db, needed, picks);
    WeightGrows(db.entries, vs, n);
    assert vs[..|vs|] == vs;
  }

  /** Victims that come up first and are large enough will do. */
  lemma {:induction false} FirstVictimsSuffice(cfg: Config, db: Db, needed: nat, picks: seq<Pick>, ks: seq<Bytes>)
    requires |db.queues| == cfg.numShards && cfg.maxMemory > 0 && db.used <= cfg.maxMemory && cfg.policy != NoEviction
    requires ks <= VictimsOf(cfg, db, picks) && |ks| <= 100 && Weight(db.entries, ks) >= needed
    ensures EvictIfNeeded(cfg, db, needed, picks).1
  {
    hide EvictIfNeeded, Weight, VictimsOf;
    var vs := Takeable(cfg, db, picks);
    assert vs[..|ks|] == ks;
    WeightGrows(db.entries, vs, |ks|);
    GrantedExactly(cfg, db, needed, picks);
  }

  /** Under LRU and random, up to a hundred draws of different stored keys of enough size get the request granted. */
  lemma {:induction false} NamedKeysSuffice(cfg: Config, db: Db, needed: nat, picks: seq<Pick>, ks: seq<Bytes>)
    requires |db.queues| == cfg.numShards && cfg.maxMemory > 0 && db.used <= cfg.maxMemory
    requires cfg.policy == AllKeysLru || cfg.policy == AllKeysRandom
    requires |ks| <= |picks| && |ks| <= 100 && Distinct(ks) && Weight(db.entries, ks) >= needed
    requires forall i :: 0 <= i < |ks| ==> ks[i] in db.entries && picks[i].victim == Some(ks[i])
    ensures EvictIfNeeded(cfg, db, needed, picks).1
  {
    hide EvictIfNeeded, Weight, Victims;
    NamedKeys(cfg, db.entries.Keys, WaitingIn(cfg, db), picks, ks);
    FirstVictimsSuffice(cfg, db, needed, picks, ks);
  }

  /** Under S3-FIFO, draws of a shard whose oldest `m` queued keys are stored there and large enough do so too. */
  lemma {:induction false} OldestKeysSuffice(cfg: Config, db: Db, needed: nat, picks: seq<Pick>, i: nat, m: nat)
    requires |db.queues| == cfg.numShards && cfg.maxMemory > 0 && db.used <= cfg.maxMemory && cfg.policy == AllKeysS3Fifo
    requires i < cfg.numShards && m <= |Pending(db.queues[i])| && m <= |picks| && m <= 100
    requires forall j :: 0 <= j < m ==> picks[j].shards != [] && picks[j].shards[0] % cfg.numShards == i
    requires var ks := Pending(db.queues[i])[..m];
             && Distinct(ks) && Weight(db.entries, ks) >= needed
             && forall k :: k in ks ==> k in db.entries && ShardOf(cfg, k) == i
    ensures EvictIfNeeded(cfg, db, needed, picks).1
  {
    hide EvictIfNeeded, Weight, Victims, ShardOf, Pending;
    var w, ks := WaitingIn(cfg, db), Pending(db.queues[i])[..m];
    assert w[i] == Pending(db.queues[i]);
    forall j | 0 <= j < m ensures w[i][j] in db.entries.Keys && ShardOf(cfg, w[i][j]) == i {
      assert w[i][j] == ks[j];
    }
    OldestKeys(cfg, db.entries.Keys, w, picks, i, m);
    FirstVictimsSuffice(cfg, db, needed, picks, ks);
  }

  /** A refusal: the policy, the counter above the limit, a hundred entries gone, or no more draws that find any. */
  lemma {:induction false} RefusedOnlyIf(cfg: Config, db: Db, needed: nat, picks: seq<Pick>)
    requires |db.queues| == cfg.numShards && !EvictIfNeeded(cfg, db, needed, picks).1
    ensures var gone := |db.entries| - |EvictIfNeeded(cfg, db, needed, picks).0.entries|;
            || cfg.policy == NoEviction || db.used > cfg.maxMemory
            || gone == 100 || gone == |VictimsOf(cfg, db, picks)|
  {
    hide EvictIfNeeded, Weight, VictimsOf, Elements;
    var vs := Takeable(cfg, db, picks);
    var n := RoomExactly(cfg, db, needed, picks);
    VictimsDiffer(cfg, db, picks);
    Gone(db.entries, vs[..n]);
  }

  lemma {:induction false} VictimsDiffer(cfg: Config, db: Db, picks: seq<Pick>)
    ensures var vs := Takeable(cfg, db, picks);
            Distinct(vs) && forall k :: k in vs ==> k in db.entries
  {
    VictimsStored(cfg, db.entries.Keys, WaitingIn(cfg, db), picks);
  }

  lemma {:induction false} Gone(entries: map<Bytes, Entry>, ks: seq<Bytes>)
    requires Distinct(ks) && forall k :: k in ks ==> k in entries
    ensures |entries - Elements(ks)| == |entries| - |ks|
  {
    CountDistinct(ks);
    var left := entries - Elements(ks);
    assert left.Keys == entries.Keys - Elements(ks) && Elements(ks) <= entries.Keys;
    assert |left| == |left.Keys| && |entries| == |entries.Keys|;
    assert |left.Keys| == |entries.Keys| - |Elements(ks)|;
  }

  /** So a SET to a store within its limit is refused for memory exactly then. */
  lemma {:induction false} SetRefusedExactly(cfg: Config, db: Db, cmd: Command, opts: seq<Opt>, now: nat, picks: seq<Pick>)
    requires |cmd| >= 3 && Spells(cmd[0], "SET") && Writes(cmd[3..], opts)
    requires |db.queues| == cfg.numShards && cfg.maxMemory > 0 && db.used <= cfg.maxMemory
    ensures var shortfall := db.used + |cmd[1]| + |cmd[2]| + 64 - cfg.maxMemory;
            Execute(cfg, db, cmd, now, picks).1 == Error(OutOfMemory)
            <==> shortfall > 0 && (cfg.policy == NoEviction || Weight(db.entries, Takeable(cfg, db, picks)) < shortfall)
  {
    hide Execute, Writes, Spells, EvictIfNeeded, Live, TtlOf, Lifetime;
    var _ := SetLaw(cfg, db, cmd, opts, now, picks);
    GrantedExactly(cfg, db, |cmd[1]| + |cmd[2]| + 64, picks);
  }
}
