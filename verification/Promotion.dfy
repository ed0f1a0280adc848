/**
 * What reading a key is worth under S3-FIFO: one shard with its queues and the marks on its
 * entries, through any run of writes, reads, removals and evictions.
 */
module Promotion {
  import opened Basics
  import opened S3Fifo
  import opened Store
  import opened Commands
  import opened Names
  import opened Snapshot
  import opened Replaying
  import opened Witnesses
  import opened Evicting

  /** The bookkeeping on a stored entry. */
  datatype Mark = Mark(tag: QueueType, hits: nat)

  datatype Shard = Shard(q: Queues, marks: map<Bytes, Mark>)

  datatype Move =
    | Evict
    | Write(key: Bytes)
    | Read(key: Bytes)
    | Remove(key: Bytes)   // with its place in the queues
    | Lapse(key: Bytes)    // dropped as expired; the queues are not told

  function Step(cfg: Config, s: Shard, m: Move): Shard {
    match m
    case Evict =>
      var (q, k) := PopVictim(s.q, cfg.hash, cfg.caps);
      Shard(q, if k.Some? then s.marks - {k.value} else s.marks)
    case Write(k) =>
      var q := if k in s.marks then RemoveTagged(s.q, k, s.marks[k].tag) else s.q;
      var (q', tag) := Place(q, k, cfg.hash(k), cfg.caps);
      Shard(q', s.marks[k := Mark(tag, 0)])
    case Read(k) =>
      if k !in s.marks then s
      else
        var (q, tag, hits) := Touch(s.q, k, s.marks[k].tag, s.marks[k].hits, cfg.caps);
        Shard(q, s.marks[k := Mark(tag, hits)])
    case Remove(k) => if k !in s.marks then s else Shard(RemoveTagged(s.q, k, s.marks[k].tag), s.marks - {k})
    case Lapse(k) => s.(marks := s.marks - {k})
  }

  function Steps(cfg: Config, s: Shard, moves: seq<Move>): Shard
    decreases |moves|
  {
    if moves == [] then s else Steps(cfg, Step(cfg, s, moves[0]), moves[1..])
  }

  // ---------------------------------------------------------------- the store, shard by shard

  ghost function MarksIn(cfg: Config, entries: map<Bytes, Entry>, i: nat): map<Bytes, Mark> {
    map k | k in entries && ShardOf(cfg, k) == i :: Mark(entries[k].tag, entries[k].hits)
  }

  ghost function ShardAt(cfg: Config, db: Db, i: nat): Shard {
    Shard(QueueAt(db, i), MarksIn(cfg, db.entries, i))
  }

  /** A change of the store that is this move in one shard and nothing in the others. */
  ghost predicate MovesOne(cfg: Config, db: Db, d: Db, i: nat, m: Move) {
    && |d.queues| == |db.queues|
    && forall j :: 0 <= j < cfg.numShards ==> ShardAt(cfg, d, j) == if j == i then Step(cfg, ShardAt(cfg, db, i), m) else ShardAt(cfg, db, j)
  }

  lemma {:induction false} MarksPut(cfg: Config, entries: map<Bytes, Entry>, k: Bytes, e: Entry, j: nat)
    ensures MarksIn(cfg, entries[k := e], j)
            == if ShardOf(cfg, k) == j then MarksIn(cfg, entries, j)[k := Mark(e.tag, e.hits)] else MarksIn(cfg, entries, j)
  {
    hide ShardOf;
  }

  lemma {:induction false} MarksDrop(cfg: Config, entries: map<Bytes, Entry>, k: Bytes, j: nat)
    ensures MarksIn(cfg, entries - {k}, j) == if ShardOf(cfg, k) == j then MarksIn(cfg, entries, j) - {k} else MarksIn(cfg, entries, j)
    ensures k !in entries || ShardOf(cfg, k) != j ==> MarksIn(cfg, entries, j) - {k} == MarksIn(cfg, entries, j)
  {
    hide ShardOf;
  }

  lemma {:induction false} MarkAt(cfg: Config, entries: map<Bytes, Entry>, k: Bytes)
    ensures k in MarksIn(cfg, entries, ShardOf(cfg, k)) <==> k in entries
    ensures k in entries ==> MarksIn(cfg, entries, ShardOf(cfg, k))[k] == Mark(entries[k].tag, entries[k].hits)
  {
  }

  lemma {:induction false} SetIsWrite(cfg: Config, db: Db, k: Bytes, v: Bytes, ttl: Option<nat>, now: nat)
    requires UsesQueues(cfg) && |db.queues| == cfg.numShards
    ensures MovesOne(cfg, db, SetAndCharge(cfg, db, k, v, ttl, now), ShardOf(cfg, k), Write(k))
  {
    hide RemoveTagged, Place, EntrySize, MarksIn, ShardOf;
    var i, d := ShardOf(cfg, k), SetAndCharge(cfg, db, k, v, ttl, now);
    assert i < cfg.numShards by { ShardInRange(cfg, k); }
    MarkAt(cfg, db.entries, k);
    forall j | 0 <= j < cfg.numShards
      ensures ShardAt(cfg, d, j) == if j == i then Step(cfg, ShardAt(cfg, db, i), Write(k)) else ShardAt(cfg, db, j)
    {
      MarksPut(cfg, db.entries, k, d.entries[k], j);
    }
  }

  lemma {:induction false} ShardInRange(cfg: Config, k: Bytes)
    ensures ShardOf(cfg, k) < cfg.numShards
  {
  }

  lemma {:induction false} AccessIsRead(cfg: Config, db: Db, k: Bytes)
    requires UsesQueues(cfg) && |db.queues| == cfg.numShards
    ensures MovesOne(cfg, db, Access(cfg, db, k), ShardOf(cfg, k), Read(k))
  {
    hide Touch, MarksIn, ShardOf;
    var i, d := ShardOf(cfg, k), Access(cfg, db, k);
    assert i < cfg.numShards by { ShardInRange(cfg, k); }
    MarkAt(cfg, db.entries, k);
    forall j | 0 <= j < cfg.numShards
      ensures ShardAt(cfg, d, j) == if j == i then Step(cfg, ShardAt(cfg, db, i), Read(k)) else ShardAt(cfg, db, j)
    {
      if k in db.entries {
        MarksPut(cfg, db.entries, k, d.entries[k], j);
      }
    }
  }

  lemma {:induction false} DeleteIsRemove(cfg: Config, db: Db, k: Bytes)
    requires UsesQueues(cfg) && |db.queues| == cfg.numShards
    ensures MovesOne(cfg, db, Delete(cfg, db, k), ShardOf(cfg, k), Remove(k))
  {
    hide RemoveTagged, EntrySize, MarksIn, ShardOf;
    var i, d := ShardOf(cfg, k), Delete(cfg, db, k);
    assert i < cfg.numShards by { ShardInRange(cfg, k); }
    MarkAt(cfg, db.entries, k);
    forall j | 0 <= j < cfg.numShards
      ensures ShardAt(cfg, d, j) == if j == i then Step(cfg, ShardAt(cfg, db, i), Remove(k)) else ShardAt(cfg, db, j)
    {
      MarksDrop(cfg, db.entries, k, j);
    }
  }

  lemma {:induction false} ReleaseIsLapse(cfg: Config, db: Db, k: Bytes)
    ensures MovesOne(cfg, db, Release(cfg, db, k), ShardOf(cfg, k), Lapse(k))
  {
    hide EntrySize, MarksIn, ShardOf;
    var i, d := ShardOf(cfg, k), Release(cfg, db, k);
    forall j | 0 <= j < cfg.numShards
      ensures ShardAt(cfg, d, j) == if j == i then Step(cfg, ShardAt(cfg, db, i), Lapse(k)) else ShardAt(cfg, db, j)
    {
      MarksDrop(cfg, db.entries, k, j);
    }
  }

  /** An eviction that draws one shard. */
  lemma {:induction false} EvictionIsEvict(cfg: Config, db: Db, i: nat)
    requires UsesQueues(cfg) && |db.queues| == cfg.numShards && i < cfg.numShards
    ensures MovesOne(cfg, db, EvictS3(cfg, db, [i]).0, i, Evict)
  {
    hide PopVictim, EvictS3, MarksIn, ShardOf;
    var (q, k) := PopVictim(QueueAt(db, i), cfg.hash, cfg.caps);
    var d := EvictS3(cfg, db, [i]).0;
    OneDrawn(cfg, db, i);
    forall j | 0 <= j < cfg.numShards
      ensures ShardAt(cfg, d, j) == if j == i then Step(cfg, ShardAt(cfg, db, i), Evict) else ShardAt(cfg, db, j)
    {
      if k.Some? {
        MarksDrop(cfg, db.entries, k.value, j);
      }
    }
  }

  lemma {:induction false} OneDrawn(cfg: Config, db: Db, i: nat)
    requires |db.queues| == cfg.numShards && i < cfg.numShards
    ensures var (q, k) := PopVictim(QueueAt(db, i), cfg.hash, cfg.caps);
            var d := EvictS3(cfg, db, [i]).0;
            && d.queues == db.queues[i := q]
            && d.entries == if k.Some? && k.value in db.entries && ShardOf(cfg, k.value) == i then db.entries - {k.value} else db.entries
  {
    hide PopVictim, EntrySize, ShardOf;
    assert i % cfg.numShards == i && [i][1..] == [];
  }

  // ---------------------------------------------------------------- reading twice

  predicate About(m: Move, k: Bytes) {
    !m.Evict? && m.key == k
  }

  /** The run reads the key, if at all, and does nothing else with it by name. */
  ghost predicate OnlyReads(moves: seq<Move>, k: Bytes) {
    forall i :: 0 <= i < |moves| && About(moves[i], k) ==> moves[i].Read?
  }

  function CountReads(moves: seq<Move>, k: Bytes): nat {
    if moves == [] then 0 else (if moves[0] == Read(k) then 1 else 0) + CountReads(moves[1..], k)
  }

  /** What reads make of a mark: the second one moves the key to Main, where it stays. */
  function MarkAfter(m: Mark, n: nat): Mark {
    if m.tag == Main || n == 0 then m
    else if m.hits + n >= 2 then Mark(Main, if m.hits >= 1 then m.hits + 1 else 2)
    else Mark(Small, 1)
  }

  lemma {:induction false} OtherMoves(cfg: Config, s: Shard, m: Move, k: Bytes)
    requires !About(m, k) && k in Step(cfg, s, m).marks
    ensures k in s.marks && Step(cfg, s, m).marks[k] == s.marks[k]
    ensures k !in s.q.smallSet ==> k !in Step(cfg, s, m).q.smallSet
  {
    match m
    case Evict =>
    case Write(_) =>
    case Read(_) =>
    case Remove(_) =>
    case Lapse(_) =>
  }

  /** Reading a key advances its mark; in Main it is in Main only. */
  lemma {:induction false} ReadMarks(cfg: Config, s: Shard, k: Bytes)
    requires k in s.marks && (s.marks[k].tag == Main ==> k !in s.q.smallSet)
    ensures var s' := Step(cfg, s, Read(k));
            && k in s'.marks && s'.marks[k] == MarkAfter(s.marks[k], 1)
            && (s'.marks[k].tag == Main ==> k !in s'.q.smallSet)
            && (s'.marks[k].tag == Small ==> s'.q == s.q)
  {
  }

  lemma {:induction false} MarksAddUp(m: Mark, n: nat)
    ensures MarkAfter(MarkAfter(m, 1), n) == MarkAfter(m, n + 1)
  {
  }

  /**
   * Over any run that only reads a key and does not evict it: no read leaves it unread, one read
   * leaves it in Small, and two or more make it a Main key that is not in Small.
   */
  lemma {:induction false} ReadsPromote(cfg: Config, s: Shard, moves: seq<Move>, k: Bytes)
    requires OnlyReads(moves, k) && k in s.marks && (s.marks[k].tag == Main ==> k !in s.q.smallSet)
    requires k in Steps(cfg, s, moves).marks
    ensures var s' := Steps(cfg, s, moves);
            && s'.marks[k] == MarkAfter(s.marks[k], CountReads(moves, k))
            && (s'.marks[k].tag == Main ==> k !in s'.q.smallSet)
    decreases |moves|
  {
    hide Step, MarkAfter;
    if moves == [] {
      MarkUnread(s.marks[k]);
    } else {
      var next := Step(cfg, s, moves[0]);
      if k !in next.marks {
        StaysGone(cfg, next, moves[1..], k);
        assert false;
      }
      if moves[0] == Read(k) {
        ReadMarks(cfg, s, k);
        MarksAddUp(s.marks[k], CountReads(moves[1..], k));
      } else {
        OtherMoves(cfg, s, moves[0], k);
      }
      ReadsPromote(cfg, next, moves[1..], k);
    }
  }

  lemma {:induction false} MarkUnread(m: Mark)
    ensures MarkAfter(m, 0) == m
  {
  }

  /** A key that is not stored does not come back unless it is written. */
  lemma {:induction false} StaysGone(cfg: Config, s: Shard, moves: seq<Move>, k: Bytes)
    requires OnlyReads(moves, k) && k !in s.marks
    ensures k !in Steps(cfg, s, moves).marks
    decreases |moves|
  {
    hide Place, Touch, PopVictim, RemoveTagged;
    if moves != [] {
      StaysGone(cfg, Step(cfg, s, moves[0]), moves[1..], k);
    }
  }

  // ---------------------------------------------------------------- the order of eviction

  /** Small and Main are free of duplicates and in step with their sets. */
  ghost predicate Neat(q: Queues) {
    && Distinct(q.small) && Elements(q.small) == q.smallSet
    && Distinct(q.main) && Elements(q.main) == q.mainSet
  }

  /** A full queue gives up its oldest key for a new one, a queue with room none. */
  lemma {:induction false} NewestStay(q: Queues, k: Bytes, caps: Caps)
    requires |q.small| <= caps.small && caps.small > 0 && |q.main| <= caps.main && caps.main > 0
    ensures k !in q.smallSet ==>
              AddToSmall(q, k, caps).small == (if |q.small| < caps.small then q.small else q.small[1..]) + [k]
    ensures k !in q.mainSet ==>
              AddToMain(q, k, caps).main == (if |q.main| < caps.main then q.main else q.main[1..]) + [k]
  {
  }

  lemma {:induction false} NeatMain(q: Queues, k: Bytes, caps: Caps)
    requires Neat(q)
    ensures Neat(AddToMain(q, k, caps)) && Neat(RemoveFromMain(q, k)) && Neat(ReinsertMainTail(q, k, caps))
  {
    WithoutDistinct(q.main, k);
    if k !in q.mainSet {
      ShiftIn(q.main, Overflow(|q.main|, caps.main), k);
    }
    var r := RemoveFromMain(q, k);
    ShiftIn(r.main, Overflow(|r.main|, caps.main), k);
  }

  lemma {:induction false} NeatSmall(q: Queues, k: Bytes, caps: Caps)
    requires Neat(q)
    ensures Neat(AddToSmall(q, k, caps)) && Neat(RemoveFromSmall(q, k))
  {
    WithoutDistinct(q.small, k);
    if k !in q.smallSet {
      ShiftIn(q.small, Overflow(|q.small|, caps.small), k);
    }
  }

  lemma {:induction false} NeatPop(q: Queues, hash: Bytes -> U64, caps: Caps)
    requires Neat(q)
    ensures Neat(PopVictim(q, hash, caps).0)
  {
    ElementsCons(q.small);
    ElementsCons(q.main);
  }

  lemma {:induction false} NeatGhost(q: Queues, h: U64)
    requires Neat(q)
    ensures Neat(RemoveFromGhost(q, h))
  {
  }

  lemma {:induction false} StepNeat(cfg: Config, s: Shard, m: Move)
    requires Neat(s.q)
    ensures Neat(Step(cfg, s, m).q)
  {
    hide Neat, AddToMain, AddToSmall, RemoveFromMain, RemoveFromSmall, ReinsertMainTail, RemoveFromGhost, PopVictim;
    match m
    case Evict => NeatPop(s.q, cfg.hash, cfg.caps);
    case Lapse(_) =>
    case Remove(k) =>
      NeatMain(s.q, k, cfg.caps);
      NeatSmall(s.q, k, cfg.caps);
    case Read(k) =>
      NeatMain(s.q, k, cfg.caps);
      NeatSmall(s.q, k, cfg.caps);
      NeatMain(RemoveFromSmall(s.q, k), k, cfg.caps);
    case Write(k) =>
      NeatMain(s.q, k, cfg.caps);
      NeatSmall(s.q, k, cfg.caps);
      var q := if k in s.marks then RemoveTagged(s.q, k, s.marks[k].tag) else s.q;
      NeatGhost(q, cfg.hash(k));
      NeatMain(RemoveFromGhost(q, cfg.hash(k)), k, cfg.caps);
      NeatSmall(q, k, cfg.caps);
  }

  /** In this list `x` stands before every `k`. */
  ghost predicate Leads(list: seq<Bytes>, x: Bytes, k: Bytes) {
    exists i :: 0 <= i < |list| && LeadsAt(list, i, x, k)
  }

  ghost predicate LeadsAt(list: seq<Bytes>, i: nat, x: Bytes, k: Bytes)
    requires i < |list|
  {
    list[i] == x && k !in list[..i]
  }

  /** `x` is due before `k`: it is in Small while `k` is not, or before `k` in Main. */
  ghost predicate Sooner(q: Queues, x: Bytes, k: Bytes) {
    && k !in q.small && x != k
    && (if x in q.small then x !in q.main else Leads(q.main, x, k))
  }

  lemma {:induction false} SoonerNotTaken(q: Queues, x: Bytes, k: Bytes, hash: Bytes -> U64, caps: Caps)
    requires Sooner(q, x, k)
    ensures PopVictim(q, hash, caps).1 != Some(k)
  {
  }

  lemma {:induction false} LeadsShifted(list: seq<Bytes>, n: nat, y: Bytes, x: Bytes, k: Bytes)
    requires Leads(list, x, k) && Distinct(list) && n <= |list| && y != x
    ensures x in list[n..] + [y] ==> Leads(list[n..] + [y], x, k)
  {
    var i :| 0 <= i < |list| && LeadsAt(list, i, x, k);
    var after := list[n..] + [y];
    if x in after {
      assert i >= n by {
        var j :| 0 <= j < |after| && after[j] == x;
        assert list[n + j] == x;
      }
      assert after[..i - n] == list[..i][n..];
      assert LeadsAt(after, i - n, x, k);
    }
  }

  lemma {:induction false} LeadsDropped(list: seq<Bytes>, x: Bytes, k: Bytes)
    requires Leads(list, x, k) && Distinct(list) && list[0] != x
    ensures Leads(list[1..], x, k)
  {
    var i :| 0 <= i < |list| && LeadsAt(list, i, x, k);
    assert list[1..][..i - 1] == list[..i][1..];
    assert LeadsAt(list[1..], i - 1, x, k);
  }

  lemma {:induction false} LeadsWithout(list: seq<Bytes>, y: Bytes, x: Bytes, k: Bytes)
    requires Leads(list, x, k) && y != x
    ensures Leads(Without(list, y), x, k)
    decreases |list|
  {
    var i :| 0 <= i < |list| && LeadsAt(list, i, x, k);
    var rest := Without(list[1..], y);
    if i == 0 {
      assert Without(list, y)[0] == x && Without(list, y)[..0] == [];
      assert LeadsAt(Without(list, y), 0, x, k);
    } else {
      assert list[..i][0] == list[0] && list[1..][..i - 1] == list[..i][1..];
      assert LeadsAt(list[1..], i - 1, x, k);
      LeadsWithout(list[1..], y, x, k);
      var j :| 0 <= j < |rest| && LeadsAt(rest, j, x, k);
      if list[0] == y {
        assert Without(list, y) == rest;
      } else {
        assert Without(list, y) == [list[0]] + rest;
        assert Without(list, y)[..j + 1] == [list[0]] + rest[..j];
        assert LeadsAt(Without(list, y), j + 1, x, k);
      }
    }
  }

  // ---------------------------------------------------------------- moves keep the order

  lemma {:induction false} SoonerTaken(q: Queues, hash: Bytes -> U64, caps: Caps, x: Bytes, k: Bytes)
    requires Neat(q) && Sooner(q, x, k) && x in Pending(PopVictim(q, hash, caps).0)
    ensures Sooner(PopVictim(q, hash, caps).0, x, k)
  {
    hide Leads;
    if q.small == [] {
      assert q.main[0] != x;
      LeadsDropped(q.main, x, k);
    }
  }

  lemma {:induction false} SoonerRemoved(q: Queues, y: Bytes, tag: QueueType, x: Bytes, k: Bytes)
    requires Sooner(q, x, k) && y != x && y != k
    ensures Sooner(RemoveTagged(q, y, tag), x, k)
  {
    hide Leads;
    if x !in q.small {
      LeadsWithout(q.main, y, x, k);
    }
  }

  lemma {:induction false} SoonerAdded(q: Queues, y: Bytes, caps: Caps, x: Bytes, k: Bytes)
    requires Neat(q) && Sooner(q, x, k) && y != x && y != k
    ensures x in Pending(AddToMain(q, y, caps)) ==> x in Pending(q) && Sooner(AddToMain(q, y, caps), x, k)
    ensures x in Pending(AddToSmall(q, y, caps)) ==> x in Pending(q) && Sooner(AddToSmall(q, y, caps), x, k)
  {
    hide Leads;
    if x !in q.small && y !in q.mainSet {
      LeadsShifted(q.main, Overflow(|q.main|, caps.main), y, x, k);
    }
  }

  lemma {:induction false} SoonerForgotten(q: Queues, h: U64, x: Bytes, k: Bytes)
    requires Sooner(q, x, k)
    ensures Sooner(RemoveFromGhost(q, h), x, k)
  {
    hide Leads;
  }

  lemma {:induction false} SoonerWritten(cfg: Config, s: Shard, y: Bytes, x: Bytes, k: Bytes)
    requires Neat(s.q) && Sooner(s.q, x, k) && y != x && y != k && x in Pending(Step(cfg, s, Write(y)).q)
    ensures Sooner(Step(cfg, s, Write(y)).q, x, k)
  {
    hide Neat, Sooner, Pending, AddToMain, AddToSmall, RemoveFromGhost, RemoveFromMain, RemoveFromSmall;
    if y in s.marks {
      SoonerRemoved(s.q, y, s.marks[y].tag, x, k);
      NeatMain(s.q, y, cfg.caps);
      NeatSmall(s.q, y, cfg.caps);
    }
    var q := if y in s.marks then RemoveTagged(s.q, y, s.marks[y].tag) else s.q;
    NeatGhost(q, cfg.hash(y));
    SoonerForgotten(q, cfg.hash(y), x, k);
    SoonerAdded(RemoveFromGhost(q, cfg.hash(y)), y, cfg.caps, x, k);
    SoonerAdded(q, y, cfg.caps, x, k);
  }

  lemma {:induction false} SoonerRead(cfg: Config, s: Shard, y: Bytes, x: Bytes, k: Bytes)
    requires Neat(s.q) && Sooner(s.q, x, k) && y != x && y != k && x in Pending(Step(cfg, s, Read(y)).q)
    ensures Sooner(Step(cfg, s, Read(y)).q, x, k)
  {
    hide Neat, Sooner, Pending, AddToMain, RemoveFromMain, RemoveFromSmall;
    SoonerRemoved(s.q, y, Small, x, k);
    SoonerRemoved(s.q, y, Main, x, k);
    NeatMain(s.q, y, cfg.caps);
    NeatSmall(s.q, y, cfg.caps);
    SoonerAdded(RemoveFromSmall(s.q, y), y, cfg.caps, x, k);
    SoonerAdded(RemoveFromMain(s.q, y), y, cfg.caps, x, k);
  }

  lemma {:induction false} SoonerStep(cfg: Config, s: Shard, m: Move, x: Bytes, k: Bytes)
    requires Neat(s.q) && Sooner(s.q, x, k) && !About(m, x) && !About(m, k) && x in Pending(Step(cfg, s, m).q)
    ensures Sooner(Step(cfg, s, m).q, x, k)
  {
    hide Neat, Sooner, Pending, RemoveTagged, PopVictim, Place, Touch;
    match m
    case Evict => SoonerTaken(s.q, cfg.hash, cfg.caps, x, k);
    case Lapse(_) =>
    case Remove(y) =>
      if y in s.marks { SoonerRemoved(s.q, y, s.marks[y].tag, x, k); }
    case Read(y) => SoonerRead(cfg, s, y, x, k);
    case Write(y) => SoonerWritten(cfg, s, y, x, k);
  }

  /** No move speaks of this key. */
  ghost predicate Unnamed(moves: seq<Move>, k: Bytes) {
    forall i :: 0 <= i < |moves| ==> !About(moves[i], k)
  }

  lemma {:induction false} NotQueuedAgain(cfg: Config, s: Shard, m: Move, x: Bytes)
    requires !About(m, x) && x !in Pending(s.q)
    ensures x !in Pending(Step(cfg, s, m).q)
  {
    hide Pending, AddToMain, AddToSmall, RemoveTagged, RemoveFromGhost, RemoveFromMain, RemoveFromSmall, PopVictim;
    match m
    case Evict => NoneTakenIn(s.q, cfg.hash, cfg.caps, x);
    case Lapse(_) =>
    case Remove(y) => NoneLetIn(s.q, y, cfg.caps, cfg.hash(y), x);
    case Read(y) =>
      NoneLetIn(s.q, y, cfg.caps, cfg.hash(y), x);
      NoneLetIn(RemoveFromSmall(s.q, y), y, cfg.caps, cfg.hash(y), x);
      NoneLetIn(RemoveFromMain(s.q, y), y, cfg.caps, cfg.hash(y), x);
    case Write(y) =>
      NoneLetIn(s.q, y, cfg.caps, cfg.hash(y), x);
      var q := if y in s.marks then RemoveTagged(s.q, y, s.marks[y].tag) else s.q;
      NoneLetIn(q, y, cfg.caps, cfg.hash(y), x);
      NoneLetIn(RemoveFromGhost(q, cfg.hash(y)), y, cfg.caps, cfg.hash(y), x);
  }

  lemma {:induction false} NoneLetIn(q: Queues, y: Bytes, caps: Caps, h: U64, x: Bytes)
    requires x !in Pending(q) && x != y
    ensures x !in Pending(AddToMain(q, y, caps)) && x !in Pending(AddToSmall(q, y, caps))
    ensures x !in Pending(RemoveFromMain(q, y)) && x !in Pending(RemoveFromSmall(q, y)) && x !in Pending(RemoveFromGhost(q, h))
    ensures forall tag :: x !in Pending(RemoveTagged(q, y, tag))
  {
  }

  lemma {:induction false} NoneTakenIn(q: Queues, hash: Bytes -> U64, caps: Caps, x: Bytes)
    requires x !in Pending(q)
    ensures x !in Pending(PopVictim(q, hash, caps).0)
  {
  }

  lemma {:induction false} StaysOut(cfg: Config, s: Shard, moves: seq<Move>, x: Bytes)
    requires Unnamed(moves, x) && x !in Pending(s.q)
    ensures x !in Pending(Steps(cfg, s, moves).q)
    decreases |moves|
  {
    hide Step, Pending;
    if moves != [] {
      NotQueuedAgain(cfg, s, moves[0], x);
      StaysOut(cfg, Step(cfg, s, moves[0]), moves[1..], x);
    }
  }

  /** Through any run that speaks of neither, a key that is due sooner stays so until it has gone. */
  lemma {:induction false} SoonerStays(cfg: Config, s: Shard, moves: seq<Move>, x: Bytes, k: Bytes)
    requires Neat(s.q) && Sooner(s.q, x, k) && Unnamed(moves, x) && Unnamed(moves, k)
    ensures x in Pending(Steps(cfg, s, moves).q) ==> Sooner(Steps(cfg, s, moves).q, x, k)
    decreases |moves|
  {
    hide Step, Pending, Neat, Sooner;
    if moves != [] {
      var next := Step(cfg, s, moves[0]);
      if x in Pending(next.q) {
        StepNeat(cfg, s, moves[0]);
        SoonerStep(cfg, s, moves[0], x, k);
        SoonerStays(cfg, next, moves[1..], x, k);
      } else {
        StaysOut(cfg, next, moves[1..], x);
      }
    }
  }

  // ---------------------------------------------------------------- writing and removing

  /** A key removed by name leaves the queue that its mark names. */
  lemma {:induction false} RemovedLeaves(cfg: Config, s: Shard, k: Bytes)
    requires Neat(s.q) && k in s.marks
    ensures var s' := Step(cfg, s, Remove(k));
            && k !in s'.marks
            && (s.marks[k].tag == Small ==> k !in s'.q.small && s'.q.main == s.q.main)
            && (s.marks[k].tag == Main ==> k !in s'.q.main && s'.q.small == s.q.small)
  {
    WithoutDistinct(s.q.small, k);
    WithoutDistinct(s.q.main, k);
  }

  /** A written key is unread, and the youngest of its queue unless it waits there without a mark. */
  lemma {:induction false} WrittenIsYoungest(cfg: Config, s: Shard, k: Bytes)
    requires Neat(s.q) && (k in s.marks || k !in Pending(s.q))
    requires k in s.marks ==> if s.marks[k].tag == Small then k !in s.q.main else k !in s.q.small
    ensures var s' := Step(cfg, s, Write(k));
            var list := if cfg.hash(k) in s.q.ghostSet then s'.q.main else s'.q.small;
            && s'.marks == s.marks[k := Mark(if cfg.hash(k) in s.q.ghostSet then Main else Small, 0)]
            && list != [] && list[|list| - 1] == k
            && k !in (if cfg.hash(k) in s.q.ghostSet then s'.q.small else s'.q.main)
  {
    WithoutDistinct(s.q.small, k);
    WithoutDistinct(s.q.main, k);
  }

  // ---------------------------------------------------------------- what a read is worth

  /** Reading a Main key makes it the youngest there, and so does the read that brings a key to Main. */
  lemma {:induction false} ReadIsYoungest(cfg: Config, s: Shard, k: Bytes)
    requires Neat(s.q) && k in s.marks && MarkAfter(s.marks[k], 1).tag == Main
    requires s.marks[k].tag == Small ==> k !in s.q.mainSet
    ensures var q := Step(cfg, s, Read(k)).q;
            && q.main != [] && q.main[|q.main| - 1] == k && (s.marks[k].tag == Small ==> k !in q.small)
            && q.small == (if s.marks[k].tag == Small then Without(s.q.small, k) else s.q.small)
            && (forall x :: x in q.main && x != k ==> x in s.q.main)
  {
    WithoutDistinct(s.q.small, k);
    WithoutDistinct(s.q.main, k);
    if k !in s.q.smallSet {
      NothingToRemove(s.q.small, k);
    }
  }

  lemma {:induction false} NothingToRemove(q: seq<Bytes>, k: Bytes)
    requires k !in q
    ensures Without(q, k) == q
  {
    if q != [] {
      NothingToRemove(q[1..], k);
    }
  }

  lemma {:induction false} LastIsLed(list: seq<Bytes>, x: Bytes, k: Bytes)
    requires Distinct(list) && list != [] && list[|list| - 1] == k && x in list && x != k
    ensures Leads(list, x, k)
  {
    var i :| 0 <= i < |list| && list[i] == x;
    assert LeadsAt(list, i, x, k);
  }

  /**
   * A key brought to Main by its second read, or read again there, is not evicted before any other
   * key of its shard that waited in Small or Main at the time and has not been named since. So it
   * goes only after Small is empty and every Main key read less recently has gone.
   */
  lemma {:induction false} ReadOutlives(cfg: Config, s: Shard, k: Bytes, moves: seq<Move>, x: Bytes)
    requires Neat(s.q) && k in s.marks && MarkAfter(s.marks[k], 1).tag == Main
    requires if s.marks[k].tag == Small then k !in s.q.mainSet else k !in s.q.smallSet
    requires x != k && x in Pending(s.q) && !(x in s.q.small && x in s.q.main)
    requires Unnamed(moves, x) && Unnamed(moves, k)
    ensures var s' := Steps(cfg, Step(cfg, s, Read(k)), moves);
            x in Pending(s'.q) ==> PopVictim(s'.q, cfg.hash, cfg.caps).1 != Some(k)
  {
    hide Step, PopVictim, Without, Leads;
    var s1 := Step(cfg, s, Read(k));
    ReadIsYoungest(cfg, s, k);
    StepNeat(cfg, s, Read(k));
    var s' := Steps(cfg, s1, moves);
    if x in Pending(s1.q) {
      if x in s1.q.main {
        LastIsLed(s1.q.main, x, k);
      }
      SoonerStays(cfg, s1, moves, x, k);
      if x in Pending(s'.q) {
        SoonerNotTaken(s'.q, x, k, cfg.hash, cfg.caps);
      }
    } else {
      StaysOut(cfg, s1, moves, x);
    }
  }

  // ---------------------------------------------------------------- from the outside

  /** GET of a live key is a read of it, in its shard only; so are HGET and HGETALL. */
  lemma {:induction false} GetIsRead(cfg: Config, db: Db, cmd: Command, now: nat, picks: seq<Pick>)
    requires UsesQueues(cfg) && |db.queues| == cfg.numShards && |cmd| >= 2 && IsLive(db.entries, cmd[1], now)
    requires Spells(cmd[0], "GET") || (Spells(cmd[0], "HGET") && |cmd| >= 3) || Spells(cmd[0], "HGETALL")
    ensures MovesOne(cfg, db, Execute(cfg, db, cmd, now, picks).0, ShardOf(cfg, cmd[1]), Read(cmd[1]))
  {
    hide MovesOne, Access, OpOf, Spells;
    AccessIsRead(cfg, db, cmd[1]);
    if Spells(cmd[0], "GET") {
      GetWord(cmd[0]);
    } else if Spells(cmd[0], "HGET") && |cmd| >= 3 {
      HgetWord(cmd[0]);
    } else {
      HgetallWord(cmd[0]);
    }
  }

  const GET: Bytes := [71, 69, 84]

  lemma {:induction false} PlainSetIsWrite(cfg: Config, db: Db, k: Bytes)
    requires UsesQueues(cfg) && |db.queues| == cfg.numShards && (cfg.maxMemory == 0 || db.used + |k| + 64 <= cfg.maxMemory)
    ensures var (d, r) := Execute(cfg, db, [SET, k, []], 0, []);
            && r == Okay && d == SetAndCharge(cfg, db, k, [], None, 0)
            && MovesOne(cfg, db, d, ShardOf(cfg, k), Write(k))
  {
    hide Execute, MovesOne, SetAndCharge;
    ExecuteSet(cfg, db, k, [], 0, []);
    assert ParseOptions([SET, k, []], 3, NO_OPTIONS) == Ok(NO_OPTIONS);
    PlainSet(cfg, db, [SET, k, []], 0, None);
    SetIsWrite(cfg, db, k, [], None, 0);
  }

  /** Two keys of one shard, written one after the other to a fresh server. */
  ghost function TwoWritten(cfg: Config, a: Bytes, b: Bytes): Db {
    Execute(cfg, Execute(cfg, Fresh(cfg), [SET, a, []], 0, []).0, [SET, b, []], 0, []).0
  }

  ghost function ReadTwice(cfg: Config, db: Db, a: Bytes): Db {
    Execute(cfg, Execute(cfg, db, [GET, a], 0, []).0, [GET, a], 0, []).0
  }

  lemma {:induction false} TwoInSmall(cfg: Config, a: Bytes, b: Bytes)
    requires cfg.caps.small >= 2 && a != b
    ensures var s := Step(cfg, Step(cfg, Shard(EMPTY, map[]), Write(a)), Write(b));
            s.q == EMPTY.(small := [a, b], smallSet := {a, b}) && s.marks == map[a := Mark(Small, 0), b := Mark(Small, 0)]
  {
    var s1 := Step(cfg, Shard(EMPTY, map[]), Write(a));
    assert s1.q.small == [a] && s1.q.smallSet == {a};
    var s2 := Step(cfg, s1, Write(b));
    assert s2.q.small == [a, b] && s2.q.smallSet == {a, b};
  }

  lemma {:induction false} OneInMain(cfg: Config, a: Bytes, b: Bytes)
    requires cfg.caps.main >= 1 && a != b
    ensures var s := Shard(EMPTY.(small := [a, b], smallSet := {a, b}), map[a := Mark(Small, 0), b := Mark(Small, 0)]);
            var s' := Step(cfg, Step(cfg, s, Read(a)), Read(a));
            Pending(s'.q) == [b, a]
  {
    var s := Shard(EMPTY.(small := [a, b], smallSet := {a, b}), map[a := Mark(Small, 0), b := Mark(Small, 0)]);
    var s1 := Step(cfg, s, Read(a));
    assert s1.q == s.q && s1.marks[a] == Mark(Small, 1);
    assert [a, b][1..] == [b] && [b][1..] == [];
    assert Without([b], a) == [b];
    assert Without([a, b], a) == [b];
    var s2 := Step(cfg, s1, Read(a));
    assert s2.q.small == [b] && s2.q.main == [a];
  }

  lemma {:induction false} FreshShard(cfg: Config, i: nat)
    requires i < cfg.numShards
    ensures ShardAt(cfg, Fresh(cfg), i) == Shard(EMPTY, map[])
  {
  }

  lemma {:induction false} OnlyFirst(cfg: Config, db: Db, i: nat, a: Bytes, b: Bytes)
    requires UsesQueues(cfg) && |db.queues| == cfg.numShards && i < cfg.numShards
    requires Pending(QueueAt(db, i)) == [a, b] && a in db.entries && ShardOf(cfg, a) == i
    ensures VictimsOf(cfg, db, [Pick(None, [i])]) == [a]
  {
    hide Pending, ShardOf;
    var picks := [Pick(None, [i])];
    assert i % cfg.numShards == i && picks[1..] == [];
    var w := WaitingIn(cfg, db);
    assert Draw(cfg, db.entries.Keys, w, picks[0]) == (Some(a), w[i := w[i][1..]]);
    assert Victims(cfg, db.entries.Keys - {a}, w[i := w[i][1..]], []) == [];
  }

  /**
   * The second GET decides who goes: of two keys of one shard the older one is evicted first, and
   * after two reads of it the other one is.
   */
  lemma {:induction false} SecondReadSaves(cfg: Config, a: Bytes, b: Bytes)
    requires UsesQueues(cfg) && a != b && ShardOf(cfg, a) == ShardOf(cfg, b) && cfg.caps.small >= 2 && cfg.caps.main >= 1
    requires cfg.maxMemory == 0 || |a| + |b| + 128 <= cfg.maxMemory
    ensures VictimsOf(cfg, TwoWritten(cfg, a, b), [Pick(None, [ShardOf(cfg, a)])]) == [a]
    ensures VictimsOf(cfg, ReadTwice(cfg, TwoWritten(cfg, a, b), a), [Pick(None, [ShardOf(cfg, a)])]) == [b]
  {
    hide Execute, SetAndCharge, Step, ShardOf, VictimsOf, MarksIn;
    var i := ShardOf(cfg, a);
    ShardInRange(cfg, a);
    FreshShard(cfg, i);
    PlainSetIsWrite(cfg, Fresh(cfg), a);
    var d1 := Execute(cfg, Fresh(cfg), [SET, a, []], 0, []).0;
    FirstWrite(cfg, a);
    PlainSetIsWrite(cfg, d1, b);
    SecondWrite(cfg, d1, b);
    TwoInSmall(cfg, a, b);
    var d2 := TwoWritten(cfg, a, b);
    assert Pending(QueueAt(d2, i)) == [a, b];
    OnlyFirst(cfg, d2, i, a, b);
    assert Spells(GET, "GET");
    GetIsRead(cfg, d2, [GET, a], 0, []);
    var d3 := Execute(cfg, d2, [GET, a], 0, []).0;
    StillThere(cfg, d2, a, a);
    StillThere(cfg, d2, a, b);
    GetIsRead(cfg, d3, [GET, a], 0, []);
    StillThere(cfg, d3, a, b);
    OneInMain(cfg, a, b);
    OnlyFirst(cfg, ReadTwice(cfg, d2, a), i, b, a);
  }

  lemma {:induction false} FirstWrite(cfg: Config, k: Bytes)
    ensures var d := SetAndCharge(cfg, Fresh(cfg), k, [], None, 0);
            && d.used <= |k| + 64 && d.entries.Keys == {k} && d.entries[k].expiry == None && |d.queues| == cfg.numShards
  {
    hide Track, Untrack;
    assert Fresh(cfg).entries.Keys == {};
    TrackedQueues(cfg, Fresh(cfg), k);
  }

  lemma {:induction false} TrackedQueues(cfg: Config, db: Db, k: Bytes)
    ensures |Track(cfg, Untrack(cfg, db, k), k).0.queues| == |db.queues|
  {
    hide Place, RemoveTagged;
  }

  lemma {:induction false} SecondWrite(cfg: Config, db: Db, k: Bytes)
    ensures var d := SetAndCharge(cfg, db, k, [], None, 0);
            && d.entries.Keys == db.entries.Keys + {k} && d.entries[k].expiry == None && |d.queues| == |db.queues|
            && forall x :: x in db.entries && x != k ==> d.entries[x] == db.entries[x]
  {
    hide Track, Untrack, EntrySize;
    TrackedQueues(cfg, db, k);
  }

  lemma {:induction false} StillThere(cfg: Config, db: Db, k: Bytes, x: Bytes)
    requires IsLive(db.entries, k, 0) && x in db.entries
    ensures var d := Execute(cfg, db, [GET, k], 0, []).0;
            x in d.entries && d.entries[x].expiry == db.entries[x].expiry
  {
    hide OpOf, Touch;
    assert Spells(GET, "GET");
    GetWord(GET);
    var d := Execute(cfg, db, [GET, k], 0, []).0;
    assert d == Access(cfg, db, k);
  }
}
