/**
 * What the ghost queue of S3-FIFO is for: a key that was evicted too early comes back into Main.
 * How long it is remembered is settled here for every run of one shard's queues.
 */
module Readmission {
  import opened Basics
  import opened S3Fifo
  import opened Store
  import opened Reference
  import opened QueueInvariant

  /** What can happen to a shard's queues: an eviction, a write, a removal or an access. */
  datatype Move =
    | Evict
    | Write(key: Bytes)
    | Drop(key: Bytes, tag: QueueType)
    | Access(key: Bytes, tag: QueueType, hits: nat)

  function Apply(cfg: Config, q: Queues, m: Move): Queues {
    match m
    case Evict => PopVictim(q, cfg.hash, cfg.caps).0
    case Write(k) => Place(q, k, cfg.hash(k), cfg.caps).0
    case Drop(k, tag) => RemoveTagged(q, k, tag)
    case Access(k, tag, hits) => Touch(q, k, tag, hits, cfg.caps).0
  }

  function Runs(cfg: Config, q: Queues, moves: seq<Move>): Queues
    decreases |moves|
  {
    if moves == [] then q else Runs(cfg, Apply(cfg, q, moves[0]), moves[1..])
  }

  /** The hashes evicted later than some ghost and not written again: an eviction adds one, a write takes one away. */
  function Younger(cfg: Config, q: Queues, young: set<U64>, m: Move): set<U64> {
    match m
    case Evict => if q.small != [] then young + {cfg.hash(q.small[0])} else young
    case Write(k) => young - {cfg.hash(k)}
    case Drop(_, _) => young
    case Access(_, _, _) => young
  }

  function YoungerAfter(cfg: Config, q: Queues, young: set<U64>, moves: seq<Move>): set<U64>
    decreases |moves|
  {
    if moves == [] then young
    else YoungerAfter(cfg, Apply(cfg, q, moves[0]), Younger(cfg, q, young, moves[0]), moves[1..])
  }

  // ---------------------------------------------------------------- where a ghost stands

  /** The ghost `h` is remembered, and exactly the ghosts `young` stand behind it. */
  ghost predicate Stands(q: Queues, h: U64, young: set<U64>) {
    exists i :: 0 <= i < |q.ghosts| && StandsAt(q.ghosts, i, h, young)
  }

  predicate StandsAt(ghosts: seq<U64>, i: nat, h: U64, young: set<U64>)
    requires i < |ghosts|
  {
    ghosts[i] == h && Elements(ghosts[i + 1..]) == young
  }

  lemma {:induction false} TailDistinct(q: seq<U64>, i: nat)
    requires Distinct(q) && i <= |q|
    ensures Distinct(q[i..]) && |Elements(q[i..])| == |q| - i
  {
    CountDistinct(q[i..]);
  }

  /** A ghost has fewer than the capacity behind it, and is in the set. */
  lemma {:induction false} RoomBehind(cfg: Config, q: Queues, h: U64, young: set<U64>)
    requires Tidy(q, cfg.caps) && Stands(q, h, young)
    ensures |young| < cfg.caps.ghosts && h in q.ghostSet && young <= q.ghostSet
  {
    var i :| 0 <= i < |q.ghosts| && StandsAt(q.ghosts, i, h, young);
    TailDistinct(q.ghosts, i + 1);
    assert q.ghosts[i] in Elements(q.ghosts);
    forall x | x in young ensures x in q.ghostSet {
      assert x in q.ghosts[i + 1..];
      assert x in Elements(q.ghosts);
    }
  }

  /** Without on either side of a ghost it does not remove. */
  lemma {:induction false} WithoutAround(ghosts: seq<U64>, i: nat, h: U64, young: set<U64>, x: U64) returns (j: nat)
    requires i < |ghosts| && StandsAt(ghosts, i, h, young) && x != h && Distinct(ghosts)
    ensures j < |Without(ghosts, x)| && StandsAt(Without(ghosts, x), j, h, young - {x})
    decreases i
  {
    if i == 0 {
      j := 0;
      assert ghosts[0 + 1..] == ghosts[1..];
      WithoutDistinct(ghosts[1..], x);
      assert Without(ghosts, x)[1..] == Without(ghosts[1..], x);
    } else {
      assert ghosts[1..][i - 1 + 1..] == ghosts[i + 1..];
      var k := WithoutAround(ghosts[1..], i - 1, h, young, x);
      if ghosts[0] == x {
        j := k;
      } else {
        j := k + 1;
        assert Without(ghosts, x) == [ghosts[0]] + Without(ghosts[1..], x);
        assert Without(ghosts, x)[j + 1..] == Without(ghosts[1..], x)[k + 1..];
      }
    }
  }

  // ---------------------------------------------------------------- one move

  lemma {:induction false} TouchKeepsOk(cfg: Config, q: Queues, k: Bytes, tag: QueueType, hits: nat, keys: iset<Bytes>)
    requires QueueOk(cfg, q, keys) && RealCaps(cfg.caps)
    ensures var q' := Touch(q, k, tag, hits, cfg.caps).0;
            QueueOk(cfg, q', keys) && q'.smallSet <= q.smallSet && q'.ghosts == q.ghosts && q'.ghostSet == q.ghostSet
  {
    RemoveOk(cfg, q, k, tag, keys);
    AddToMainOk(cfg, RemoveTagged(q, k, tag), k, keys);
  }

  /** A move keeps the invariant, brings in no Small key but the one written, and no ghost but the one evicted. */
  lemma {:induction false} MoveOk(cfg: Config, q: Queues, m: Move, keys: iset<Bytes>)
    requires QueueOk(cfg, q, keys) && RealCaps(cfg.caps) && CollisionFree(cfg.hash, keys) && (m.Write? ==> m.key in keys)
    ensures var q' := Apply(cfg, q, m);
            && QueueOk(cfg, q', keys)
            && (forall k :: k in q'.smallSet ==> k in q.smallSet || m == Write(k))
            && (forall h :: h in q'.ghostSet ==> h in q.ghostSet || (m == Evict && q.small != [] && h == cfg.hash(q.small[0])))
  {
    match m {
      case Evict => PopVictimOk(cfg, q, keys);
      case Write(k) => PlaceOk(cfg, q, k, keys);
      case Drop(k, tag) => RemoveOk(cfg, q, k, tag, keys);
      case Access(k, tag, hits) => TouchKeepsOk(cfg, q, k, tag, hits, keys);
    }
  }

  /** A new ghost pushes out the one at the front of a full queue, and no other. */
  lemma {:induction false} PushBehind(cfg: Config, q: Queues, h: U64, young: set<U64>, x: U64)
    requires Tidy(q, cfg.caps) && cfg.caps.ghosts > 0 && Stands(q, h, young) && x !in q.ghostSet
    ensures |young + {x}| == |young| + 1
    ensures var q' := AddToGhost(q, x, cfg.caps);
            if |young| + 1 < cfg.caps.ghosts then Stands(q', h, young + {x}) else h !in q'.ghostSet
  {
    hide Tidy, StandsAt, Distinct, AddToGhost;
    RoomBehind(cfg, q, h, young);
    GhostsOfPush(q, x, cfg.caps);
    DistinctGhosts(q, cfg.caps);
    var i :| 0 <= i < |q.ghosts| && StandsAt(q.ghosts, i, h, young);
    StandingCount(q.ghosts, i, h, young);
    var q' := AddToGhost(q, x, cfg.caps);
    if |q.ghosts| < cfg.caps.ghosts {
      ShiftStands(q.ghosts, i, h, young, x, 0);
      assert q.ghosts[0..] == q.ghosts;
      assert StandsAt(q'.ghosts, i, h, young + {x});
    } else if i > 0 {
      ShiftStands(q.ghosts, i, h, young, x, 1);
      assert StandsAt(q'.ghosts, i - 1, h, young + {x});
    }
  }

  lemma {:induction false} GhostsOfPush(q: Queues, x: U64, caps: Caps)
    requires Tidy(q, caps) && caps.ghosts > 0 && x !in q.ghostSet
    ensures |q.ghosts| <= caps.ghosts
    ensures var q' := AddToGhost(q, x, caps);
            if |q.ghosts| < caps.ghosts then q'.ghosts == q.ghosts + [x]
            else q'.ghosts == q.ghosts[1..] + [x] && (q.ghosts[0] != x ==> q.ghosts[0] !in q'.ghostSet)
  {
  }

  lemma {:induction false} StandingCount(ghosts: seq<U64>, i: nat, h: U64, young: set<U64>)
    requires Distinct(ghosts) && i < |ghosts| && StandsAt(ghosts, i, h, young)
    ensures ghosts[i] == h && |young| == |ghosts| - i - 1
  {
    TailDistinct(ghosts, i + 1);
  }

  /** Dropping `n` from the front and adding one behind moves a ghost up by `n`. */
  lemma {:induction false} ShiftStands(ghosts: seq<U64>, i: nat, h: U64, young: set<U64>, x: U64, n: nat)
    requires n <= i < |ghosts| && StandsAt(ghosts, i, h, young)
    ensures StandsAt(ghosts[n..] + [x], i - n, h, young + {x})
  {
    assert (ghosts[n..] + [x])[i - n + 1..] == ghosts[i + 1..] + [x];
  }

  lemma {:induction false} EvictStands(cfg: Config, q: Queues, h: U64, young: set<U64>, keys: iset<Bytes>)
    requires QueueOk(cfg, q, keys) && RealCaps(cfg.caps) && Stands(q, h, young) && q.small != []
    ensures var q', young' := Apply(cfg, q, Evict), Younger(cfg, q, young, Evict);
            if |young'| < cfg.caps.ghosts then Stands(q', h, young') else h !in q'.ghostSet
  {
    var k := q.small[0];
    assert k in Elements(q.small);
    var q1 := q.(small := q.small[1..], smallSet := q.smallSet - {k});
    assert Elements(q.small[1..]) == Elements(q.small) - {k};
    assert Tidy(q1, cfg.caps);
    SameGhosts(q, q1, h, young);
    hide Tidy, Stands, AddToGhost;
    PushBehind(cfg, q1, h, young, cfg.hash(k));
  }

  lemma {:induction false} WriteStands(cfg: Config, q: Queues, h: U64, young: set<U64>, k: Bytes)
    requires Tidy(q, cfg.caps) && Stands(q, h, young) && cfg.hash(k) != h
    ensures Stands(Apply(cfg, q, Write(k)), h, young - {cfg.hash(k)})
  {
    hide Tidy, StandsAt, Distinct, Place;
    var x, q' := cfg.hash(k), Apply(cfg, q, Write(k));
    RoomBehind(cfg, q, h, young);
    GhostsOfPlace(q, k, x, cfg.caps);
    var i :| 0 <= i < |q.ghosts| && StandsAt(q.ghosts, i, h, young);
    if x in q.ghostSet {
      DistinctGhosts(q, cfg.caps);
      var j := WithoutAround(q.ghosts, i, h, young, x);
      assert StandsAt(q'.ghosts, j, h, young - {x});
    } else {
      assert young - {x} == young;
      assert StandsAt(q'.ghosts, i, h, young);
    }
  }

  lemma {:induction false} GhostsOfPlace(q: Queues, k: Bytes, x: U64, caps: Caps)
    ensures Place(q, k, x, caps).0.ghosts == if x in q.ghostSet then Without(q.ghosts, x) else q.ghosts
  {
    hide Without;
  }

  lemma {:induction false} DistinctGhosts(q: Queues, caps: Caps)
    requires Tidy(q, caps)
    ensures Distinct(q.ghosts)
  {
  }

  lemma {:induction false} SameGhosts(q: Queues, q': Queues, h: U64, young: set<U64>)
    requires Stands(q, h, young) && q'.ghosts == q.ghosts
    ensures Stands(q', h, young)
  {
  }

  /** After one move the ghost stands where it should, or has just been pushed out. */
  lemma {:induction false} MoveStands(cfg: Config, q: Queues, h: U64, young: set<U64>, m: Move, keys: iset<Bytes>)
    requires QueueOk(cfg, q, keys) && RealCaps(cfg.caps) && Stands(q, h, young)
    requires m.Write? ==> cfg.hash(m.key) != h
    ensures var q', young' := Apply(cfg, q, m), Younger(cfg, q, young, m);
            if |young'| < cfg.caps.ghosts then Stands(q', h, young') else h !in q'.ghostSet
  {
    RoomBehind(cfg, q, h, young);
    var q' := Apply(cfg, q, m);
    hide Tidy, Stands;
    if m.Evict? && q.small != [] {
      EvictStands(cfg, q, h, young, keys);
    } else if m.Write? {
      WriteStands(cfg, q, h, young, m.key);
      SubsetCardinality(young - {cfg.hash(m.key)}, young);
    } else {
      if m.Access? {
        TouchKeepsOk(cfg, q, m.key, m.tag, m.hits, keys);
      }
      SameGhosts(q, q', h, young);
    }
  }

  // ---------------------------------------------------------------- runs

  /** No move of the run writes a key with this hash, and all written keys are among `keys`. */
  ghost predicate Spares(cfg: Config, moves: seq<Move>, h: U64, keys: iset<Bytes>) {
    forall i :: 0 <= i < |moves| && moves[i].Write? ==> moves[i].key in keys && cfg.hash(moves[i].key) != h
  }

  /** A hash that is neither a ghost nor that of a Small key stays forgotten. */
  lemma {:induction false} StaysForgotten(cfg: Config, q: Queues, h: U64, moves: seq<Move>, keys: iset<Bytes>)
    requires QueueOk(cfg, q, keys) && RealCaps(cfg.caps) && CollisionFree(cfg.hash, keys) && Spares(cfg, moves, h, keys)
    requires h !in q.ghostSet && forall k :: k in q.smallSet ==> cfg.hash(k) != h
    ensures h !in Runs(cfg, q, moves).ghostSet
    decreases |moves|
  {
    if moves != [] {
      MoveOk(cfg, q, moves[0], keys);
      assert q.small != [] ==> q.small[0] in Elements(q.small);
      hide Apply, QueueOk;
      StaysForgotten(cfg, Apply(cfg, q, moves[0]), h, moves[1..], keys);
    }
  }

  /** At no point of the run does the number of younger ghosts reach the capacity. */
  ghost predicate NeverCrowded(cfg: Config, q: Queues, young: set<U64>, moves: seq<Move>) {
    forall n :: 0 <= n <= |moves| ==> |YoungerAfter(cfg, q, young, moves[..n])| < cfg.caps.ghosts
  }

  lemma {:induction false} CrowdedStep(cfg: Config, q: Queues, young: set<U64>, moves: seq<Move>)
    requires moves != []
    ensures NeverCrowded(cfg, q, young, moves)
            <==> |young| < cfg.caps.ghosts
                 && NeverCrowded(cfg, Apply(cfg, q, moves[0]), Younger(cfg, q, young, moves[0]), moves[1..])
  {
    hide Apply, Younger;
    var q', young' := Apply(cfg, q, moves[0]), Younger(cfg, q, young, moves[0]);
    forall n | 1 <= n <= |moves|
      ensures YoungerAfter(cfg, q, young, moves[..n]) == YoungerAfter(cfg, q', young', moves[1..][..n - 1])
    {
      assert moves[..n][0] == moves[0] && moves[..n][1..] == moves[1..][..n - 1];
    }
    assert YoungerAfter(cfg, q, young, moves[..0]) == young;
    if NeverCrowded(cfg, q, young, moves) {
      forall n | 0 <= n <= |moves[1..]| ensures |YoungerAfter(cfg, q', young', moves[1..][..n])| < cfg.caps.ghosts {
        assert moves[1..][..(n + 1) - 1] == moves[1..][..n];
        assert YoungerAfter(cfg, q, young, moves[..n + 1]) == YoungerAfter(cfg, q', young', moves[1..][..n]);
      }
    }
  }

  lemma {:induction false} CrowdedNow(cfg: Config, q: Queues, young: set<U64>, moves: seq<Move>)
    requires |young| >= cfg.caps.ghosts
    ensures !NeverCrowded(cfg, q, young, moves)
  {
    assert moves[..0] == [];
    assert YoungerAfter(cfg, q, young, moves[..0]) == young;
  }

  lemma {:induction false} SparesTail(cfg: Config, moves: seq<Move>, h: U64, keys: iset<Bytes>)
    requires Spares(cfg, moves, h, keys) && moves != []
    ensures Spares(cfg, moves[1..], h, keys)
    ensures moves[0].Write? ==> moves[0].key in keys && cfg.hash(moves[0].key) != h
  {
  }

  /** A ghost is remembered after a run if and only if the ghosts younger than it never fill the queue. */
  lemma {:induction false} GhostLasts(cfg: Config, q: Queues, h: U64, young: set<U64>, moves: seq<Move>, keys: iset<Bytes>)
    requires QueueOk(cfg, q, keys) && RealCaps(cfg.caps) && CollisionFree(cfg.hash, keys)
    requires Stands(q, h, young) && Spares(cfg, moves, h, keys)
    ensures h in Runs(cfg, q, moves).ghostSet <==> NeverCrowded(cfg, q, young, moves)
    decreases |moves|
  {
    RoomBehind(cfg, q, h, young);
    if moves == [] {
      assert forall n :: 0 <= n <= |moves| ==> moves[..n] == [];
    } else {
      var q', young' := Apply(cfg, q, moves[0]), Younger(cfg, q, young, moves[0]);
      MoveOk(cfg, q, moves[0], keys);
      MoveStands(cfg, q, h, young, moves[0], keys);
      CrowdedStep(cfg, q, young, moves);
      NoSmallTwin(cfg, q, h, moves[0], keys);
      SparesTail(cfg, moves, h, keys);
      hide Apply, Younger, QueueOk, Stands, CollisionFree, Spares, NeverCrowded, RealCaps;
      if |young'| < cfg.caps.ghosts {
        GhostLasts(cfg, q', h, young', moves[1..], keys);
      } else {
        CrowdedNow(cfg, q', young', moves[1..]);
        StaysForgotten(cfg, q', h, moves[1..], keys);
      }
    }
  }

  lemma {:induction false} NoSmallTwin(cfg: Config, q: Queues, h: U64, m: Move, keys: iset<Bytes>)
    requires QueueOk(cfg, q, keys) && RealCaps(cfg.caps) && CollisionFree(cfg.hash, keys)
    requires h in q.ghostSet && (m.Write? ==> m.key in keys && cfg.hash(m.key) != h)
    ensures forall k :: k in Apply(cfg, q, m).smallSet ==> cfg.hash(k) != h
  {
    MoveOk(cfg, q, m, keys);
  }

  /**
   * Readmission: a key evicted from Small goes to Main when it is next written if and only if, at
   * no point in between, as many keys as the ghost queue holds had been evicted after it and not
   * been written again.
   */
  lemma {:induction false} Readmitted(cfg: Config, q: Queues, moves: seq<Move>, keys: iset<Bytes>)
    requires QueueOk(cfg, q, keys) && RealCaps(cfg.caps) && CollisionFree(cfg.hash, keys) && q.small != []
    requires forall i :: 0 <= i < |moves| && moves[i].Write? ==> moves[i].key in keys && moves[i].key != q.small[0]
    ensures var k, q' := q.small[0], Apply(cfg, q, Evict);
            Place(Runs(cfg, q', moves), k, cfg.hash(k), cfg.caps).1 == Main <==> NeverCrowded(cfg, q', {}, moves)
  {
    var k, q' := q.small[0], Apply(cfg, q, Evict);
    assert k in Elements(q.small);
    PopVictimOk(cfg, q, keys);
    assert q'.ghosts[|q'.ghosts| - 1] == cfg.hash(k) && q'.ghosts[|q'.ghosts|..] == [];
    assert StandsAt(q'.ghosts, |q'.ghosts| - 1, cfg.hash(k), {});
    GhostLasts(cfg, q', cfg.hash(k), {}, moves, keys);
  }
}
