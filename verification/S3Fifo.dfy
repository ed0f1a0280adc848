/**
 * The S3-FIFO queues of src/store.rs: two key queues and a queue of key hashes, each mirrored by
 * a set for constant-time membership tests.
 */
module S3Fifo {
  import opened Basics

  datatype QueueType = Small | Main

  datatype Caps = Caps(small: nat, main: nat, ghosts: nat)

  /** The six collections. Fronts are oldest. */
  datatype Queues = Queues(
    small: seq<Bytes>, main: seq<Bytes>, ghosts: seq<U64>,
    smallSet: set<Bytes>, mainSet: set<Bytes>, ghostSet: set<U64>)

  const EMPTY: Queues := Queues([], [], [], {}, {}, {})

  function Elements<T(==)>(q: seq<T>): set<T> {
    set x | x in q
  }

  lemma {:induction false} ElementsCons<T>(q: seq<T>)
    ensures q == [] ==> Elements(q) == {}
    ensures q != [] ==> Elements(q) == {q[0]} + Elements(q[1..])
  {
  }

  ghost predicate Distinct<T>(q: seq<T>) {
    forall i, j :: 0 <= i < j < |q| ==> q[i] != q[j]
  }

  lemma {:induction false} CountDistinct<T>(ks: seq<T>)
    requires Distinct(ks)
    ensures |Elements(ks)| == |ks|
  {
    if ks != [] {
      ElementsCons(ks);
      CountDistinct(ks[1..]);
      assert ks[0] !in Elements(ks[1..]);
    }
  }

  /** `VecDeque::retain(|k| k != x)`. */
  function Without<T(==,!new)>(q: seq<T>, x: T): (r: seq<T>)
    ensures |r| <= |q|
    ensures forall y :: y in r <==> y in q && y != x
  {
    if q == [] then []
    else if q[0] == x then Without(q[1..], x)
    else [q[0]] + Without(q[1..], x)
  }

  /** How many of the oldest entries give way before one is added to a full queue. */
  function Overflow(len: nat, cap: nat): (n: nat)
    ensures n <= len
  {
    if len < cap then 0 else if cap == 0 then len else len - cap + 1
  }

  // ---------------------------------------------------------------- the operations, on values

  function RemoveFromSmall(q: Queues, k: Bytes): Queues {
    if k in q.smallSet then q.(small := Without(q.small, k), smallSet := q.smallSet - {k}) else q
  }

  function RemoveFromMain(q: Queues, k: Bytes): Queues {
    if k in q.mainSet then q.(main := Without(q.main, k), mainSet := q.mainSet - {k}) else q
  }

  function RemoveTagged(q: Queues, k: Bytes, tag: QueueType): Queues {
    match tag
    case Small => RemoveFromSmall(q, k)
    case Main => RemoveFromMain(q, k)
  }

  function AddToSmall(q: Queues, k: Bytes, caps: Caps): Queues {
    if k in q.smallSet then q
    else
      var n := Overflow(|q.small|, caps.small);
      q.(small := q.small[n..] + [k], smallSet := q.smallSet - Elements(q.small[..n]) + {k})
  }

  function AddToMain(q: Queues, k: Bytes, caps: Caps): Queues {
    if k in q.mainSet then q
    else
      var n := Overflow(|q.main|, caps.main);
      q.(main := q.main[n..] + [k], mainSet := q.mainSet - Elements(q.main[..n]) + {k})
  }

  function ReinsertMainTail(q: Queues, k: Bytes, caps: Caps): Queues {
    if q.main != [] && q.main[|q.main| - 1] == k then q
    else AddToMain(RemoveFromMain(q, k), k, caps)
  }

  /** Only the single oldest ghost gives way, and there is no membership test. */
  function AddToGhost(q: Queues, h: U64, caps: Caps): Queues {
    var r := if |q.ghosts| >= caps.ghosts && q.ghosts != []
             then q.(ghosts := q.ghosts[1..], ghostSet := q.ghostSet - {q.ghosts[0]}) else q;
    r.(ghosts := r.ghosts + [h], ghostSet := r.ghostSet + {h})
  }

  function RemoveFromGhost(q: Queues, h: U64): Queues {
    if h in q.ghostSet then q.(ghosts := Without(q.ghosts, h), ghostSet := q.ghostSet - {h}) else q
  }

  /** Where a newly written key goes: back into Main if it was evicted recently, else into Small. */
  function Place(q: Queues, k: Bytes, h: U64, caps: Caps): (Queues, QueueType) {
    if h in q.ghostSet then (AddToMain(RemoveFromGhost(q, h), k, caps), Main)
    else (AddToSmall(q, k, caps), Small)
  }

  /** An access to a stored key: the second one promotes it, later ones refresh it. */
  function Touch(q: Queues, k: Bytes, tag: QueueType, hits: nat, caps: Caps): (Queues, QueueType, nat) {
    match tag
    case Main => (ReinsertMainTail(q, k, caps), Main, hits)
    case Small =>
      if hits + 1 > 1 then (AddToMain(RemoveFromSmall(q, k), k, caps), Main, hits + 1)
      else (q, Small, hits + 1)
  }

  /** The queue half of an eviction: the oldest Small key, remembered as a ghost, else the oldest Main key. */
  function PopVictim(q: Queues, hash: Bytes -> U64, caps: Caps): (Queues, Option<Bytes>) {
    if q.small != [] then
      var k := q.small[0];
      (AddToGhost(q.(small := q.small[1..], smallSet := q.smallSet - {k}), hash(k), caps), Some(k))
    else if q.main != [] then
      var k := q.main[0];
      (q.(main := q.main[1..], mainSet := q.mainSet - {k}), Some(k))
    else (q, None)
  }

  // ---------------------------------------------------------------- queues mirror their sets

  /** Each queue is free of duplicates, agrees with its set and keeps to its capacity. */
  ghost predicate Tidy(q: Queues, caps: Caps) {
    && Distinct(q.small) && Elements(q.small) == q.smallSet && |q.small| <= caps.small
    && Distinct(q.main) && Elements(q.main) == q.mainSet && |q.main| <= caps.main
    && Distinct(q.ghosts) && Elements(q.ghosts) == q.ghostSet && |q.ghosts| <= caps.ghosts
  }

  lemma {:induction false} WithoutDistinct<T(!new)>(q: seq<T>, x: T)
    requires Distinct(q)
    ensures Distinct(Without(q, x)) && Elements(Without(q, x)) == Elements(q) - {x}
  {
    if q != [] {
      WithoutDistinct(q[1..], x);
      assert forall y :: y in Without(q[1..], x) ==> y != q[0];
      assert Elements(q) == {q[0]} + Elements(q[1..]);
    }
  }

  /** Dropping the oldest `n` and appending a new element keeps a queue and its set in step. */
  lemma {:induction false} ShiftIn<T>(q: seq<T>, n: nat, x: T)
    requires Distinct(q) && n <= |q| && x !in q
    ensures Distinct(q[n..] + [x])
    ensures Elements(q[n..] + [x]) == Elements(q) - Elements(q[..n]) + {x}
  {
    assert q == q[..n] + q[n..];
    forall y | y in q[n..] ensures y !in q[..n] {
    }
  }

  lemma {:induction false} RemoveTidy(q: Queues, k: Bytes, tag: QueueType, caps: Caps)
    requires Tidy(q, caps)
    ensures Tidy(RemoveTagged(q, k, tag), caps)
  {
    WithoutDistinct(q.small, k);
    WithoutDistinct(q.main, k);
  }

  lemma {:induction false} AddToSmallTidy(q: Queues, k: Bytes, caps: Caps)
    requires Tidy(q, caps) && caps.small > 0
    ensures Tidy(AddToSmall(q, k, caps), caps)
  {
    if k !in q.smallSet {
      ShiftIn(q.small, Overflow(|q.small|, caps.small), k);
    }
  }

  lemma {:induction false} AddToMainTidy(q: Queues, k: Bytes, caps: Caps)
    requires Tidy(q, caps) && caps.main > 0
    ensures Tidy(AddToMain(q, k, caps), caps)
  {
    if k !in q.mainSet {
      ShiftIn(q.main, Overflow(|q.main|, caps.main), k);
    }
  }

  /** Ghosts stay distinct because a key that is about to become one is not one already. */
  lemma {:induction false} AddToGhostTidy(q: Queues, h: U64, caps: Caps)
    requires Tidy(q, caps) && caps.ghosts > 0 && h !in q.ghostSet
    ensures Tidy(AddToGhost(q, h, caps), caps)
  {
    if |q.ghosts| >= caps.ghosts {
      ShiftIn(q.ghosts, 1, h);
      assert q.ghosts[..1] == [q.ghosts[0]];
    } else {
      ShiftIn(q.ghosts, 0, h);
      assert q.ghosts[0..] == q.ghosts;
    }
  }

  lemma {:induction false} RemoveFromGhostTidy(q: Queues, h: U64, caps: Caps)
    requires Tidy(q, caps)
    ensures Tidy(RemoveFromGhost(q, h), caps)
  {
    WithoutDistinct(q.ghosts, h);
  }

  // ---------------------------------------------------------------- the operations, in place

  class S3FifoQueues {
    const caps: Caps
    var smallQueue: seq<Bytes>
    var mainQueue: seq<Bytes>
    var ghostQueue: seq<U64>
    var smallSet: set<Bytes>
    var mainSet: set<Bytes>
    var ghostSet: set<U64>

    ghost function View(): Queues
      reads this
    {
      Queues(smallQueue, mainQueue, ghostQueue, smallSet, mainSet, ghostSet)
    }

    constructor (caps: Caps)
      ensures this.caps == caps && View() == EMPTY
    {
      this.caps := caps;
      smallQueue, mainQueue, ghostQueue := [], [], [];
      smallSet, mainSet, ghostSet := {}, {}, {};
    }

    method DropFromSmall(k: Bytes) returns (found: bool)
      modifies this
      ensures View() == RemoveFromSmall(old(View()), k) && found == (k in old(smallSet))
    {
      found := k in smallSet;
      if found {
        smallSet := smallSet - {k};
        smallQueue := Without(smallQueue, k);
      }
    }

    method DropFromMain(k: Bytes) returns (found: bool)
      modifies this
      ensures View() == RemoveFromMain(old(View()), k) && found == (k in old(mainSet))
    {
      found := k in mainSet;
      if found {
        mainSet := mainSet - {k};
        mainQueue := Without(mainQueue, k);
      }
    }

    method DropTagged(k: Bytes, tag: QueueType)
      modifies this
      ensures View() == RemoveTagged(old(View()), k, tag)
    {
      match tag {
        case Small => var _ := DropFromSmall(k);
        case Main => var _ := DropFromMain(k);
      }
    }

    method PushSmall(k: Bytes)
      modifies this
      ensures View() == AddToSmall(old(View()), k, caps)
    {
      if k in smallSet {
        return;
      }
      ghost var q0, s0 := smallQueue, smallSet;
      ghost var n := 0;
      while |smallQueue| >= caps.small
        invariant 0 <= n <= Overflow(|q0|, caps.small)
        invariant smallQueue == q0[n..] && smallSet == s0 - Elements(q0[..n])
        invariant View() == old(View()).(small := smallQueue, smallSet := smallSet)
        decreases |smallQueue|
      {
        if smallQueue == [] {
          break;
        }
        assert q0[..n + 1] == q0[..n] + [smallQueue[0]];
        smallSet := smallSet - {smallQueue[0]};
        smallQueue := smallQueue[1..];
        n := n + 1;
      }
      smallSet := smallSet + {k};
      smallQueue := smallQueue + [k];
    }

    method PushMain(k: Bytes)
      modifies this
      ensures View() == AddToMain(old(View()), k, caps)
    {
      if k in mainSet {
        return;
      }
      ghost var q0, s0 := mainQueue, mainSet;
      ghost var n := 0;
      while |mainQueue| >= caps.main
        invariant 0 <= n <= Overflow(|q0|, caps.main)
        invariant mainQueue == q0[n..] && mainSet == s0 - Elements(q0[..n])
        invariant View() == old(View()).(main := mainQueue, mainSet := mainSet)
        decreases |mainQueue|
      {
        if mainQueue == [] {
          break;
        }
        assert q0[..n + 1] == q0[..n] + [mainQueue[0]];
        mainSet := mainSet - {mainQueue[0]};
        mainQueue := mainQueue[1..];
        n := n + 1;
      }
      mainSet := mainSet + {k};
      mainQueue := mainQueue + [k];
    }

    method Reinsert(k: Bytes)
      modifies this
      ensures View() == ReinsertMainTail(old(View()), k, caps)
    {
      if mainQueue != [] && mainQueue[|mainQueue| - 1] == k {
        return;
      }
      if k in mainSet {
        var _ := DropFromMain(k);
      }
      PushMain(k);
    }

    method PushGhost(h: U64)
      modifies this
      ensures View() == AddToGhost(old(View()), h, caps)
    {
      if |ghostQueue| >= caps.ghosts {
        if ghostQueue != [] {
          ghostSet := ghostSet - {ghostQueue[0]};
          ghostQueue := ghostQueue[1..];
        }
      }
      ghostQueue := ghostQueue + [h];
      ghostSet := ghostSet + {h};
    }

    method DropGhost(h: U64)
      modifies this
      ensures View() == RemoveFromGhost(old(View()), h)
    {
      if h in ghostSet {
        ghostSet := ghostSet - {h};
        ghostQueue := Without(ghostQueue, h);
      }
    }

    method PlaceKey(k: Bytes, h: U64) returns (tag: QueueType)
      modifies this
      ensures (View(), tag) == Place(old(View()), k, h, caps)
    {
      if h in ghostSet {
        DropGhost(h);
        PushMain(k);
        tag := Main;
      } else {
        PushSmall(k);
        tag := Small;
      }
    }

    method TouchKey(k: Bytes, tag: QueueType, hits: nat) returns (tag': QueueType, hits': nat)
      modifies this
      ensures (View(), tag', hits') == Touch(old(View()), k, tag, hits, caps)
    {
      tag', hits' := tag, hits;
      match tag {
        case Small =>
          hits' := hits + 1;
          if hits' > 1 {
            var _ := DropFromSmall(k);
            PushMain(k);
            tag' := Main;
          }
        case Main =>
          Reinsert(k);
      }
    }

    method TakeVictim(hash: Bytes -> U64) returns (victim: Option<Bytes>)
      modifies this
      ensures (View(), victim) == PopVictim(old(View()), hash, caps)
    {
      if smallQueue != [] {
        var k := smallQueue[0];
        smallQueue := smallQueue[1..];
        smallSet := smallSet - {k};
        PushGhost(hash(k));
        victim := Some(k);
      } else if mainQueue != [] {
        var k := mainQueue[0];
        mainQueue := mainQueue[1..];
        mainSet := mainSet - {k};
        victim := Some(k);
      } else {
        victim := None;
      }
    }
  }
}
