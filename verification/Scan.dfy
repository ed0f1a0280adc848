/**
 * Cursor iteration (src/store.rs, `scan`) over a store that does not change meanwhile. A call that
 * stops at its limit resumes one past the entry it stopped at, so that entry is never examined.
 */
module Scan {
  import opened Basics
  import opened S3Fifo
  import opened Store
  import opened Glob

  const BASE: nat := 1_000_000_000

  /** An entry as the shard iterators yield it. */
  datatype Slot = Slot(key: Bytes, expiry: Option<nat>)

  type Shards = seq<seq<Slot>>

  /** What a call looks for: its clamped count, its pattern and its time. */
  datatype Query = Query(count: nat, pattern: Option<Bytes>, now: nat)

  function Clamp(hint: nat): nat {
    if hint < 10 then 10 else if hint > 1000 then 1000 else hint
  }

  predicate Hit(slot: Slot, q: Query) {
    !Expired(slot.expiry, q.now) && (q.pattern.Some? ==> Matches(slot.key, q.pattern.value))
  }

  // ---------------------------------------------------------------- the store as one list

  function Flat(shards: Shards): seq<Slot> {
    if shards == [] then [] else shards[0] + Flat(shards[1..])
  }

  /** The number of entries in the first `s` shards. */
  function Offset(shards: Shards, s: nat): nat
    requires s <= |shards|
  {
    |Flat(shards[..s])|
  }

  lemma {:induction false} FlatSnoc(shards: Shards, s: nat)
    requires s < |shards|
    ensures Flat(shards[..s + 1]) == Flat(shards[..s]) + shards[s]
    decreases |shards|
  {
    assert shards[..s + 1][0] == shards[0];
    if s == 0 {
      assert shards[..1][1..] == [] && shards[..0] == [];
      assert shards[0] + [] == shards[0] && [] + shards[0] == shards[0];
    } else {
      assert shards[..s + 1][1..] == shards[1..][..s] && shards[..s][1..] == shards[1..][..s - 1];
      FlatSnoc(shards[1..], s - 1);
      assert shards[0] + (Flat(shards[1..][..s - 1]) + shards[s]) == shards[0] + Flat(shards[1..][..s - 1]) + shards[s];
    }
  }

  lemma {:induction false} FlatAppend(a: Shards, b: Shards)
    ensures Flat(a + b) == Flat(a) + Flat(b)
  {
    if a == [] {
      assert a + b == b;
    } else {
      assert (a + b)[1..] == a[1..] + b;
      FlatAppend(a[1..], b);
      assert a[0] + (Flat(a[1..]) + Flat(b)) == a[0] + Flat(a[1..]) + Flat(b);
    }
  }

  /** Position `pos` of shard `s` in the list. */
  lemma {:induction false} FlatAt(shards: Shards, s: nat, pos: nat)
    requires s < |shards| && pos < |shards[s]|
    ensures Offset(shards, s) + pos < |Flat(shards)|
    ensures Flat(shards)[Offset(shards, s) + pos] == shards[s][pos]
  {
    FlatSnoc(shards, s);
    assert shards == shards[..s + 1] + shards[s + 1..];
    FlatAppend(shards[..s + 1], shards[s + 1..]);
  }

  lemma {:induction false} OffsetSteps(shards: Shards, s: nat)
    requires s < |shards|
    ensures Offset(shards, s + 1) == Offset(shards, s) + |shards[s]|
    ensures Offset(shards, s + 1) <= |Flat(shards)|
  {
    FlatSnoc(shards, s);
    assert shards == shards[..s + 1] + shards[s + 1..];
    FlatAppend(shards[..s + 1], shards[s + 1..]);
  }

  // ---------------------------------------------------------------- one page

  /** Where a page that starts at `a` stops: at the first entry met with a limit reached, or the end. */
  function Stop(flat: seq<Slot>, a: nat, found: nat, checked: nat, q: Query): (b: nat)
    requires a <= |flat|
    ensures a <= b <= |flat|
    decreases |flat| - a
  {
    if a == |flat| || found >= q.count || checked >= q.count * 3 then a
    else Stop(flat, a + 1, found + (if Hit(flat[a], q) then 1 else 0), checked + 1, q)
  }

  /** The keys found between two positions. */
  function Found(flat: seq<Slot>, a: nat, b: nat, q: Query): seq<Bytes>
    requires a <= b <= |flat|
    decreases b - a
  {
    if a == b then [] else (if Hit(flat[a], q) then [flat[a].key] else []) + Found(flat, a + 1, b, q)
  }

  lemma {:induction false} FoundSnoc(flat: seq<Slot>, a: nat, b: nat, q: Query)
    requires a <= b < |flat|
    ensures Found(flat, a, b + 1, q) == Found(flat, a, b, q) + (if Hit(flat[b], q) then [flat[b].key] else [])
    decreases b - a
  {
    if a < b {
      FoundSnoc(flat, a + 1, b, q);
    }
  }

  /** The cursor handed out when a page stops on entry `pos` of shard `s`. */
  function CursorPast(shards: Shards, s: nat, pos: nat): nat
    requires s < |shards| && pos < |shards[s]|
  {
    if pos + 1 < |shards[s]| then s * BASE + (pos + 1)
    else if s + 1 < |shards| then (s + 1) * BASE
    else 0
  }

  /** A cursor decoded: a shard and a position, taken into the list. */
  function Start(shards: Shards, cursor: nat): (a: nat)
    requires cursor / BASE < |shards|
  {
    var s := cursor / BASE;
    Offset(shards, s) + (if cursor % BASE <= |shards[s]| then cursor % BASE else |shards[s]|)
  }

  lemma {:induction false} StartInRange(shards: Shards, cursor: nat)
    requires cursor / BASE < |shards|
    ensures Start(shards, cursor) <= |Flat(shards)|
  {
    OffsetSteps(shards, cursor / BASE);
  }

  /** A cursor names the entry after the one the page stopped at, and it has moved on. */
  lemma {:induction false} CursorMovesOn(shards: Shards, s: nat, pos: nat)
    requires s < |shards| && pos < |shards[s]| <= BASE
    ensures var c := CursorPast(shards, s, pos);
            if c == 0 then Offset(shards, s) + pos + 1 == |Flat(shards)|
            else
              && (c == s * 1_000_000_000 + pos + 1 || c == (s + 1) * 1_000_000_000)
              && c > s * BASE + pos && c / BASE < |shards| && Start(shards, c) == Offset(shards, s) + pos + 1
  {
    var c := CursorPast(shards, s, pos);
    OffsetSteps(shards, s);
    if pos + 1 < |shards[s]| {
      DivMod(s, pos + 1);
    } else if s + 1 < |shards| {
      DivMod(s + 1, 0);
    } else {
      assert shards[..s + 1] == shards;
    }
  }

  lemma {:induction false} DivMod(s: nat, p: nat)
    requires p < BASE
    ensures (s * BASE + p) / BASE == s && (s * BASE + p) % BASE == p
  {
  }

  /** What qualifies an entry: not expired, and matching the pattern if one is given. */
  method Takes(slot: Slot, pattern: Option<Bytes>, now: nat, ghost q: Query) returns (take: bool)
    requires q.pattern == pattern && q.now == now
    ensures take == Hit(slot, q)
  {
    take := !Expired(slot.expiry, now);
    if take && pattern.Some? {
      var matched, _ := MatchesPattern(slot.key, pattern.value);
      take := matched;
    }
  }

  /** `scan`. */
  method ScanPage(shards: Shards, cursor: nat, hint: nat, pattern: Option<Bytes>, now: nat)
    returns (next: nat, keys: seq<Bytes>)
    requires forall s :: 0 <= s < |shards| ==> |shards[s]| <= BASE
    ensures (next, keys) == PageOf(shards, cursor, Query(Clamp(hint), pattern, now))
  {
    hide Hit, Flat, Locate;
    var count := Clamp(hint);
    ghost var q := Query(count, pattern, now);
    keys := [];
    var checked: nat := 0;
    var startShard, startPosition := cursor / BASE, cursor % BASE;
    if startShard >= |shards| {
      return 0, [];
    }
    ghost var flat, a := Flat(shards), Start(shards, cursor);
    StartInRange(shards, cursor);
    var s: nat, position: nat := startShard, startPosition;
    ghost var at := a;
    while s < |shards|
      invariant startShard <= s <= |shards|
      invariant a <= at <= |flat| && keys == Found(flat, a, at, q)
      invariant Stop(flat, a, 0, 0, q) == Stop(flat, at, |keys|, checked, q)
      invariant s < |shards| ==> at == Offset(shards, s) + (if position <= |shards[s]| then position else |shards[s]|)
      invariant s == |shards| ==> at == |flat|
    {
      OffsetSteps(shards, s);
      var entries := shards[s];
      var pos: nat := if position <= |entries| then position else |entries|;
      while pos < |entries|
        invariant pos <= |entries| && at == Offset(shards, s) + pos
        invariant a <= at <= |flat| && keys == Found(flat, a, at, q)
        invariant Stop(flat, a, 0, 0, q) == Stop(flat, at, |keys|, checked, q)
      {
        FlatAt(shards, s, pos);
        if |keys| >= count || checked >= count * 3 {
          next := if pos + 1 < |entries| then s * BASE + (pos + 1)
                  else if s + 1 < |shards| then (s + 1) * BASE
                  else 0;
          StoppedAt(shards, cursor, q, s, pos);
          return;
        }
        FoundSnoc(flat, a, at, q);
        checked := checked + 1;
        var slot := entries[pos];
        var take := Takes(slot, pattern, now, q);
        if take {
          keys := keys + [slot.key];
        }
        pos := pos + 1;
        at := at + 1;
      }
      s := s + 1;
      position := 0;
      if s == |shards| {
        assert shards[..s] == shards;
      }
    }
    next := 0;
  }

  /** The shard and position of a list index. */
  ghost function Locate(shards: Shards, i: nat): (nat, nat)
    requires i < |Flat(shards)|
    decreases |shards|
  {
    if i < |shards[0]| then (0, i)
    else
      var (s, pos) := Locate(shards[1..], i - |shards[0]|);
      (s + 1, pos)
  }

  lemma {:induction false} LocateAt(shards: Shards, s: nat, pos: nat)
    requires s < |shards| && pos < |shards[s]|
    ensures Offset(shards, s) + pos < |Flat(shards)| && Locate(shards, Offset(shards, s) + pos) == (s, pos)
    decreases |shards|
  {
    FlatAt(shards, s, pos);
    if s > 0 {
      assert shards[..s][0] == shards[0] && shards[..s][1..] == shards[1..][..s - 1];
      LocateAt(shards[1..], s - 1, pos);
    } else {
      assert shards[..0] == [];
    }
  }

  lemma {:induction false} Located(shards: Shards, i: nat)
    requires i < |Flat(shards)|
    ensures var (s, pos) := Locate(shards, i);
            s < |shards| && pos < |shards[s]| && Offset(shards, s) + pos == i
    decreases |shards|
  {
    if i < |shards[0]| {
      assert shards[..0] == [];
    } else {
      Located(shards[1..], i - |shards[0]|);
      var (s, pos) := Locate(shards[1..], i - |shards[0]|);
      assert shards[..s + 1][0] == shards[0] && shards[..s + 1][1..] == shards[1..][..s];
    }
  }

  /** A page: the keys found up to where it stops, and a cursor past the entry it stopped at. */
  ghost function PageOf(shards: Shards, cursor: nat, q: Query): (nat, seq<Bytes>) {
    if cursor / BASE >= |shards| then (0, [])
    else
      StartInRange(shards, cursor);
      var a := Start(shards, cursor);
      var b := Stop(Flat(shards), a, 0, 0, q);
      (if b == |Flat(shards)| then 0
       else Located(shards, b); CursorPast(shards, Locate(shards, b).0, Locate(shards, b).1),
       Found(Flat(shards), a, b, q))
  }

  lemma {:induction false} StoppedAt(shards: Shards, cursor: nat, q: Query, s: nat, pos: nat)
    requires cursor / BASE < |shards| && s < |shards| && pos < |shards[s]|
    requires Start(shards, cursor) <= |Flat(shards)|
    requires Stop(Flat(shards), Start(shards, cursor), 0, 0, q) == Offset(shards, s) + pos
    ensures PageOf(shards, cursor, q).0 == CursorPast(shards, s, pos)
  {
    LocateAt(shards, s, pos);
  }

  // ---------------------------------------------------------------- a whole iteration

  /** The keys of all pages from position `a` on. */
  function Collected(flat: seq<Slot>, a: nat, q: Query): seq<Bytes>
    requires a <= |flat|
    decreases |flat| - a
  {
    var b := Stop(flat, a, 0, 0, q);
    Found(flat, a, b, q) + if b < |flat| then Collected(flat, b + 1, q) else []
  }

  /** The entries that pages stop at and step over. */
  function SteppedOver(flat: seq<Slot>, a: nat, q: Query): set<nat>
    requires a <= |flat|
    decreases |flat| - a
  {
    var b := Stop(flat, a, 0, 0, q);
    if b < |flat| then {b} + SteppedOver(flat, b + 1, q) else {}
  }

  /** A client following cursors until it is handed 0 again. */
  ghost function Iterate(shards: Shards, cursor: nat, q: Query): seq<Bytes>
    requires forall s :: 0 <= s < |shards| ==> |shards[s]| <= BASE
    decreases |shards| * BASE - cursor
  {
    var (next, keys) := PageOf(shards, cursor, q);
    if next == 0 then keys
    else
      CursorIncreases(shards, cursor, q);
      keys + Iterate(shards, next, q)
  }

  /** The cursor strictly increases until it returns to 0, and always names the next unseen entry. */
  lemma {:induction false} CursorIncreases(shards: Shards, cursor: nat, q: Query)
    requires forall s :: 0 <= s < |shards| ==> |shards[s]| <= BASE
    ensures var next := PageOf(shards, cursor, q).0;
            next != 0 ==> cursor < next < |shards| * BASE
                          && Start(shards, next) == Stop(Flat(shards), Start(shards, cursor), 0, 0, q) + 1
  {
    if cursor / BASE < |shards| {
      StartInRange(shards, cursor);
      var a := Start(shards, cursor);
      var b := Stop(Flat(shards), a, 0, 0, q);
      if b < |Flat(shards)| {
        Located(shards, b);
        var (s, pos) := Locate(shards, b);
        CursorMovesOn(shards, s, pos);
        StartBelow(shards, cursor, s, pos);
        var c := CursorPast(shards, s, pos);
        if c != 0 {
          QuotientBound(c, |shards|);
        }
      }
    }
  }

  lemma {:induction false} QuotientBound(c: nat, n: nat)
    requires c / BASE < n
    ensures c < n * BASE
  {
  }

  /** A cursor whose entry is at or before another entry is at most that entry's own number. */
  lemma {:induction false} StartBelow(shards: Shards, cursor: nat, s: nat, pos: nat)
    requires cursor / BASE < |shards| && s < |shards| && pos < |shards[s]|
    requires Start(shards, cursor) <= Offset(shards, s) + pos
    ensures cursor <= s * BASE + pos
  {
    var s0 := cursor / BASE;
    if s0 > s {
      OffsetSteps(shards, s);
      OffsetMonotone(shards, s + 1, s0);
      assert false;
    }
    assert cursor == s0 * BASE + cursor % BASE;
  }

  lemma {:induction false} OffsetMonotone(shards: Shards, s: nat, t: nat)
    requires s <= t <= |shards|
    ensures Offset(shards, s) <= Offset(shards, t)
    decreases t - s
  {
    if s < t {
      OffsetSteps(shards, s);
      OffsetMonotone(shards, s + 1, t);
    }
  }

  /** The step of `Collected` in terms of a page. */
  lemma {:induction false} PageCollects(shards: Shards, cursor: nat, q: Query)
    requires forall s :: 0 <= s < |shards| ==> |shards[s]| <= BASE
    requires cursor / BASE < |shards| && Start(shards, cursor) <= |Flat(shards)|
    ensures var (next, keys) := PageOf(shards, cursor, q);
            var flat := Flat(shards);
            if next == 0 then Collected(flat, Start(shards, cursor), q) == keys
            else
              && next / BASE < |shards| && Start(shards, next) <= |flat|
              && Collected(flat, Start(shards, cursor), q) == keys + Collected(flat, Start(shards, next), q)
  {
    hide Found;
    CursorIncreases(shards, cursor, q);
    var flat, a := Flat(shards), Start(shards, cursor);
    var b := Stop(flat, a, 0, 0, q);
    var (next, keys) := PageOf(shards, cursor, q);
    if b == |flat| {
      assert keys + [] == keys;
    } else if next != 0 {
      NextInRange(shards, next);
      StartInRange(shards, next);
    } else {
      Located(shards, b);
      CursorMovesOn(shards, Locate(shards, b).0, Locate(shards, b).1);
      NothingAtTheEnd(flat, q);
      assert keys + [] == keys;
    }
  }

  lemma {:induction false} NothingAtTheEnd(flat: seq<Slot>, q: Query)
    ensures Collected(flat, |flat|, q) == []
  {
  }

  lemma {:induction false} IterateCollects(shards: Shards, cursor: nat, q: Query)
    requires forall s :: 0 <= s < |shards| ==> |shards[s]| <= BASE
    requires cursor / BASE < |shards|
    ensures Start(shards, cursor) <= |Flat(shards)|
    ensures Iterate(shards, cursor, q) == Collected(Flat(shards), Start(shards, cursor), q)
    decreases |shards| * BASE - cursor
  {
    hide Collected, PageOf, Start;
    StartInRange(shards, cursor);
    PageCollects(shards, cursor, q);
    CursorIncreases(shards, cursor, q);
    var next := PageOf(shards, cursor, q).0;
    if next != 0 {
      IterateCollects(shards, next, q);
    }
  }

  lemma {:induction false} NextInRange(shards: Shards, c: nat)
    requires c < |shards| * BASE
    ensures c / BASE < |shards|
  {
  }

  // ---------------------------------------------------------------- what an iteration returns

  ghost predicate DistinctKeys(flat: seq<Slot>) {
    forall i, j :: 0 <= i < j < |flat| ==> flat[i].key != flat[j].key
  }

  /** Some wanted entry from `a` up to `b`, not stepped over, has this key. */
  ghost predicate Wanted(flat: seq<Slot>, a: nat, b: nat, skip: set<nat>, k: Bytes, q: Query)
    requires b <= |flat|
  {
    exists i :: a <= i < b && i !in skip && Hit(flat[i], q) && flat[i].key == k
  }

  lemma {:induction false} FoundMembers(flat: seq<Slot>, a: nat, b: nat, q: Query)
    requires a <= b <= |flat|
    ensures forall k :: k in Found(flat, a, b, q) <==> Wanted(flat, a, b, {}, k, q)
    ensures DistinctKeys(flat) ==> Distinct(Found(flat, a, b, q))
    decreases b - a
  {
    if a < b {
      FoundMembers(flat, a + 1, b, q);
      var rest := Found(flat, a + 1, b, q);
      forall k ensures k in Found(flat, a, b, q) <==> Wanted(flat, a, b, {}, k, q) {
        if Wanted(flat, a, b, {}, k, q) && !(Hit(flat[a], q) && flat[a].key == k) {
          var i :| a <= i < b && Hit(flat[i], q) && flat[i].key == k;
          assert i != a;
          assert Wanted(flat, a + 1, b, {}, k, q);
        }
        if k in rest {
          var i :| a + 1 <= i < b && Hit(flat[i], q) && flat[i].key == k;
        }
      }
      if DistinctKeys(flat) && flat[a].key in rest {
        assert false;
      }
    }
  }

  lemma {:induction false} SteppedOverRange(flat: seq<Slot>, a: nat, q: Query)
    requires a <= |flat|
    ensures forall i :: i in SteppedOver(flat, a, q) ==> a <= i < |flat|
    decreases |flat| - a
  {
    var b := Stop(flat, a, 0, 0, q);
    if b < |flat| {
      SteppedOverRange(flat, b + 1, q);
    }
  }

  /** The pages together hold the hits that were not stepped over, each once. */
  lemma {:induction false} CollectedMembers(flat: seq<Slot>, a: nat, q: Query)
    requires a <= |flat|
    ensures forall k :: k in Collected(flat, a, q) <==> Wanted(flat, a, |flat|, SteppedOver(flat, a, q), k, q)
    ensures DistinctKeys(flat) ==> Distinct(Collected(flat, a, q))
    decreases |flat| - a
  {
    hide Hit, Found;
    var b := Stop(flat, a, 0, 0, q);
    FoundMembers(flat, a, b, q);
    if b < |flat| {
      CollectedMembers(flat, b + 1, q);
      forall k ensures k in Collected(flat, a, q) <==> Wanted(flat, a, |flat|, SteppedOver(flat, a, q), k, q) {
        WantedSplits(flat, a, b, k, q);
      }
      if DistinctKeys(flat) {
        HeadAndTailDiffer(flat, a, b, Found(flat, a, b, q), Collected(flat, b + 1, q), SteppedOver(flat, b + 1, q), q);
      }
    } else {
      assert Found(flat, a, b, q) + [] == Found(flat, a, b, q);
    }
  }

  lemma {:induction false} WantedSplits(flat: seq<Slot>, a: nat, b: nat, k: Bytes, q: Query)
    requires a <= b < |flat| && b == Stop(flat, a, 0, 0, q)
    ensures Wanted(flat, a, |flat|, SteppedOver(flat, a, q), k, q)
            <==> Wanted(flat, a, b, {}, k, q) || Wanted(flat, b + 1, |flat|, SteppedOver(flat, b + 1, q), k, q)
  {
    hide Hit, Stop;
    SteppedOverRange(flat, b + 1, q);
    assert SteppedOver(flat, a, q) == {b} + SteppedOver(flat, b + 1, q);
  }

  lemma {:induction false} HeadAndTailDiffer(flat: seq<Slot>, a: nat, b: nat, head: seq<Bytes>, tail: seq<Bytes>, skip: set<nat>, q: Query)
    requires a <= b < |flat| && DistinctKeys(flat)
    requires forall k :: k in head <==> Wanted(flat, a, b, {}, k, q)
    requires forall k :: k in tail <==> Wanted(flat, b + 1, |flat|, skip, k, q)
    requires Distinct(head) && Distinct(tail)
    ensures Distinct(head + tail)
  {
    hide Hit;
    forall x, y | 0 <= x < |head| && 0 <= y < |tail| ensures head[x] != tail[y] {
      assert head[x] in head && tail[y] in tail;
    }
  }

  /**
   * A full iteration over an unchanged store: no key twice, and exactly the live matching keys
   * other than those stepped over. It is complete if and only if no page stops on such a key.
   */
  lemma {:induction false} FullIteration(shards: Shards, q: Query)
    requires |shards| > 0 && (forall s :: 0 <= s < |shards| ==> |shards[s]| <= BASE) && DistinctKeys(Flat(shards))
    ensures var flat := Flat(shards);
            var keys := Iterate(shards, 0, q);
            && Distinct(keys)
            && (forall k :: k in keys <==> Wanted(flat, 0, |flat|, SteppedOver(flat, 0, q), k, q))
            && ((forall i :: 0 <= i < |flat| && Hit(flat[i], q) ==> flat[i].key in keys)
                <==> (forall i :: i in SteppedOver(flat, 0, q) && 0 <= i < |flat| ==> !Hit(flat[i], q)))
  {
    hide Hit, Collected, SteppedOver, Stop, Iterate;
    var flat := Flat(shards);
    assert shards[..0] == [];
    assert Start(shards, 0) == 0;
    IterateCollects(shards, 0, q);
    CollectedMembers(flat, 0, q);
    var keys, skip := Iterate(shards, 0, q), SteppedOver(flat, 0, q);
    if i :| i in skip && 0 <= i < |flat| && Hit(flat[i], q) {
      assert flat[i].key !in keys by {
        if Wanted(flat, 0, |flat|, skip, flat[i].key, q) {
          assert false;
        }
      }
    } else {
      forall i | 0 <= i < |flat| && Hit(flat[i], q) ensures flat[i].key in keys {
        assert Wanted(flat, 0, |flat|, skip, flat[i].key, q);
      }
    }
  }

  /** Every entry is live and wanted, as in a SCAN without MATCH over keys without expiry. */
  ghost predicate AllHits(flat: seq<Slot>, q: Query) {
    forall i :: 0 <= i < |flat| ==> Hit(flat[i], q)
  }

  lemma {:induction false} StopAllHits(flat: seq<Slot>, a: nat, found: nat, q: Query)
    requires AllHits(flat, q) && a <= |flat| && found <= q.count && q.count > 0
    ensures Stop(flat, a, found, found, q) == if |flat| - a <= q.count - found then |flat| else a + (q.count - found)
    decreases |flat| - a
  {
    if a < |flat| && found < q.count {
      StopAllHits(flat, a + 1, found + 1, q);
    }
  }

  /** When every entry is a hit, an iteration is complete exactly when one page holds them all. */
  lemma {:induction false} CompleteWhenOnePage(shards: Shards, q: Query)
    requires |shards| > 0 && (forall s :: 0 <= s < |shards| ==> |shards[s]| <= BASE) && DistinctKeys(Flat(shards))
    requires AllHits(Flat(shards), q) && q.count > 0
    ensures (forall i :: 0 <= i < |Flat(shards)| ==> Flat(shards)[i].key in Iterate(shards, 0, q))
            <==> |Flat(shards)| <= q.count
  {
    hide Iterate, Collected;
    var flat := Flat(shards);
    FullIteration(shards, q);
    StopAllHits(flat, 0, 0, q);
    if |flat| > q.count {
      assert q.count in SteppedOver(flat, 0, q);
    } else {
      assert SteppedOver(flat, 0, q) == {};
    }
  }

  // ---------------------------------------------------------------- SCAN and stale entries

  lemma {:induction false} StopOverStale(flat: seq<Slot>, a: nat, q: Query)
    requires a <= q.count * 3 <= |flat| && q.count > 0
    requires forall i :: 0 <= i < q.count * 3 ==> !Hit(flat[i], q)
    ensures Stop(flat, a, 0, a, q) == q.count * 3 && Found(flat, a, q.count * 3, q) == []
    decreases q.count * 3 - a
  {
    hide Hit;
    if a < q.count * 3 {
      StopOverStale(flat, a + 1, q);
    }
  }

  /**
   * A page counts the expired entries it passes, so stale entries can hide a live key for good:
   * with three times the count of them before it, the one live key is stepped over, and the
   * iteration ends. Without them it is found.
   */
  lemma {:induction false} StaleHidesKey(stale: seq<Slot>, k: Bytes, q: Query)
    requires q.count > 0 && q.pattern == None && |stale| == q.count * 3 < BASE
    requires forall i :: 0 <= i < |stale| ==> Expired(stale[i].expiry, q.now)
    ensures PageOf([stale + [Slot(k, None)]], 0, q) == (0, [])
    ensures PageOf([[Slot(k, None)]], 0, q) == (0, [k])
  {
    var live := Slot(k, None);
    var shards := [stale + [live]];
    FlatOfOne(stale + [live]);
    assert shards[..0] == [];
    StopOverStale(Flat(shards), 0, q);
    LocateAt(shards, 0, |stale|);
    OneLiveKey(live, q);
  }

  lemma {:induction false} OneLiveKey(live: Slot, q: Query)
    requires q.count > 0 && Hit(live, q)
    ensures PageOf([[live]], 0, q) == (0, [live.key])
  {
    var flat := [live];
    FlatOfOne(flat);
    assert [flat][..0] == [];
    assert Start([flat], 0) == 0;
    assert Stop(flat, 1, 1, 1, q) == 1;
    assert Stop(flat, 0, 0, 0, q) == 1;
    assert Found(flat, 1, 1, q) == [] && Found(flat, 0, 1, q) == [live.key];
  }

  lemma {:induction false} FlatOfOne(shard: seq<Slot>)
    ensures Flat([shard]) == shard
  {
    assert [shard][1..] == [] && shard + [] == shard;
  }

  // ---------------------------------------------------------------- how large a page is

  lemma {:induction false} StopLimits(flat: seq<Slot>, a: nat, found: nat, checked: nat, q: Query)
    requires a <= |flat| && found <= q.count && checked <= q.count * 3
    ensures var b := Stop(flat, a, found, checked, q);
            var n := |Found(flat, a, b, q)|;
            && found + n <= q.count && checked + (b - a) <= q.count * 3
            && (b < |flat| ==> found + n == q.count || checked + (b - a) == q.count * 3)
    decreases |flat| - a
  {
    hide Hit;
    if !(a == |flat| || found >= q.count || checked >= q.count * 3) {
      StopLimits(flat, a + 1, found + (if Hit(flat[a], q) then 1 else 0), checked + 1, q);
    }
  }

  /**
   * A page returns as many keys as were asked for, at least 10 and at most 1000, and looks at no
   * more than three times as many entries; it stops before the end only when one of these is reached.
   */
  lemma {:induction false} PageLimits(shards: Shards, cursor: nat, hint: nat, pattern: Option<Bytes>, now: nat)
    requires cursor / BASE < |shards|
    ensures var n := if hint <= 10 then 10 else if hint >= 1000 then 1000 else hint;
            var q := Query(Clamp(hint), pattern, now);
            var flat, a := Flat(shards), Start(shards, cursor);
            var (next, keys) := PageOf(shards, cursor, q);
            && a <= |flat| && |keys| <= n
            && (next != 0 ==> |keys| == n || Stop(flat, a, 0, 0, q) - a == 3 * n)
  {
    hide Hit, Flat, Start, Locate, Found, Stop;
    StartInRange(shards, cursor);
    StopLimits(Flat(shards), Start(shards, cursor), 0, 0, Query(Clamp(hint), pattern, now));
  }

}
