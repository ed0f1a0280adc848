/**
 * The append-only file of src/aof.rs as a machine of small steps over three layers (the writer's
 * buffer, the file as the kernel has it, the file on disk), interrupted by a crash anywhere.
 */
module Durability {
  import opened Basics

  datatype Fsync = Always | EverySec | Never

  /**
   * A file: what the kernel has, what is on disk, and how much was on disk when it was put in
   * place. `intact` says of a replaced log that it was promised to be on disk when it was replaced.
   */
  datatype File = File(os: Bytes, disk: Bytes, floor: nat, intact: bool)

  /** One primitive action of an operation. */
  datatype Action =
    | Put(frame: Bytes)        // bytes into the writer's buffer
    | FlushBuffer              // buffer to kernel
    | SyncData                 // kernel to disk
    | MarkDirty
    | ClearDirty
    | AddSize(n: nat)
    | Return                   // the append returns to its caller
    | WriteTemp(bytes: Bytes)  // the snapshot, into the temporary file
    | SyncTemp
    | Swap                     // rename over the log and reopen it
    | SetSize(n: nat)

  datatype Operation = Append(frame: Bytes) | Sync | Rewrite(snapshot: Bytes)

  /**
   * `orphans` are earlier log files that the directory on disk may still name; `acked` is the
   * length of the log as of the last operation that returned; `synced` says that the bytes found
   * at opening are on disk, because they were then or because of a sync since; `op` is the
   * operation in progress, of whose script `pc` actions are done.
   */
  datatype Aof = Aof(
    policy: Fsync, buffer: Bytes, live: File, temp: File, orphans: seq<File>,
    dirty: bool, size: nat, acked: nat, synced: bool, op: Option<Operation>, pc: nat)

  /** The log as its writer sees it. */
  function Log(s: Aof): Bytes {
    s.live.os + s.buffer
  }

  /** The promise to the client: `Always`, or a dirty flag that is down. */
  predicate Promised(s: Aof) {
    s.policy == Always || !s.dirty
  }

  /** The promise, once the bytes found at opening are on disk as well. */
  predicate Backed(s: Aof) {
    s.synced && Promised(s)
  }

  /** The order of actions in `append`, `sync` and `rewrite_inner`. */
  function Script(policy: Fsync, op: Operation): seq<Action> {
    match op
    case Append(frame) =>
      if policy == Always then [Put(frame), FlushBuffer, SyncData, AddSize(|frame|), Return]
      else [Put(frame), MarkDirty, AddSize(|frame|), Return]
    case Sync => [FlushBuffer, SyncData, ClearDirty]
    case Rewrite(snapshot) =>
      [WriteTemp(snapshot), SyncTemp, FlushBuffer, Swap, SetSize(|snapshot|), ClearDirty]
  }

  function Perform(s: Aof, a: Action): Aof {
    match a
    case Put(frame) => s.(buffer := s.buffer + frame)
    case FlushBuffer => s.(live := s.live.(os := s.live.os + s.buffer), buffer := [])
    case SyncData => s.(live := s.live.(disk := s.live.os), synced := true)
    case MarkDirty => s.(dirty := true)
    case ClearDirty => s.(dirty := false)
    case AddSize(n) => s.(size := s.size + n)
    case Return => s.(acked := |s.live.os| + |s.buffer|)
    case WriteTemp(bytes) => s.(temp := File(bytes, [], 0, false))
    case SyncTemp => s.(temp := s.temp.(disk := s.temp.os, floor := |s.temp.os|))
    case Swap =>
      s.(live := s.temp, orphans := s.orphans + [s.live.(intact := Backed(s))], acked := |s.temp.os|,
         synced := true, buffer := [])
    case SetSize(n) => s.(size := n)
  }

  /** A move of the server, or of the buffering layers beneath it. */
  datatype Move =
    | Begin(op: Operation)
    | Advance
    | Spill(n: nat)           // a full buffer pushes its first bytes to the kernel
    | Writeback(n: nat)       // the kernel writes back that much of the log
    | WritebackTemp(n: nat)
    | DirectoryReachesDisk

  function Step(s: Aof, m: Move): Aof {
    match m
    case Begin(op) => if s.op == None then s.(op := Some(op), pc := 0) else s
    case Advance => if s.op == None then s else Advanced(s, Script(s.policy, s.op.value))
    case Spill(n) =>
      if n <= |s.buffer| then s.(live := s.live.(os := s.live.os + s.buffer[..n]), buffer := s.buffer[n..]) else s
    case Writeback(n) => if |s.live.disk| <= n <= |s.live.os| then s.(live := s.live.(disk := s.live.os[..n])) else s
    case WritebackTemp(n) => if |s.temp.disk| <= n <= |s.temp.os| then s.(temp := s.temp.(disk := s.temp.os[..n])) else s
    case DirectoryReachesDisk => s.(orphans := [])
  }

  /** The next action of the script; the last one ends the operation. */
  function Advanced(s: Aof, script: seq<Action>): Aof {
    if s.pc >= |script| then s
    else
      var d := Perform(s, script[s.pc]);
      if s.pc + 1 == |script| then d.(op := None, pc := 0) else d.(pc := s.pc + 1)
  }

  function Steps(s: Aof, moves: seq<Move>): Aof
    decreases |moves|
  {
    if moves == [] then s else Steps(Step(s, moves[0]), moves[1..])
  }

  /** `open`: an existing file is taken over as it is, of which only `disk` need be on disk. */
  function Open(policy: Fsync, bytes: Bytes, disk: Bytes): Aof {
    Aof(policy, [], File(bytes, disk, |disk|, false), File([], [], 0, false), [], false, |bytes|, |bytes|,
        disk == bytes, None, 0)
  }

  // ---------------------------------------------------------------- the invariant

  ghost predicate FileOk(f: File) {
    f.disk <= f.os && f.floor <= |f.disk|
  }

  ghost predicate OnDisk(s: Aof) {
    s.buffer == [] && s.live.disk == s.live.os
  }

  /** A replaced log that was promised to be on disk is there as a whole. */
  ghost predicate OrphanOk(f: File) {
    FileOk(f) && (f.intact ==> f.disk == f.os)
  }

  /** Everything acknowledged is in the log, and on disk unless the dirty flag owns up. */
  ghost predicate Accounted(s: Aof) {
    s.acked <= |Log(s)| && (Backed(s) ==> s.acked <= |s.live.disk|)
  }

  /** No operation has touched the log since it was last accounted for. */
  ghost predicate Settled(s: Aof) {
    && s.size == |Log(s)| && s.acked == |Log(s)|
    && (Backed(s) ==> OnDisk(s))
  }

  /** An append in progress after its frame has been buffered. */
  ghost predicate Appending(s: Aof, n: nat) {
    && |Log(s)| == s.acked + n
    && (if s.policy == Always then
          && 1 <= s.pc <= 4
          && (s.pc == 2 ==> s.buffer == []) && (s.pc >= 3 ==> OnDisk(s))
          && |Log(s)| == s.size + (if s.pc == 4 then 0 else n)
        else
          && 1 <= s.pc <= 3
          && (s.pc >= 2 ==> s.dirty)
          && |Log(s)| == s.size + (if s.pc == 3 then 0 else n))
  }

  ghost predicate Rewriting(s: Aof, snapshot: Bytes) {
    && 1 <= s.pc <= 5
    && (s.pc <= 3 ==> Settled(s) && s.temp.os == snapshot)
    && (2 <= s.pc <= 3 ==> SnapshotReady(s))
    && (s.pc == 3 ==> s.buffer == [])
    && (s.pc >= 4 ==> OnDisk(s) && s.acked == |Log(s)| == |snapshot|)
    && (s.pc == 5 ==> s.size == |Log(s)|)
  }

  /** What the actions still to come rely on. */
  ghost predicate Midway(s: Aof) {
    match s.op
    case None => Settled(s)
    case Some(op) =>
      if s.pc == 0 then Settled(s)
      else
        match op
        case Append(frame) => Appending(s, |frame|)
        case Rewrite(snapshot) => Rewriting(s, snapshot)
        case Sync =>
          || (s.pc == 1 && s.buffer == [] && Settled(s))
          || (s.pc == 2 && OnDisk(s) && s.size == s.acked == |Log(s)|)
  }

  ghost predicate SnapshotReady(s: Aof) {
    s.temp.disk == s.temp.os && s.temp.floor == |s.temp.os|
  }

  ghost predicate Inv(s: Aof) {
    && FileOk(s.live) && FileOk(s.temp)
    && (forall i :: 0 <= i < |s.orphans| ==> OrphanOk(s.orphans[i]))
    && Accounted(s) && Midway(s)
  }

  lemma {:induction false} AppendBegins(s: Aof, frame: Bytes)
    requires Inv(s) && s.op == Some(Append(frame)) && s.pc == 0
    ensures Inv(Step(s, Advance))
  {
    assert s.live.os + (s.buffer + frame) == s.live.os + s.buffer + frame;
  }

  lemma {:induction false} AlwaysAdvances(s: Aof, frame: Bytes)
    requires Inv(s) && s.op == Some(Append(frame)) && s.pc > 0 && s.policy == Always
    ensures Inv(Step(s, Advance))
  {
    assert s.live.os + s.buffer + [] == s.live.os + s.buffer;
  }

  lemma {:induction false} LazyAdvances(s: Aof, frame: Bytes)
    requires Inv(s) && s.op == Some(Append(frame)) && s.pc > 0 && s.policy != Always
    ensures Inv(Step(s, Advance))
  {
  }

  lemma {:induction false} SyncAdvances(s: Aof)
    requires Inv(s) && s.op == Some(Sync)
    ensures Inv(Step(s, Advance))
  {
    hide Appending, Rewriting;
    assert s.live.os + s.buffer + [] == s.live.os + s.buffer;
  }

  lemma {:induction false} RewriteBegins(s: Aof, snapshot: Bytes)
    requires Inv(s) && s.op == Some(Rewrite(snapshot)) && s.pc < 3
    ensures Inv(Step(s, Advance))
  {
    hide Appending, OrphanOk;
    assert s.live.os + s.buffer + [] == s.live.os + s.buffer;
  }

  /** The swap: the log it replaces is settled, and so on disk if that was promised. */
  lemma {:induction false} RewriteSwaps(s: Aof, snapshot: Bytes)
    requires Inv(s) && s.op == Some(Rewrite(snapshot)) && s.pc == 3
    ensures Inv(Step(s, Advance))
  {
    hide Appending;
    assert s.temp.os + [] == s.temp.os;
  }

  lemma {:induction false} RewriteEnds(s: Aof, snapshot: Bytes)
    requires Inv(s) && s.op == Some(Rewrite(snapshot)) && s.pc > 3
    ensures Inv(Step(s, Advance))
  {
    hide Appending, OrphanOk;
  }

  lemma {:induction false} SpillKeeps(s: Aof, n: nat)
    requires Inv(s)
    ensures Inv(Step(s, Spill(n)))
  {
    if n == 0 || n > |s.buffer| {
      assert s.live.os + s.buffer[..0] == s.live.os && s.buffer[0..] == s.buffer;
    } else {
      SpillSplits(s.live.os, s.buffer, n);
      PrefixExtends(s.live.disk, s.live.os, s.buffer[..n]);
      hide FileOk;
      FloorStays(s.live, s.live.os + s.buffer[..n]);
    }
  }

  lemma {:induction false} SpillSplits(os: Bytes, buffer: Bytes, n: nat)
    requires n <= |buffer|
    ensures os + buffer[..n] + buffer[n..] == os + buffer
  {
  }

  lemma {:induction false} PrefixExtends(a: Bytes, b: Bytes, c: Bytes)
    requires a <= b
    ensures a <= b + c
  {
  }

  lemma {:induction false} FloorStays(f: File, os: Bytes)
    requires FileOk(f) && f.disk <= os
    ensures FileOk(f.(os := os))
  {
  }

  lemma {:induction false} WritebackKeeps(s: Aof, m: Move)
    requires Inv(s) && (m.Writeback? || m.WritebackTemp? || m.DirectoryReachesDisk?)
    ensures Inv(Step(s, m))
  {
    hide OrphanOk;
  }

  /** Every action, and every move of the layers beneath, keeps the invariant. */
  lemma {:induction false} StepKeeps(s: Aof, m: Move)
    requires Inv(s)
    ensures Inv(Step(s, m))
  {
    match m
    case Begin(_) =>
    case Advance =>
      if s.op.Some? {
        match s.op.value
        case Append(frame) =>
          if s.pc == 0 {
            AppendBegins(s, frame);
          } else if s.policy == Always {
            AlwaysAdvances(s, frame);
          } else {
            LazyAdvances(s, frame);
          }
        case Sync => SyncAdvances(s);
        case Rewrite(snapshot) =>
          if s.pc < 3 {
            RewriteBegins(s, snapshot);
          } else if s.pc == 3 {
            RewriteSwaps(s, snapshot);
          } else {
            RewriteEnds(s, snapshot);
          }
      }
    case Spill(n) => SpillKeeps(s, n);
    case Writeback(_) => WritebackKeeps(s, m);
    case WritebackTemp(_) => WritebackKeeps(s, m);
    case DirectoryReachesDisk => WritebackKeeps(s, m);
  }

  lemma {:induction false} Reachable(s: Aof, moves: seq<Move>)
    requires Inv(s)
    ensures Inv(Steps(s, moves))
    decreases |moves|
  {
    hide Inv, Step;
    if moves != [] {
      StepKeeps(s, moves[0]);
      Reachable(Step(s, moves[0]), moves[1..]);
    }
  }

  // ---------------------------------------------------------------- crashes

  /** A file can be left with any of its bytes from those on disk to those the kernel had. */
  ghost predicate Survives(f: File, p: Bytes) {
    f.disk <= p <= f.os
  }

  /** What a power failure can leave under the log's name. */
  ghost predicate CrashLeaves(s: Aof, p: Bytes) {
    Survives(s.live, p) || exists i :: 0 <= i < |s.orphans| && Survives(s.orphans[i], p)
  }

  lemma {:induction false} OpenOk(policy: Fsync, bytes: Bytes, disk: Bytes)
    requires disk <= bytes
    ensures Inv(Open(policy, bytes, disk))
  {
    assert bytes + [] == bytes;
  }

  /** Once on disk, the bytes found at opening stay there. */
  lemma {:induction false} StaysSynced(s: Aof, moves: seq<Move>)
    requires s.synced
    ensures Steps(s, moves).synced && Steps(s, moves).policy == s.policy
    decreases |moves|
  {
    hide Script;
    if moves != [] {
      StaysSynced(Step(s, moves[0]), moves[1..]);
    }
  }

  ghost predicate AllIntact(s: Aof) {
    forall i :: 0 <= i < |s.orphans| ==> s.orphans[i].intact
  }

  /** Under `Always`, every log is on disk as a whole when it is replaced. */
  lemma {:induction false} AlwaysIntact(s: Aof, moves: seq<Move>)
    requires s.policy == Always && s.synced && AllIntact(s)
    ensures AllIntact(Steps(s, moves))
    decreases |moves|
  {
    hide Script;
    if moves != [] {
      AlwaysIntact(Step(s, moves[0]), moves[1..]);
    }
  }

  /** What is left of the log in force: a prefix of it, with the synced rewrite it started from. */
  ghost predicate PrefixOfLog(s: Aof, p: Bytes) {
    p <= Log(s) && s.live.floor <= |p| && (Backed(s) ==> s.acked <= |p|)
  }

  /** What is left of a replaced log: all of it, or a prefix if it was dirty when it was replaced. */
  ghost predicate Remnant(f: File, p: Bytes) {
    if f.intact then p == f.os else p <= f.os && f.floor <= |p|
  }

  /**
   * Crash safety. Whenever the machine stops, the file left behind is a byte prefix of the log,
   * holding at least the synced snapshot it started from and, when promised, everything
   * acknowledged; or it is a log whose replacement by a rename had not reached the disk: exactly
   * that log, unless it was dirty when it was replaced, which under `Always` it never is. Between
   * operations the size counter is the length of the log.
   */
  lemma {:induction false} CrashSafety(policy: Fsync, bytes: Bytes, disk: Bytes, moves: seq<Move>, p: Bytes)
    requires disk <= bytes && CrashLeaves(Steps(Open(policy, bytes, disk), moves), p)
    ensures var s := Steps(Open(policy, bytes, disk), moves);
            && (PrefixOfLog(s, p) || exists i :: 0 <= i < |s.orphans| && Remnant(s.orphans[i], p))
            && (disk == bytes ==> s.synced && (policy == Always ==> AllIntact(s)))
            && (s.op == None ==> s.size == s.acked == |Log(s)|)
            && (s.op == None && Backed(s) ==> s.live.disk == Log(s))
  {
    var s := Steps(Open(policy, bytes, disk), moves);
    OpenOk(policy, bytes, disk);
    Reachable(Open(policy, bytes, disk), moves);
    if disk == bytes {
      StaysSynced(Open(policy, bytes, disk), moves);
      if policy == Always {
        AlwaysIntact(Open(policy, bytes, disk), moves);
      }
    }
    hide Steps, Open;
    CrashFrom(s, p);
  }

  lemma {:induction false} CrashFrom(s: Aof, p: Bytes)
    requires Inv(s) && CrashLeaves(s, p)
    ensures PrefixOfLog(s, p) || exists i :: 0 <= i < |s.orphans| && Remnant(s.orphans[i], p)
    ensures s.op == None ==> s.size == s.acked == |Log(s)|
    ensures s.op == None && Backed(s) ==> s.live.disk == Log(s)
  {
    assert s.live.os + [] == s.live.os;
    if Survives(s.live, p) {
      assert s.live.os <= Log(s);
    } else {
      var i :| 0 <= i < |s.orphans| && Survives(s.orphans[i], p);
      assert OrphanOk(s.orphans[i]);
      assert Remnant(s.orphans[i], p);
    }
  }

  /** Whatever the power failure leaves is the log up to some point, with everything acknowledged in it. */
  ghost predicate NothingLost(s: Aof) {
    forall p :: CrashLeaves(s, p) ==> p <= Log(s) && s.acked <= |p|
  }

  /** What a crash can lose, exactly: see `NothingPromisedIsLost`. */
  lemma {:induction false} LossFrom(s: Aof)
    requires Inv(s)
    ensures NothingLost(s)
            <==> && s.acked <= |s.live.disk|
                 && forall i :: 0 <= i < |s.orphans| ==> s.orphans[i].os <= Log(s) && s.acked <= |s.orphans[i].disk|
  {
    assert s.live.os <= Log(s);
    if NothingLost(s) {
      assert CrashLeaves(s, s.live.disk);
      forall i | 0 <= i < |s.orphans| ensures s.orphans[i].os <= Log(s) && s.acked <= |s.orphans[i].disk| {
        assert OrphanOk(s.orphans[i]);
        assert Survives(s.orphans[i], s.orphans[i].os) && CrashLeaves(s, s.orphans[i].os);
        assert Survives(s.orphans[i], s.orphans[i].disk) && CrashLeaves(s, s.orphans[i].disk);
      }
    }
  }

  /**
   * No crash loses what was acknowledged if and only if it is on disk in the log and in every log
   * that a rename still on its way may bring back, and none of those is at odds with the log.
   * Kept promises take care of the log itself. Between operations under `Always` what remains is
   * that every log still to be replaced on disk is the very log that replaced it.
   */
  lemma {:induction false} NothingPromisedIsLost(policy: Fsync, bytes: Bytes, disk: Bytes, moves: seq<Move>)
    requires disk <= bytes
    ensures var s := Steps(Open(policy, bytes, disk), moves);
            && (NothingLost(s)
                <==> && s.acked <= |s.live.disk|
                     && forall i :: 0 <= i < |s.orphans| ==> s.orphans[i].os <= Log(s) && s.acked <= |s.orphans[i].disk|)
            && (Backed(s) ==> s.acked <= |s.live.disk|)
            && (policy == Always && disk == bytes && s.op == None ==>
                  (NothingLost(s) <==> forall i :: 0 <= i < |s.orphans| ==> s.orphans[i].os == Log(s)))
  {
    var s0 := Open(policy, bytes, disk);
    var s := Steps(s0, moves);
    OpenOk(policy, bytes, disk);
    Reachable(s0, moves);
    LossFrom(s);
    if policy == Always && disk == bytes && s.op == None {
      StaysSynced(s0, moves);
      AlwaysIntact(s0, moves);
      hide Steps, NothingLost;
      forall i | 0 <= i < |s.orphans|
        ensures s.orphans[i].os == Log(s) <==> s.orphans[i].os <= Log(s) && s.acked <= |s.orphans[i].disk| {
        assert OrphanOk(s.orphans[i]);
      }
    }
  }

  function AppendRewriteAppend(first: Bytes, snapshot: Bytes, second: Bytes): seq<Move> {
    Whole(Always, Append(first)) + Whole(Always, Rewrite(snapshot)) + Whole(Always, Append(second))
  }

  /** The state after an append, a rewrite and another append. */
  lemma {:induction false} AfterThree(first: Bytes, snapshot: Bytes, second: Bytes)
    ensures var s := Steps(Open(Always, [], []), AppendRewriteAppend(first, snapshot, second));
            && s.op == None && s.acked == |snapshot + second| && Log(s) == snapshot + second
            && s.live.disk == snapshot + second
            && |s.orphans| == 1 && s.orphans[0].os == s.orphans[0].disk == first
  {
    var s0 := Open(Always, [], []);
    hide Script, PerformAll, Step;
    var a, b, c := Whole(Always, Append(first)), Whole(Always, Rewrite(snapshot)), Whole(Always, Append(second));
    AppendAlways(s0, first);
    WholeRuns(s0, Append(first));
    var s1 := Steps(s0, a);
    RewriteResult(s1, snapshot);
    WholeRuns(s1, Rewrite(snapshot));
    var s2 := Steps(s1, b);
    AppendAlways(s2, second);
    WholeRuns(s2, Append(second));
    StepsConcat(s0, a, b);
    StepsConcat(s0, a + b, c);
    assert [] + ([] + first) == first && snapshot + ([] + second) == snapshot + second && first + [] == first;
    assert snapshot + second + [] == snapshot + second;
  }

  /**
   * The condition is needed: the rename is not itself synced, so under `Always` an append that
   * follows a rewrite can be acknowledged and still be missing after a power failure. That is so
   * for every append, rewrite and append, unless the logs happen to be the same.
   */
  lemma {:induction false} RenameNotSynced(first: Bytes, snapshot: Bytes, second: Bytes)
    ensures var s := Steps(Open(Always, [], []), AppendRewriteAppend(first, snapshot, second));
            && s.op == None && s.acked == |snapshot + second| && s.live.disk == snapshot + second
            && CrashLeaves(s, first)
            && (NothingLost(s) <==> first == snapshot + second)
  {
    hide Steps, AppendRewriteAppend, NothingLost, Open;
    AfterThree(first, snapshot, second);
    NothingPromisedIsLost(Always, [], [], AppendRewriteAppend(first, snapshot, second));
    var s := Steps(Open(Always, [], []), AppendRewriteAppend(first, snapshot, second));
    assert Survives(s.orphans[0], first);
  }

  /**
   * So is the sync: `open` takes over a file of which the kernel may hold more than the disk, and
   * the dirty flag starts out down. Until the first sync a crash can lose the difference.
   */
  lemma {:induction false} OpenedNotSynced(policy: Fsync, bytes: Bytes, disk: Bytes)
    requires disk <= bytes
    ensures var s := Open(policy, bytes, disk);
            && Promised(s) && s.acked == |bytes| && CrashLeaves(s, disk)
            && (NothingLost(s) <==> disk == bytes)
            && (Backed(s) <==> disk == bytes)
            && NothingLost(Steps(s, Whole(policy, Sync)))
  {
    var s := Open(policy, bytes, disk);
    OpenOk(policy, bytes, disk);
    LossFrom(s);
    assert Steps(s, []) == s;
    var s' := Steps(s, Whole(policy, Sync));
    Reachable(s, Whole(policy, Sync));
    hide Script, PerformAll, Step;
    SyncResult(s);
    WholeRuns(s, Sync);
    LossFrom(s');
  }

  // ---------------------------------------------------------------- whole operations

  /** An operation run to its end with nothing in between. */
  function Whole(policy: Fsync, op: Operation): seq<Move> {
    [Begin(op)] + seq(|Script(policy, op)|, _ => Advance)
  }

  function PerformAll(s: Aof, script: seq<Action>, k: nat): Aof
    decreases |script| - k
  {
    if k >= |script| then s else PerformAll(Perform(s, script[k]), script, k + 1)
  }

  lemma {:induction false} StepsConcat(s: Aof, a: seq<Move>, b: seq<Move>)
    ensures Steps(s, a + b) == Steps(Steps(s, a), b)
    decreases |a|
  {
    hide Step;
    if a == [] {
      assert a + b == b;
    } else {
      assert (a + b)[0] == a[0] && (a + b)[1..] == a[1..] + b;
      StepsConcat(Step(s, a[0]), a[1..], b);
    }
  }

  lemma {:induction false} PerformFrame(s: Aof, a: Action)
    ensures Perform(s, a).op == s.op && Perform(s, a).pc == s.pc && Perform(s, a).policy == s.policy
    ensures forall op, pc :: Perform(s.(op := op, pc := pc), a) == Perform(s, a).(op := op, pc := pc)
  {
  }

  lemma {:induction false} AdvancesPerform(s: Aof, op: Operation, k: nat)
    requires s.op == None && s.pc == 0 && k < |Script(s.policy, op)|
    ensures Steps(s.(op := Some(op), pc := k), seq(|Script(s.policy, op)| - k, _ => Advance))
            == PerformAll(s, Script(s.policy, op), k)
    decreases |Script(s.policy, op)| - k
  {
    hide Perform, Script;
    var script := Script(s.policy, op);
    var moves := seq(|script| - k, _ => Advance);
    PerformFrame(s, script[k]);
    assert moves[0] == Advance && moves[1..] == seq(|script| - (k + 1), _ => Advance);
    if k + 1 < |script| {
      AdvancesPerform(Perform(s, script[k]), op, k + 1);
    } else {
      assert moves[1..] == [];
    }
  }

  /** Running an operation uninterrupted performs its actions in order. */
  lemma {:induction false} WholeRuns(s: Aof, op: Operation)
    requires s.op == None && s.pc == 0
    ensures Steps(s, Whole(s.policy, op)) == PerformAll(s, Script(s.policy, op), 0)
  {
    var script := Script(s.policy, op);
    var moves := Whole(s.policy, op);
    assert moves[0] == Begin(op) && moves[1..] == seq(|script|, _ => Advance);
    AdvancesPerform(s, op, 0);
  }

  lemma {:induction false} AppendAlways(s: Aof, frame: Bytes)
    requires s.policy == Always
    ensures var os := s.live.os + (s.buffer + frame);
            PerformAll(s, Script(Always, Append(frame)), 0)
            == s.(buffer := [], live := s.live.(os := os, disk := os), size := s.size + |frame|, acked := |os|, synced := true)
  {
    var script := Script(Always, Append(frame));
    var s1 := Perform(s, script[0]);
    var s2 := Perform(s1, script[1]);
    var s3 := Perform(s2, script[2]);
    var s4 := Perform(s3, script[3]);
    var s5 := Perform(s4, script[4]);
    assert PerformAll(s, script, 0) == PerformAll(s1, script, 1);
    assert PerformAll(s1, script, 1) == PerformAll(s2, script, 2);
    assert PerformAll(s2, script, 2) == PerformAll(s3, script, 3);
    assert PerformAll(s3, script, 3) == PerformAll(s4, script, 4);
    assert PerformAll(s4, script, 4) == PerformAll(s5, script, 5);
    assert PerformAll(s5, script, 5) == s5;
  }

  lemma {:induction false} AppendLazy(s: Aof, frame: Bytes)
    requires s.policy != Always
    ensures PerformAll(s, Script(s.policy, Append(frame)), 0)
            == s.(buffer := s.buffer + frame, dirty := true, size := s.size + |frame|,
                  acked := |s.live.os| + |s.buffer + frame|)
  {
    var script := Script(s.policy, Append(frame));
    var s1 := Perform(s, script[0]);
    var s2 := Perform(s1, script[1]);
    var s3 := Perform(s2, script[2]);
    var s4 := Perform(s3, script[3]);
    assert PerformAll(s, script, 0) == PerformAll(s1, script, 1);
    assert PerformAll(s1, script, 1) == PerformAll(s2, script, 2);
    assert PerformAll(s2, script, 2) == PerformAll(s3, script, 3);
    assert PerformAll(s3, script, 3) == PerformAll(s4, script, 4);
    assert PerformAll(s4, script, 4) == s4;
  }

  lemma {:induction false} SyncResult(s: Aof)
    ensures var os := s.live.os + s.buffer;
            PerformAll(s, Script(s.policy, Sync), 0)
            == s.(buffer := [], live := s.live.(os := os, disk := os), dirty := false, synced := true)
  {
    var script := Script(s.policy, Sync);
    var s1 := Perform(s, script[0]);
    var s2 := Perform(s1, script[1]);
    var s3 := Perform(s2, script[2]);
    assert PerformAll(s, script, 0) == PerformAll(s1, script, 1);
    assert PerformAll(s1, script, 1) == PerformAll(s2, script, 2);
    assert PerformAll(s2, script, 2) == PerformAll(s3, script, 3);
    assert PerformAll(s3, script, 3) == s3;
  }

  lemma {:induction false} RewriteResult(s: Aof, snapshot: Bytes)
    ensures var f := File(snapshot, snapshot, |snapshot|, false);
            PerformAll(s, Script(s.policy, Rewrite(snapshot)), 0)
            == s.(temp := f, live := f, orphans := s.orphans + [s.live.(os := s.live.os + s.buffer, intact := Backed(s))],
                  buffer := [], acked := |snapshot|, size := |snapshot|, dirty := false, synced := true)
  {
    var script := Script(s.policy, Rewrite(snapshot));
    var s1 := Perform(s, script[0]);
    var s2 := Perform(s1, script[1]);
    var s3 := Perform(s2, script[2]);
    var s4 := Perform(s3, script[3]);
    var s5 := Perform(s4, script[4]);
    var s6 := Perform(s5, script[5]);
    assert PerformAll(s, script, 0) == PerformAll(s1, script, 1);
    assert PerformAll(s1, script, 1) == PerformAll(s2, script, 2);
    assert PerformAll(s2, script, 2) == PerformAll(s3, script, 3);
    assert PerformAll(s3, script, 3) == PerformAll(s4, script, 4);
    assert PerformAll(s4, script, 4) == PerformAll(s5, script, 5);
    assert PerformAll(s5, script, 5) == PerformAll(s6, script, 6);
    assert PerformAll(s6, script, 6) == s6;
  }
}
