/**
 * From crash to restart. The file machine and the command run are put together: whatever bytes a
 * power failure leaves behind, a server that starts from them either refuses them as torn or
 * comes up with a store that the lost server had at some point.
 */
module Recovery {
  import opened Basics
  import opened Resp
  import opened LogReader
  import opened Store
  import opened Commands
  import opened Snapshot
  import opened Replaying
  import Durability

  type Operation = Durability.Operation

  // ---------------------------------------------------------------- what the file machine has done

  /** The operation whose effect on the log a move brings about, if any. */
  function EffectOf(s: Durability.Aof, m: Durability.Move): seq<Operation> {
    if m.Advance? && s.op.Some? && s.op.value.Append? && s.pc == 0 then [s.op.value]
    else if m.Advance? && s.op.Some? && s.op.value.Rewrite? && s.pc == 3 then [s.op.value]
    else []
  }

  function Effects(s: Durability.Aof, moves: seq<Durability.Move>): seq<Operation>
    decreases |moves|
  {
    if moves == [] then [] else EffectOf(s, moves[0]) + Effects(Durability.Step(s, moves[0]), moves[1..])
  }

  /** The log that a list of operations leaves of the file found at the start. */
  function LogAfter(start: Durability.File, ops: seq<Operation>): Bytes
    decreases |ops|
  {
    if ops == [] then start.os
    else
      match ops[|ops| - 1]
      case Append(frame) => LogAfter(start, ops[..|ops| - 1]) + frame
      case Rewrite(snapshot) => snapshot
      case Sync => LogAfter(start, ops[..|ops| - 1])
  }

  /** How much of it was on disk before it was put in place. */
  function FloorAfter(start: Durability.File, ops: seq<Operation>): nat
    decreases |ops|
  {
    if ops == [] then start.floor
    else
      match ops[|ops| - 1]
      case Rewrite(snapshot) => |snapshot|
      case _ => FloorAfter(start, ops[..|ops| - 1])
  }

  function RewriteOps(ops: seq<Operation>): nat {
    if ops == [] then 0
    else RewriteOps(ops[..|ops| - 1]) + (if ops[|ops| - 1].Rewrite? then 1 else 0)
  }

  /** A log file as it was when operation `i`, a rewrite, replaced it. */
  predicate ReplacedAt(start: Durability.File, f: Durability.File, ops: seq<Operation>, i: nat)
    requires i < |ops|
  {
    ops[i].Rewrite? && f.os == LogAfter(start, ops[..i]) && f.floor == FloorAfter(start, ops[..i])
  }

  /** A log file of the past, replaced by the `n`-th rewrite from the end. */
  ghost predicate Replaced(start: Durability.File, f: Durability.File, ops: seq<Operation>, n: nat) {
    exists i :: 0 <= i < |ops| && ReplacedAt(start, f, ops, i) && RewriteOps(ops) - RewriteOps(ops[..i]) == n
  }

  /** An append whose frame is in the log and that has not returned yet. */
  predicate InFlight(s: Durability.Aof) {
    s.op.Some? && s.op.value.Append? && s.pc > 0
  }

  ghost predicate History(start: Durability.File, s: Durability.Aof, ops: seq<Operation>) {
    && Durability.Inv(s)
    && Durability.Log(s) == LogAfter(start, ops) && s.live.floor == FloorAfter(start, ops)
    && (forall i :: 0 <= i < |s.orphans| ==> Replaced(start, s.orphans[i], ops, |s.orphans| - i))
    && (InFlight(s) ==> ops != [] && ops[|ops| - 1] == s.op.value)
  }

  lemma {:induction false} PastStays(start: Durability.File, f: Durability.File, ops: seq<Operation>, n: nat, op: Operation)
    requires Replaced(start, f, ops, n)
    ensures Replaced(start, f, ops + [op], n + if op.Rewrite? then 1 else 0)
  {
    hide LogAfter, FloorAfter;
    var i :| 0 <= i < |ops| && ReplacedAt(start, f, ops, i) && RewriteOps(ops) - RewriteOps(ops[..i]) == n;
    var ops' := ops + [op];
    assert ops'[..i] == ops[..i] && ops'[..|ops|] == ops;
    assert ReplacedAt(start, f, ops', i);
  }

  lemma {:induction false} NowIsPast(start: Durability.File, f: Durability.File, ops: seq<Operation>, op: Operation)
    requires f.os == LogAfter(start, ops) && f.floor == FloorAfter(start, ops) && op.Rewrite?
    ensures Replaced(start, f, ops + [op], 1)
  {
    hide LogAfter, FloorAfter;
    var ops' := ops + [op];
    assert ops'[..|ops|] == ops;
    assert ReplacedAt(start, f, ops', |ops|);
  }

  lemma {:induction false} LogAfterSnoc(start: Durability.File, ops: seq<Operation>, op: Operation)
    ensures LogAfter(start, ops + [op]) == match op
                                           case Append(frame) => LogAfter(start, ops) + frame
                                           case Rewrite(snapshot) => snapshot
                                           case Sync => LogAfter(start, ops)
    ensures FloorAfter(start, ops + [op]) == if op.Rewrite? then |op.snapshot| else FloorAfter(start, ops)
  {
    assert (ops + [op])[..|ops|] == ops;
  }

  lemma {:induction false} AppendHistory(start: Durability.File, s: Durability.Aof, ops: seq<Operation>)
    requires History(start, s, ops) && s.op.Some? && s.op.value.Append? && s.pc == 0
    ensures History(start, Durability.Step(s, Durability.Advance), ops + [s.op.value])
  {
    hide Durability.Inv, LogAfter, FloorAfter;
    var d := Durability.Step(s, Durability.Advance);
    Durability.StepKeeps(s, Durability.Advance);
    LogAfterSnoc(start, ops, s.op.value);
    assert s.live.os + (s.buffer + s.op.value.frame) == s.live.os + s.buffer + s.op.value.frame;
    hide Replaced;
    forall i | 0 <= i < |d.orphans| ensures Replaced(start, d.orphans[i], ops + [s.op.value], |d.orphans| - i) {
      PastStays(start, s.orphans[i], ops, |s.orphans| - i, s.op.value);
    }
  }

  /** What the swap does to the files: the walk is the log now, and the old log is an orphan. */
  lemma {:induction false} SwapMove(s: Durability.Aof)
    requires Durability.Inv(s) && s.op.Some? && s.op.value.Rewrite? && s.pc == 3
    ensures var d := Durability.Step(s, Durability.Advance);
            && Durability.Log(d) == s.op.value.snapshot && d.live.floor == |s.op.value.snapshot|
            && Durability.Log(s) == s.live.os && !InFlight(d)
            && d.orphans == s.orphans + [s.live.(intact := Durability.Backed(s))]
  {
    assert s.buffer == [] && s.temp.os == s.op.value.snapshot && s.temp.floor == |s.temp.os|;
    assert s.live.os + [] == s.live.os && s.temp.os + [] == s.temp.os;
  }

  lemma {:induction false} SwapHistory(start: Durability.File, s: Durability.Aof, ops: seq<Operation>)
    requires History(start, s, ops) && s.op.Some? && s.op.value.Rewrite? && s.pc == 3
    ensures History(start, Durability.Step(s, Durability.Advance), ops + [s.op.value])
  {
    hide Durability.Inv, Durability.Step, LogAfter, FloorAfter, Replaced;
    var d := Durability.Step(s, Durability.Advance);
    Durability.StepKeeps(s, Durability.Advance);
    SwapMove(s);
    LogAfterSnoc(start, ops, s.op.value);
    forall i | 0 <= i < |d.orphans| ensures Replaced(start, d.orphans[i], ops + [s.op.value], |d.orphans| - i) {
      if i == |s.orphans| {
        NowIsPast(start, d.orphans[i], ops, s.op.value);
      } else {
        PastStays(start, s.orphans[i], ops, |s.orphans| - i, s.op.value);
      }
    }
  }

  /** An append in flight was in flight before. */
  predicate StaysInFlight(s: Durability.Aof, d: Durability.Aof) {
    InFlight(d) ==> InFlight(s) && d.op == s.op
  }

  /** A step that leaves the log, its floor and the replaced logs as they are. */
  ghost predicate Untouched(s: Durability.Aof, d: Durability.Aof) {
    Durability.Log(d) == Durability.Log(s) && d.live.floor == s.live.floor && d.orphans == s.orphans && StaysInFlight(s, d)
  }

  lemma {:induction false} QuietAppend(s: Durability.Aof)
    requires s.op.Some? && s.op.value.Append? && s.pc > 0
    ensures Untouched(s, Durability.Step(s, Durability.Advance))
  {
    assert s.live.os + s.buffer + [] == s.live.os + s.buffer;
  }

  lemma {:induction false} QuietSync(s: Durability.Aof)
    requires s.op.Some? && s.op.value.Sync?
    ensures Untouched(s, Durability.Step(s, Durability.Advance))
  {
    assert s.live.os + s.buffer + [] == s.live.os + s.buffer;
  }

  lemma {:induction false} QuietRewrite(s: Durability.Aof)
    requires s.op.Some? && s.op.value.Rewrite? && s.pc != 3
    ensures Untouched(s, Durability.Step(s, Durability.Advance))
  {
    assert s.live.os + s.buffer + [] == s.live.os + s.buffer;
  }

  /** Everything else leaves the log as it is. */
  lemma {:induction false} QuietAdvance(s: Durability.Aof)
    requires s.op.Some? && EffectOf(s, Durability.Advance) == []
    ensures Untouched(s, Durability.Step(s, Durability.Advance))
  {
    hide Untouched, Durability.Step;
    match s.op.value
    case Append(_) => QuietAppend(s);
    case Sync => QuietSync(s);
    case Rewrite(_) => QuietRewrite(s);
  }

  lemma {:induction false} QuietMove(s: Durability.Aof, m: Durability.Move)
    requires Durability.Inv(s) && EffectOf(s, m) == []
    ensures Durability.Log(Durability.Step(s, m)) == Durability.Log(s)
    ensures Durability.Step(s, m).live.floor == s.live.floor
    ensures Durability.Step(s, m).orphans == s.orphans || Durability.Step(s, m).orphans == []
    ensures StaysInFlight(s, Durability.Step(s, m))
  {
    if m.Advance? && s.op.Some? {
      QuietAdvance(s);
    } else {
      hide Durability.Inv, Durability.Perform, Durability.Script;
      if m.Spill? && m.n <= |s.buffer| {
        assert s.live.os + s.buffer[..m.n] + s.buffer[m.n..] == Durability.Log(s);
      }
    }
  }

  lemma {:induction false} QuietHistory(start: Durability.File, s: Durability.Aof, m: Durability.Move, ops: seq<Operation>)
    requires History(start, s, ops) && EffectOf(s, m) == []
    ensures History(start, Durability.Step(s, m), ops)
  {
    hide Durability.Inv, Durability.Step, EffectOf, LogAfter, FloorAfter, Replaced;
    Durability.StepKeeps(s, m);
    QuietMove(s, m);
  }

  lemma {:induction false} MoveHistory(start: Durability.File, s: Durability.Aof, m: Durability.Move, ops: seq<Operation>)
    requires History(start, s, ops)
    ensures History(start, Durability.Step(s, m), ops + EffectOf(s, m))
  {
    hide Durability.Inv, Durability.Step, LogAfter, FloorAfter, Replaced;
    if EffectOf(s, m) == [] {
      QuietHistory(start, s, m, ops);
      assert ops + [] == ops;
    } else if s.op.value.Append? {
      AppendHistory(start, s, ops);
    } else {
      SwapHistory(start, s, ops);
    }
  }

  lemma {:induction false} RunHistory(start: Durability.File, s: Durability.Aof, moves: seq<Durability.Move>, ops: seq<Operation>)
    requires History(start, s, ops)
    ensures History(start, Durability.Steps(s, moves), ops + Effects(s, moves))
    decreases |moves|
  {
    hide History, EffectOf, Durability.Step;
    if moves == [] {
      assert ops + [] == ops;
    } else {
      MoveHistory(start, s, moves[0], ops);
      RunHistory(start, Durability.Step(s, moves[0]), moves[1..], ops + EffectOf(s, moves[0]));
      assert ops + EffectOf(s, moves[0]) + Effects(Durability.Step(s, moves[0]), moves[1..]) == ops + Effects(s, moves);
    }
  }

  // ---------------------------------------------------------------- what the command run has logged

  /** The operations on the log that one step of the run amounts to. */
  function OpsOfStep(step: Step): seq<Operation> {
    match step
    case Do(cmd, _) => if Logged(cmd) then [Durability.Append(EncodeCommand(cmd))] else []
    case Rewrite(records, at) => [Durability.Rewrite(EncodeAll(SnapshotCommands(records, at)))]
  }

  function OpsOf(steps: seq<Step>): seq<Operation> {
    if steps == [] then [] else OpsOf(steps[..|steps| - 1]) + OpsOfStep(steps[|steps| - 1])
  }

  /** The commands in the log of a server that started from `log0` and took these steps. */
  function LogOf(log0: seq<Command>, steps: seq<Step>): seq<Command>
    decreases |steps|
  {
    if steps == [] then log0
    else
      match steps[|steps| - 1]
      case Do(cmd, _) => LogOf(log0, steps[..|steps| - 1]) + (if Logged(cmd) then [cmd] else [])
      case Rewrite(records, at) => SnapshotCommands(records, at)
  }

  /** Its store. */
  ghost function StoreOf(cfg: Config, log0: seq<Command>, r0: nat, draws0: seq<seq<Pick>>, steps: seq<Step>): Db {
    LoggedRun(cfg, Started(cfg, log0, r0, draws0), log0, steps).0
  }

  /** The number of commands in the log just after the last rewrite. */
  function BaseOf(steps: seq<Step>): nat {
    if steps == [] then 0
    else
      var last := steps[|steps| - 1];
      if last.Rewrite? then |SnapshotCommands(last.records, last.at)| else BaseOf(steps[..|steps| - 1])
  }

  function Rewrites(steps: seq<Step>): nat {
    if steps == [] then 0
    else Rewrites(steps[..|steps| - 1]) + (if steps[|steps| - 1].Rewrite? then 1 else 0)
  }

  lemma {:induction false} LoggedRunSnoc(cfg: Config, db: Db, log: seq<Command>, steps: seq<Step>)
    requires steps != []
    ensures var (d, l) := LoggedRun(cfg, db, log, steps[..|steps| - 1]);
            LoggedRun(cfg, db, log, steps) == LoggedRun(cfg, d, l, [steps[|steps| - 1]])
    decreases |steps|
  {
    hide Execute, Logged, SnapshotCommands;
    var n := |steps| - 1;
    if n == 0 {
      assert steps == [steps[0]] && steps[..0] == [];
    } else {
      assert steps[..n][0] == steps[0] && steps[..n][1..] == steps[1..][..n - 1];
      match steps[0]
      case Do(cmd, at) =>
        LoggedRunSnoc(cfg, Execute(cfg, db, cmd, at, []).0, if Logged(cmd) then log + [cmd] else log, steps[1..]);
      case Rewrite(records, at) =>
        LoggedRunSnoc(cfg, db, SnapshotCommands(records, at), steps[1..]);
    }
  }

  /** The log does not depend on the store. */
  lemma {:induction false} LogOfRun(cfg: Config, db: Db, log0: seq<Command>, steps: seq<Step>)
    ensures LoggedRun(cfg, db, log0, steps).1 == LogOf(log0, steps)
    decreases |steps|
  {
    hide Execute, Logged, SnapshotCommands;
    if steps != [] {
      var before, last := steps[..|steps| - 1], steps[|steps| - 1];
      LogOfRun(cfg, db, log0, before);
      LoggedRunSnoc(cfg, db, log0, steps);
      assert [last][1..] == [];
      assert LogOf(log0, before) + [] == LogOf(log0, before);
    }
  }

  lemma {:induction false} BaseWithin(log0: seq<Command>, steps: seq<Step>)
    ensures BaseOf(steps) <= |LogOf(log0, steps)|
    decreases |steps|
  {
    hide Logged, SnapshotCommands;
    if steps != [] {
      BaseWithin(log0, steps[..|steps| - 1]);
    }
  }

  /** The bytes of the file machine are the frames of the run's log. */
  lemma {:induction false} BytesOfRun(start: Durability.File, log0: seq<Command>, steps: seq<Step>)
    requires start.os == EncodeAll(log0)
    ensures LogAfter(start, OpsOf(steps)) == EncodeAll(LogOf(log0, steps))
    ensures BaseOf(steps) <= |LogOf(log0, steps)|
    ensures |EncodeAll(LogOf(log0, steps)[..BaseOf(steps)])| <= FloorAfter(start, OpsOf(steps))
    ensures Rewrites(steps) == 0 ==> FloorAfter(start, OpsOf(steps)) == start.floor
    decreases |steps|
  {
    hide Logged, SnapshotCommands, EncodeCommand, EncodeAll, LogAfter, FloorAfter;
    BaseWithin(log0, steps);
    if steps == [] {
      NoOps(start);
      assert LogOf(log0, steps)[..0] == [];
    } else {
      var before, last := steps[..|steps| - 1], steps[|steps| - 1];
      BytesOfRun(start, log0, before);
      var l := LogOf(log0, before);
      match last
      case Do(cmd, _) =>
        if Logged(cmd) {
          LogAfterSnoc(start, OpsOf(before), Durability.Append(EncodeCommand(cmd)));
          EncodeSnoc(l, cmd);
          assert (l + [cmd])[..BaseOf(before)] == l[..BaseOf(before)];
        } else {
          assert OpsOf(before) + [] == OpsOf(before) && l + [] == l;
        }
      case Rewrite(records, at) =>
        var snap := SnapshotCommands(records, at);
        LogAfterSnoc(start, OpsOf(before), Durability.Rewrite(EncodeAll(snap)));
        assert snap[..|snap|] == snap;
    }
  }

  lemma {:induction false} EncodeSnoc(log: seq<Command>, cmd: Command)
    ensures EncodeAll(log + [cmd]) == EncodeAll(log) + EncodeCommand(cmd)
  {
    EncodeAllConcat(log, [cmd]);
    EncodeAllSingle(cmd);
  }

  lemma {:induction false} NoOps(start: Durability.File)
    ensures LogAfter(start, []) == start.os && FloorAfter(start, []) == start.floor && EncodeAll([]) == []
  {
  }

  /**
   * Every log the run can be cut back to was its log at some earlier step, or is a part of the log
   * that it started from.
   */
  lemma {:induction false} PastLog(log0: seq<Command>, steps: seq<Step>, k: nat) returns (kept: nat, j: nat)
    requires BaseOf(steps) <= k <= |LogOf(log0, steps)|
    ensures kept <= |log0| && j <= |steps| && (kept < |log0| ==> j == 0)
    ensures LogOf(log0[..kept], steps[..j]) == LogOf(log0, steps)[..k]
    ensures forall i :: j <= i < |steps| ==> steps[i].Do?
    decreases |steps|
  {
    hide Logged, SnapshotCommands;
    var log := LogOf(log0, steps);
    if k == |log| {
      kept, j := |log0|, |steps|;
      assert steps[..j] == steps && log[..k] == log && log0[..kept] == log0;
    } else if steps == [] {
      kept, j := k, 0;
    } else {
      var before := steps[..|steps| - 1];
      BaseWithin(log0, before);
      kept, j := PastLog(log0, before, k);
      hide LogOf;
      assert steps[..j] == before[..j];
      LastIsAppended(log0, steps);
      assert LogOf(log0, before)[..k] == log[..k];
    }
  }

  lemma {:induction false} LastIsAppended(log0: seq<Command>, steps: seq<Step>)
    requires steps != [] && steps[|steps| - 1].Do?
    ensures LogOf(log0, steps[..|steps| - 1]) <= LogOf(log0, steps) && |LogOf(log0, steps)| <= |LogOf(log0, steps[..|steps| - 1])| + 1
  {
    hide Logged;
  }

  /** The step that an operation on the log belongs to. */
  lemma {:induction false} OpAt(steps: seq<Step>, i: nat) returns (j: nat)
    requires i < |OpsOf(steps)|
    ensures j < |steps| && OpsOf(steps[..j]) == OpsOf(steps)[..i] && OpsOfStep(steps[j]) == [OpsOf(steps)[i]]
    decreases |steps|
  {
    hide OpsOfStep;
    var n := |steps| - 1;
    var before := steps[..n];
    AtMostOneOp(steps[n]);
    if i == |OpsOf(before)| {
      j := n;
      assert OpsOf(steps)[..i] == OpsOf(before);
    } else {
      j := OpAt(before, i);
      assert steps[..j] == before[..j];
      assert OpsOf(steps)[..i] == OpsOf(before)[..i];
    }
  }

  /** A step has at most one operation, and it is a rewrite exactly if the step is one. */
  lemma {:induction false} AtMostOneOp(step: Step)
    ensures |OpsOfStep(step)| <= 1
    ensures OpsOfStep(step) != [] ==> (OpsOfStep(step)[0].Rewrite? <==> step.Rewrite?)
    ensures step.Rewrite? ==> OpsOfStep(step) != []
    ensures step.Do? && OpsOfStep(step) != [] ==> OpsOfStep(step)[0].Append? && OpsOfStep(step)[0].frame != []
  {
    hide Logged, SnapshotCommands, EncodeAll;
  }

  lemma {:induction false} RewriteOpsSnoc(ops: seq<Operation>, op: Operation)
    ensures RewriteOps(ops + [op]) == RewriteOps(ops) + (if op.Rewrite? then 1 else 0)
  {
    assert (ops + [op])[..|ops|] == ops;
  }

  lemma {:induction false} RewritesAreOps(steps: seq<Step>)
    ensures RewriteOps(OpsOf(steps)) == Rewrites(steps)
    decreases |steps|
  {
    if steps != [] {
      hide OpsOfStep, RewriteOps;
      var before, last := steps[..|steps| - 1], steps[|steps| - 1];
      RewritesAreOps(before);
      AtMostOneOp(last);
      if OpsOfStep(last) == [] {
        assert OpsOf(before) + [] == OpsOf(before);
      } else {
        assert OpsOfStep(last) == [OpsOfStep(last)[0]];
        RewriteOpsSnoc(OpsOf(before), OpsOfStep(last)[0]);
      }
    }
  }

  /** After its last rewrite a run only appends, and every frame has bytes. */
  lemma {:induction false} OnlyAppends(steps: seq<Step>, j: nat)
    requires j <= |steps| && forall i :: j <= i < |steps| ==> steps[i].Do?
    ensures Rewrites(steps) == Rewrites(steps[..j])
    ensures OpsOf(steps[..j]) <= OpsOf(steps)
    ensures forall i :: |OpsOf(steps[..j])| <= i < |OpsOf(steps)| ==> OpsOf(steps)[i].Append? && OpsOf(steps)[i].frame != []
    decreases |steps|
  {
    hide OpsOfStep;
    if j == |steps| {
      assert steps[..j] == steps;
    } else {
      var before := steps[..|steps| - 1];
      assert before[..j] == steps[..j];
      OnlyAppends(before, j);
      AtMostOneOp(steps[|steps| - 1]);
    }
  }

  lemma {:induction false} LogGrows(start: Durability.File, ops: seq<Operation>, a: nat, b: nat)
    requires a <= b <= |ops| && forall i :: a <= i < |ops| ==> ops[i].Append? && ops[i].frame != []
    ensures |LogAfter(start, ops[..b])| >= |LogAfter(start, ops[..a])| + (b - a)
    decreases b
  {
    if a < b {
      LogGrows(start, ops, a, b - 1);
      assert ops[..b][..b - 1] == ops[..b - 1];
    }
  }

  // ---------------------------------------------------------------- what has been acknowledged

  /** How many of the operations have returned: all but an append in flight. */
  function Returned(s: Durability.Aof, ops: seq<Operation>): nat {
    if InFlight(s) && ops != [] then |ops| - 1 else |ops|
  }

  lemma {:induction false} AckedIsReturned(start: Durability.File, s: Durability.Aof, ops: seq<Operation>)
    requires History(start, s, ops)
    ensures s.acked == |LogAfter(start, ops[..Returned(s, ops)])|
  {
    assert ops[..|ops|] == ops;
    if InFlight(s) {
      LogAfterSnoc(start, ops[..|ops| - 1], s.op.value);
      assert ops == ops[..|ops| - 1] + [s.op.value];
      assert Durability.Appending(s, |s.op.value.frame|);
    } else {
      SettledLength(s);
    }
  }

  lemma {:induction false} SettledLength(s: Durability.Aof)
    requires Durability.Inv(s) && !InFlight(s)
    ensures s.acked == |Durability.Log(s)|
  {
  }

  /** A step that reached the log and whose append or rewrite has returned. */
  predicate HasReturned(s: Durability.Aof, steps: seq<Step>, i: nat)
    requires i < |steps|
  {
    OpsOfStep(steps[i]) != [] && |OpsOf(steps[..i + 1])| <= Returned(s, OpsOf(steps))
  }

  /** Every step that has returned is among the first `j`. */
  ghost predicate NoneReturnedAfter(s: Durability.Aof, steps: seq<Step>, j: nat) {
    forall i :: j <= i < |steps| ==> !HasReturned(s, steps, i)
  }

  /** What is acknowledged is no shorter than the log was before the first of the last appends. */
  lemma {:induction false} AckedSince(start: Durability.File, s: Durability.Aof, steps: seq<Step>, j: nat)
    requires History(start, s, OpsOf(steps)) && j <= |steps| && forall i :: j <= i < |steps| ==> steps[i].Do?
    ensures var a, t := |OpsOf(steps[..j])|, Returned(s, OpsOf(steps));
            a <= t ==> s.acked >= |LogAfter(start, OpsOf(steps[..j]))| + (t - a)
  {
    hide History, LogAfter, OpsOf, OpsOfStep, InFlight;
    var ops, a := OpsOf(steps), |OpsOf(steps[..j])|;
    AckedIsReturned(start, s, ops);
    OnlyAppends(steps, j);
    assert ops[..a] == OpsOf(steps[..j]);
    if a <= Returned(s, ops) {
      LogGrows(start, ops, a, Returned(s, ops));
    }
  }

  /** Byte counts order the steps after the last rewrite. */
  lemma {:induction false} AckedSteps(start: Durability.File, s: Durability.Aof, steps: seq<Step>, j: nat)
    requires History(start, s, OpsOf(steps)) && j <= |steps| && forall i :: j <= i < |steps| ==> steps[i].Do?
    requires s.acked <= |LogAfter(start, OpsOf(steps[..j]))|
    ensures NoneReturnedAfter(s, steps, j)
  {
    hide History, LogAfter, OpsOf, OpsOfStep, InFlight;
    AckedSince(start, s, steps, j);
    forall i | j <= i < |steps| ensures !HasReturned(s, steps, i) {
      assert steps[..i + 1][..i] == steps[..i] && steps[..i][..j] == steps[..j];
      OnlyAppends(steps[..i], j);
      OpsOfSnoc(steps[..i + 1]);
    }
  }

  lemma {:induction false} OpsOfSnoc(steps: seq<Step>)
    requires steps != []
    ensures OpsOf(steps) == OpsOf(steps[..|steps| - 1]) + OpsOfStep(steps[|steps| - 1])
  {
  }

  lemma {:induction false} CalmPrefix(cfg: Config, db: Db, steps: seq<Step>, j: nat)
    requires Calm(cfg, db, steps) && j <= |steps|
    ensures Calm(cfg, db, steps[..j])
    decreases |steps|
  {
    hide Execute, CalmStep;
    if j > 0 {
      assert steps[..j][0] == steps[0] && steps[..j][1..] == steps[1..][..j - 1];
      CalmPrefix(cfg, if steps[0].Do? then Execute(cfg, db, steps[0].cmd, steps[0].at, []).0 else db, steps[1..], j - 1);
    }
  }

  // ---------------------------------------------------------------- restart

  /** A file cut at or above its floor reads back as an earlier log of the run, or a part of its first log. */
  lemma {:induction false} CutLogIsPast(log0: seq<Command>, steps: seq<Step>, p: Bytes) returns (kept: nat, j: nat)
    requires AllFit(LogOf(log0, steps)) && BaseOf(steps) <= |LogOf(log0, steps)|
    requires p <= EncodeAll(LogOf(log0, steps)) && |EncodeAll(LogOf(log0, steps)[..BaseOf(steps)])| <= |p|
    ensures kept <= |log0| && j <= |steps| && (kept < |log0| ==> j == 0)
    ensures ReadLog(p).0 == LogOf(log0[..kept], steps[..j])
    ensures ReadLog(p).1 <==> p == EncodeAll(LogOf(log0[..kept], steps[..j]))
    ensures forall i :: j <= i < |steps| ==> steps[i].Do?
  {
    hide LogOf;
    var log := LogOf(log0, steps);
    var k := WholeFrames(log, |p|);
    assert p == EncodeAll(log)[..|p|];
    TornLog(log, |p|);
    FramesAboveBase(log, BaseOf(steps), |p|);
    kept, j := PastLog(log0, steps, k);
    EncodePrefix(log, k);
  }

  lemma {:induction false} EncodePrefix(log: seq<Command>, k: nat)
    requires k <= |log|
    ensures EncodeAll(log[..k]) <= EncodeAll(log)
    ensures k < |log| ==> |EncodeAll(log[..k])| < |EncodeAll(log)|
  {
    hide EncodeCommand;
    assert log == log[..k] + log[k..];
    EncodeAllConcat(log[..k], log[k..]);
    if k < |log| {
      FrameHasBytes(log[k]);
    }
  }

  /** A cut above the first `base` frames leaves at least those frames whole. */
  lemma {:induction false} FramesAboveBase(log: seq<Command>, base: nat, n: nat)
    requires base <= |log| && |EncodeAll(log[..base])| <= n
    ensures base <= WholeFrames(log, n)
    decreases |log|
  {
    hide EncodeCommand;
    if base > 0 {
      assert log[..base][0] == log[0] && log[..base][1..] == log[1..][..base - 1];
      FramesAboveBase(log[1..], base - 1, n - |EncodeCommand(log[0])|);
    }
  }

  /**
   * Crash recovery. A server without a memory limit starts from a file with the commands `log0`,
   * of which `disk` is on disk, and performs `steps`; its log file has been driven through `moves`,
   * in any interleaving with the buffering layers, and so far the steps are what has reached the
   * log. The power fails and leaves `p`. If the next start accepts `p`, its store is one the server
   * had after some number `j` of its steps, or one of a server that starts from the first `kept`
   * commands only, which cover `disk`. At most as many rewrites come after these steps as there
   * are renames still on their way to the disk. When durability was promised and what was found at
   * the start is on disk, all of `log0` is kept and every step that had returned is among them;
   * with a rename pending, the other possibility is that they end exactly before a rewrite whose
   * rename was pending.
   */
  lemma {:induction false} CrashRecovery(
    cfg: Config, log0: seq<Command>, disk: Bytes, r0: nat, draws0: seq<seq<Pick>>, steps: seq<Step>,
    policy: Durability.Fsync, moves: seq<Durability.Move>, p: Bytes, r: nat, draws: seq<seq<Pick>>)
    returns (kept: nat, j: nat)
    requires cfg.maxMemory == 0 && Calm(cfg, Started(cfg, log0, r0, draws0), steps)
    requires forall i :: 0 <= i <= |steps| ==> AllFit(LogOf(log0, steps[..i]))
    requires disk <= EncodeAll(log0)
    requires Effects(Durability.Open(policy, EncodeAll(log0), disk), moves) == OpsOf(steps)
    requires Durability.CrashLeaves(Durability.Steps(Durability.Open(policy, EncodeAll(log0), disk), moves), p)
    requires ReadLog(p).1
    ensures var s := Durability.Steps(Durability.Open(policy, EncodeAll(log0), disk), moves);
            && kept <= |log0| && j <= |steps|
            && SameShape(View(StoreOf(cfg, log0[..kept], r0, draws0, steps[..j]).entries),
                         View(ReplayDb(cfg, Fresh(cfg), ReadLog(p).0, r, draws).entries))
            && (kept < |log0| ==> j == 0 && disk <= EncodeAll(log0[..kept]))
            && Rewrites(steps) - Rewrites(steps[..j]) <= |s.orphans|
            && (s.orphans == [] ==> forall i :: j <= i < |steps| ==> steps[i].Do?)
            && (Durability.Backed(s) && Durability.AllIntact(s) ==>
                  && kept == |log0|
                  && (NoneReturnedAfter(s, steps, j) || (s.orphans != [] && j < |steps| && steps[j].Rewrite?)))
            && (disk == EncodeAll(log0) ==> kept == |log0| && s.synced)
            && (disk == EncodeAll(log0) && policy == Durability.Always ==> Durability.Backed(s) && Durability.AllIntact(s))
  {
    hide LogOf, Calm, SameShape, View, ReadLog, ReplayDb, AllFit, Fresh, NoneReturnedAfter, EncodeAll, Started, History, StoreOf;
    var s0 := Durability.Open(policy, EncodeAll(log0), disk);
    var s := Durability.Steps(s0, moves);
    if disk == EncodeAll(log0) {
      Durability.StaysSynced(s0, moves);
      if policy == Durability.Always {
        Durability.AlwaysIntact(s0, moves);
      }
    }
    OpenHistory(policy, EncodeAll(log0), disk);
    RunHistory(s0.live, s0, moves, []);
    assert [] + OpsOf(steps) == OpsOf(steps);
    hide Durability.Steps, Effects, OpsOf, Rewrites;
    kept, j := RecoveredLog(s0.live, log0, steps, s, p);
    EncodePrefix(log0, kept);
    PastReplays(cfg, log0, kept, r0, draws0, steps, j, r, draws);
  }

  /** The store after `j` steps, or at a start from fewer commands, is what its log rebuilds. */
  lemma {:induction false} PastReplays(
    cfg: Config, log0: seq<Command>, kept: nat, r0: nat, draws0: seq<seq<Pick>>, steps: seq<Step>, j: nat, r: nat,
    draws: seq<seq<Pick>>)
    requires cfg.maxMemory == 0 && Calm(cfg, Started(cfg, log0, r0, draws0), steps)
    requires kept <= |log0| && j <= |steps| && (kept < |log0| ==> j == 0)
    ensures SameShape(View(StoreOf(cfg, log0[..kept], r0, draws0, steps[..j]).entries),
                      View(ReplayDb(cfg, Fresh(cfg), LogOf(log0[..kept], steps[..j]), r, draws).entries))
  {
    hide LogOf, LoggedRun, SameShape, View, ReplayDb, Fresh, Started;
    if kept == |log0| {
      assert log0[..kept] == log0;
      CalmPrefix(cfg, Started(cfg, log0, r0, draws0), steps, j);
    }
    LogOfRun(cfg, Started(cfg, log0[..kept], r0, draws0), log0[..kept], steps[..j]);
    RunReplays(cfg, log0[..kept], r0, draws0, steps[..j], r, draws);
  }

  /** The commands read back are those of the log after `j` steps, wherever the file came from. */
  lemma {:induction false} RecoveredLog(
    start: Durability.File, log0: seq<Command>, steps: seq<Step>, s: Durability.Aof, p: Bytes) returns (kept: nat, j: nat)
    requires start.os == EncodeAll(log0) && forall i :: 0 <= i <= |steps| ==> AllFit(LogOf(log0, steps[..i]))
    requires History(start, s, OpsOf(steps)) && Durability.CrashLeaves(s, p)
    ensures kept <= |log0| && j <= |steps| && ReadLog(p).0 == LogOf(log0[..kept], steps[..j])
    ensures kept < |log0| ==> j == 0 && (ReadLog(p).1 ==> start.floor <= |EncodeAll(log0[..kept])|)
    ensures Rewrites(steps) - Rewrites(steps[..j]) <= |s.orphans|
    ensures s.orphans == [] ==> forall i :: j <= i < |steps| ==> steps[i].Do?
    ensures ReadLog(p).1 && Durability.Backed(s) && Durability.AllIntact(s)
            ==> kept == |log0| && (NoneReturnedAfter(s, steps, j) || (s.orphans != [] && j < |steps| && steps[j].Rewrite?))
  {
    hide LogOf, AllFit, OpsOf, History, NoneReturnedAfter, Rewrites, ReadLog, EncodeAll, Durability.Survives;
    if Durability.Survives(s.live, p) {
      kept, j := FromLive(start, log0, steps, s, p);
    } else {
      var i := SomeOrphan(s, p);
      kept, j := FromOrphan(start, log0, steps, s, i, p);
    }
  }

  lemma {:induction false} SomeOrphan(s: Durability.Aof, p: Bytes) returns (i: nat)
    requires Durability.CrashLeaves(s, p) && !Durability.Survives(s.live, p)
    ensures i < |s.orphans| && Durability.Survives(s.orphans[i], p)
  {
    i :| 0 <= i < |s.orphans| && Durability.Survives(s.orphans[i], p);
  }

  /** A file cut below the log that the server started from still holds what was on disk then. */
  lemma {:induction false} CutFile(start: Durability.File, log0: seq<Command>, steps: seq<Step>, p: Bytes) returns (kept: nat, j: nat)
    requires start.os == EncodeAll(log0) && AllFit(LogOf(log0, steps))
    requires p <= LogAfter(start, OpsOf(steps)) && FloorAfter(start, OpsOf(steps)) <= |p|
    ensures kept <= |log0| && j <= |steps| && (kept < |log0| ==> j == 0)
    ensures ReadLog(p).0 == LogOf(log0[..kept], steps[..j])
    ensures ReadLog(p).1 <==> p == EncodeAll(LogOf(log0[..kept], steps[..j]))
    ensures kept < |log0| && ReadLog(p).1 ==> start.floor <= |p| && p == EncodeAll(log0[..kept])
    ensures Rewrites(steps) == Rewrites(steps[..j]) && forall i :: j <= i < |steps| ==> steps[i].Do?
  {
    hide AllFit, EncodeAll, OpsOf, LogAfter, FloorAfter, ReadLog;
    BytesOfRun(start, log0, steps);
    kept, j := CutLogIsPast(log0, steps, p);
    OnlyAppends(steps, j);
    assert steps[..0] == [];
  }

  /** The file is the log in force. */
  lemma {:induction false} FromLive(
    start: Durability.File, log0: seq<Command>, steps: seq<Step>, s: Durability.Aof, p: Bytes) returns (kept: nat, j: nat)
    requires start.os == EncodeAll(log0) && forall i :: 0 <= i <= |steps| ==> AllFit(LogOf(log0, steps[..i]))
    requires History(start, s, OpsOf(steps)) && Durability.Survives(s.live, p)
    ensures kept <= |log0| && j <= |steps| && ReadLog(p).0 == LogOf(log0[..kept], steps[..j])
    ensures kept < |log0| ==> j == 0 && (ReadLog(p).1 ==> start.floor <= |EncodeAll(log0[..kept])|)
    ensures Rewrites(steps) == Rewrites(steps[..j]) && forall i :: j <= i < |steps| ==> steps[i].Do?
    ensures ReadLog(p).1 && Durability.Backed(s) ==> kept == |log0| && NoneReturnedAfter(s, steps, j)
  {
    hide LogOf, AllFit, EncodeAll, OpsOf, LogAfter, FloorAfter, NoneReturnedAfter, Rewrites, ReadLog, Replaced;
    assert steps[..|steps|] == steps;
    assert s.live.os <= Durability.Log(s);
    kept, j := CutFile(start, log0, steps, p);
    if ReadLog(p).1 && Durability.Backed(s) {
      assert s.acked <= |p|;
      if kept < |log0| {
        LostStart(start, log0, steps, s, kept);
        assert false;
      }
      assert log0[..kept] == log0;
      BytesOfRun(start, log0, steps[..j]);
      AckedSteps(start, s, steps, j);
    }
  }

  /** Without a rewrite, what is acknowledged is longer than any part of the log found at the start. */
  lemma {:induction false} LostStart(start: Durability.File, log0: seq<Command>, steps: seq<Step>, s: Durability.Aof, kept: nat)
    requires start.os == EncodeAll(log0) && History(start, s, OpsOf(steps)) && kept < |log0|
    requires forall i :: 0 <= i < |steps| ==> steps[i].Do?
    ensures |EncodeAll(log0[..kept])| < s.acked
  {
    hide EncodeAll, History, InFlight;
    EncodePrefix(log0, kept);
    assert steps[..0] == [];
    AckedSince(start, s, steps, 0);
    NoOps(start);
  }

  /** The file is a log whose replacement had not reached the disk. */
  lemma {:induction false} FromOrphan(
    start: Durability.File, log0: seq<Command>, steps: seq<Step>, s: Durability.Aof, i: nat, p: Bytes) returns (kept: nat, j: nat)
    requires start.os == EncodeAll(log0) && forall n :: 0 <= n <= |steps| ==> AllFit(LogOf(log0, steps[..n]))
    requires History(start, s, OpsOf(steps)) && i < |s.orphans| && Durability.Survives(s.orphans[i], p)
    ensures kept <= |log0| && j <= |steps| && ReadLog(p).0 == LogOf(log0[..kept], steps[..j])
    ensures kept < |log0| ==> j == 0 && (ReadLog(p).1 ==> start.floor <= |EncodeAll(log0[..kept])|)
    ensures Rewrites(steps) - Rewrites(steps[..j]) == |s.orphans| - i
    ensures s.orphans[i].intact ==> kept == |log0| && j < |steps| && steps[j].Rewrite?
  {
    hide LogOf, AllFit, EncodeAll, OpsOf, LogAfter, FloorAfter, Rewrites, RewriteOps, ReadLog;
    var f, ops := s.orphans[i], OpsOf(steps);
    assert Durability.OrphanOk(f) && Replaced(start, f, ops, |s.orphans| - i);
    var n :| 0 <= n < |ops| && ReplacedAt(start, f, ops, n) && RewriteOps(ops) - RewriteOps(ops[..n]) == |s.orphans| - i;
    var m := OpAt(steps, n);
    AtMostOneOp(steps[m]);
    hide History, Replaced, OpsOfStep;
    RewritesAreOps(steps);
    RewritesAreOps(steps[..m]);
    if f.intact {
      BytesOfRun(start, log0, steps[..m]);
      kept, j := |log0|, m;
      assert log0[..kept] == log0;
      assert p == f.os == EncodeAll(LogOf(log0, steps[..m]));
      LogRoundTrip(LogOf(log0, steps[..m]));
    } else {
      kept, j := CutFile(start, log0, steps[..m], p);
      assert steps[..m][..j] == steps[..j];
    }
  }

  lemma {:induction false} OpenHistory(policy: Durability.Fsync, bytes: Bytes, disk: Bytes)
    requires disk <= bytes
    ensures History(Durability.Open(policy, bytes, disk).live, Durability.Open(policy, bytes, disk), [])
  {
    Durability.OpenOk(policy, bytes, disk);
    assert bytes + [] == bytes;
  }
}
