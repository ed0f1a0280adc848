/**
 * Who may write the snapshot file (src/persistence.rs, and BGSAVE in src/main.rs). Any number of
 * savers share one flag, one temporary path and one published path. SAVE, the periodic task and
 * the shutdown save take the flag once; BGSAVE takes it, lets go of it and takes it again.
 */
module SaveFlag {
  import opened Basics
  import opened Snapshot
  import opened Rdb

  /** A save: the records its walk yields and the time it started. */
  datatype Save = Save(codec: Codec, records: seq<Record>, now: nat)

  function Headed(save: Save): Bytes {
    MAGIC + [VERSION] + Le(save.now, 8)
  }

  /** The file before its count is patched. */
  function Draft(save: Save): Bytes {
    Headed(save) + Le(0, 8) + Frames(save.codec, Unexpired(save.records, save.now))
  }

  function Finished(save: Save): Bytes {
    Image(save.codec, save.records, save.now)
  }

  /** Where a saver is. From `Claimed` and from `Opening` to `Leaving` it counts on the flag. */
  datatype Phase =
    | Idle
    | Claimed(save: Save)
    | Waiting(save: Save)
    | Opening(save: Save)
    | Writing(save: Save, n: nat)
    | Patched(save: Save)
    | Leaving

  predicate Holds(ph: Phase) {
    !ph.Idle? && !ph.Waiting?
  }

  datatype State = State(flag: bool, phases: seq<Phase>, temp: Bytes, published: Option<Bytes>, saved: seq<Save>)

  datatype Step =
    | StartSave(p: nat, save: Save)
    | StartBgSave(p: nat, save: Save)
    | LetGo(p: nat)
    | TakeFlag(p: nat)
    | Create(p: nat)
    | Write(p: nat, len: nat)
    | PatchCount(p: nat)
    | Rename(p: nat)
    | Fail(p: nat)
    | ClearFlag(p: nat)

  function Zeros(n: nat): Bytes {
    seq(n, _ => 0)
  }

  /** Writing through a file handle positioned at `at`, whatever else has happened to the file. */
  function WriteAt(file: Bytes, at: nat, bytes: Bytes): Bytes {
    var f := if |file| < at then file + Zeros(at - |file|) else file;
    f[..at] + bytes + (if |f| > at + |bytes| then f[at + |bytes|..] else [])
  }

  function Move(s: State, p: nat, ph: Phase): State
    requires p < |s.phases|
  {
    s.(phases := s.phases[p := ph])
  }

  /** One step of one saver; a step that its phase does not allow changes nothing. */
  function Next(s: State, step: Step): State {
    if step.p >= |s.phases| then s
    else
      var p, ph := step.p, s.phases[step.p];
      match step
      case StartSave(_, save) => if ph.Idle? then Move(s, p, Waiting(save)) else s
      case StartBgSave(_, save) => if ph.Idle? && !s.flag then Move(s, p, Claimed(save)).(flag := true) else s
      case LetGo(_) => if ph.Claimed? then Move(s, p, Waiting(ph.save)).(flag := false) else s
      case TakeFlag(_) =>
        if !ph.Waiting? then s
        else if s.flag then Move(s, p, Idle)
        else Move(s, p, Opening(ph.save)).(flag := true)
      case Create(_) => if ph.Opening? then Move(s, p, Writing(ph.save, 0)).(temp := []) else s
      case Write(_, len) =>
        if ph.Writing? && ph.n + len <= |Draft(ph.save)|
        then Move(s, p, Writing(ph.save, ph.n + len)).(temp := WriteAt(s.temp, ph.n, Draft(ph.save)[ph.n..ph.n + len]))
        else s
      case PatchCount(_) =>
        if ph.Writing? && ph.n == |Draft(ph.save)|
        then Move(s, p, Patched(ph.save)).(temp := WriteAt(s.temp, COUNT_AT, Le(|Unexpired(ph.save.records, ph.save.now)|, 8)))
        else s
      case Rename(_) =>
        if ph.Patched?
        then Move(s, p, Leaving).(published := Some(s.temp), temp := [], saved := s.saved + [ph.save])
        else s
      case Fail(_) => if ph.Opening? || ph.Writing? || ph.Patched? then Move(s, p, Leaving) else s
      case ClearFlag(_) => if ph.Leaving? then Move(s, p, Idle).(flag := false) else s
  }

  function Runs(s: State, steps: seq<Step>): State
    decreases |steps|
  {
    if steps == [] then s else Runs(Next(s, steps[0]), steps[1..])
  }

  // ---------------------------------------------------------------- the invariant

  ghost predicate Held(s: State) {
    exists p :: 0 <= p < |s.phases| && Holds(s.phases[p])
  }

  /** The flag is up exactly when one saver counts on it. */
  ghost predicate Exclusive(s: State) {
    && (forall p, q :: 0 <= p < q < |s.phases| ==> !(Holds(s.phases[p]) && Holds(s.phases[q])))
    && (s.flag <==> Held(s))
  }

  /** The temporary file is what its writer has put there. */
  predicate Wrote(ph: Phase, temp: Bytes) {
    match ph
    case Writing(save, n) => n <= |Draft(save)| && temp == Draft(save)[..n]
    case Patched(save) => temp == Finished(save)
    case _ => true
  }

  ghost predicate Undisturbed(s: State) {
    forall p :: 0 <= p < |s.phases| ==> Wrote(s.phases[p], s.temp)
  }

  /** The published file is the complete image of the last save that got as far as its rename. */
  predicate Published(s: State, initial: Option<Bytes>) {
    s.published == if s.saved == [] then initial else Some(Finished(s.saved[|s.saved| - 1]))
  }

  // ---------------------------------------------------------------- what a writer's own steps do

  lemma {:induction false} ContinueDraft(draft: Bytes, n: nat, len: nat)
    requires n + len <= |draft|
    ensures WriteAt(draft[..n], n, draft[n..n + len]) == draft[..n + len]
  {
  }

  lemma {:induction false} PatchedDraft(save: Save)
    ensures WriteAt(Draft(save), COUNT_AT, Le(|Unexpired(save.records, save.now)|, 8)) == Finished(save)
  {
    hide Frames, Unexpired, Le;
    Patch(Headed(save), Le(0, 8), Frames(save.codec, Unexpired(save.records, save.now)));
  }

  lemma {:induction false} OwnWrite(s: State, p: nat, len: nat)
    requires p < |s.phases| && Wrote(s.phases[p], s.temp)
    ensures Wrote(Next(s, Write(p, len)).phases[p], Next(s, Write(p, len)).temp)
  {
    hide Draft, Finished, WriteAt;
    var ph := s.phases[p];
    if ph.Writing? && ph.n + len <= |Draft(ph.save)| {
      ContinueDraft(Draft(ph.save), ph.n, len);
    }
  }

  lemma {:induction false} OwnPatch(s: State, p: nat)
    requires p < |s.phases| && Wrote(s.phases[p], s.temp)
    ensures Wrote(Next(s, PatchCount(p)).phases[p], Next(s, PatchCount(p)).temp)
  {
    hide Draft, Finished, WriteAt;
    var ph := s.phases[p];
    if ph.Writing? && ph.n == |Draft(ph.save)| {
      assert Draft(ph.save)[..ph.n] == Draft(ph.save);
      PatchedDraft(ph.save);
    }
  }

  lemma {:induction false} OwnStep(s: State, step: Step)
    requires step.p < |s.phases| && Wrote(s.phases[step.p], s.temp)
    ensures Wrote(Next(s, step).phases[step.p], Next(s, step).temp)
  {
    hide Draft, Finished, WriteAt;
    if step.Write? {
      OwnWrite(s, step.p, step.len);
    } else if step.PatchCount? {
      OwnPatch(s, step.p);
    }
  }

  /** Only a holder touches the temporary file or clears the flag; only with the flag down is it taken. */
  lemma {:induction false} StepShape(s: State, step: Step)
    requires step.p < |s.phases|
    ensures var s' := Next(s, step);
            var before, after := Holds(s.phases[step.p]), Holds(s'.phases[step.p]);
            && |s'.phases| == |s.phases|
            && (forall q :: 0 <= q < |s.phases| && q != step.p ==> s'.phases[q] == s.phases[q])
            && (s'.temp != s.temp ==> before)
            && (!before && after ==> !s.flag && s'.flag)
            && (before && !after ==> !s'.flag)
            && (before == after ==> s'.flag == s.flag)
  {
    hide Draft, Finished, WriteAt;
  }

  lemma {:induction false} StepExclusive(s: State, step: Step)
    requires Exclusive(s)
    ensures Exclusive(Next(s, step))
  {
    if step.p < |s.phases| {
      StepShape(s, step);
      hide Next, Holds;
      var s', p := Next(s, step), step.p;
      if Holds(s.phases[p]) && !Holds(s'.phases[p]) {
        assert !Held(s');
      } else if Holds(s'.phases[p]) {
        assert Held(s');
      } else {
        assert Held(s) <==> Held(s') by {
          if q :| 0 <= q < |s.phases| && Holds(s.phases[q]) { assert Holds(s'.phases[q]); }
          if q :| 0 <= q < |s.phases| && Holds(s'.phases[q]) { assert Holds(s.phases[q]); }
        }
      }
    }
  }

  lemma {:induction false} StepUndisturbed(s: State, step: Step)
    requires Exclusive(s) && Undisturbed(s)
    ensures Undisturbed(Next(s, step))
  {
    if step.p < |s.phases| {
      StepShape(s, step);
      OwnStep(s, step);
      var s' := Next(s, step);
      hide Next, Draft, Finished;
      forall q | 0 <= q < |s'.phases| ensures Wrote(s'.phases[q], s'.temp) {
        assert Wrote(s.phases[q], s.temp);
      }
    }
  }

  lemma {:induction false} StepPublished(s: State, step: Step, initial: Option<Bytes>)
    requires Undisturbed(s) && Published(s, initial)
    ensures Published(Next(s, step), initial)
  {
    hide Draft, Finished, WriteAt;
    if step.p < |s.phases| {
      assert Wrote(s.phases[step.p], s.temp);
    }
  }

  lemma {:induction false} RunsKeep(s: State, steps: seq<Step>, initial: Option<Bytes>)
    requires Exclusive(s) && Undisturbed(s) && Published(s, initial)
    ensures var s' := Runs(s, steps);
            Exclusive(s') && Undisturbed(s') && Published(s', initial)
    decreases |steps|
  {
    hide Next, Exclusive, Undisturbed, Published;
    if steps != [] {
      StepExclusive(s, steps[0]);
      StepUndisturbed(s, steps[0]);
      StepPublished(s, steps[0], initial);
      RunsKeep(Next(s, steps[0]), steps[1..], initial);
    }
  }

  function Start(savers: nat, initial: Option<Bytes>): State {
    State(false, seq(savers, _ => Idle), [], initial, [])
  }

  /**
   * Saver mutual exclusion: under every interleaving of any savers, with failures anywhere, at
   * most one is ever between taking the flag and clearing it, the flag is up exactly then, its
   * temporary file is never disturbed, and the published file is always a complete image.
   */
  lemma {:induction false} MutualExclusion(savers: nat, initial: Option<Bytes>, steps: seq<Step>)
    ensures var s := Runs(Start(savers, initial), steps);
            && (forall p, q :: 0 <= p < q < |s.phases| ==> !(Holds(s.phases[p]) && Holds(s.phases[q])))
            && (s.flag <==> exists p :: 0 <= p < |s.phases| && Holds(s.phases[p]))
            && Undisturbed(s) && Published(s, initial)
  {
    hide Draft, Finished;
    RunsKeep(Start(savers, initial), steps, initial);
  }

  /** A save is refused if and only if another saver holds the flag at that moment. */
  lemma {:induction false} RefusedExactlyWhenHeld(s: State, p: nat)
    requires Exclusive(s) && p < |s.phases| && s.phases[p].Waiting?
    ensures Next(s, TakeFlag(p)).phases[p].Idle? <==> exists q :: 0 <= q < |s.phases| && q != p && Holds(s.phases[q])
  {
    if q :| 0 <= q < |s.phases| && Holds(s.phases[q]) {
      assert q != p;
    }
  }

  /** So an acknowledged BGSAVE can come to nothing: the flag is free for a moment after it was taken. */
  lemma {:induction false} AcknowledgedButRefused(bg: Save, other: Save)
    ensures var s := Runs(Start(2, None), [StartBgSave(0, bg)]);
            var s' := Runs(s, [LetGo(0), StartSave(1, other), TakeFlag(1), TakeFlag(0)]);
            && s.phases == [Claimed(bg), Idle] && s.flag
            && s'.phases == [Idle, Opening(other)] && s'.saved == []
  {
    var s0 := Start(2, None);
    assert s0.phases == [Idle, Idle];
    var s1 := Next(s0, StartBgSave(0, bg));
    assert s1.phases == [Claimed(bg), Idle];
    RunsCons(s0, StartBgSave(0, bg), []);
    assert [StartBgSave(0, bg)] + [] == [StartBgSave(0, bg)];
    var s2 := Next(s1, LetGo(0));
    assert s2.phases == [Waiting(bg), Idle];
    var s3 := Next(s2, StartSave(1, other));
    assert s3.phases == [Waiting(bg), Waiting(other)];
    var s4 := Next(s3, TakeFlag(1));
    assert s4.phases == [Waiting(bg), Opening(other)];
    var s5 := Next(s4, TakeFlag(0));
    assert s5.phases == [Idle, Opening(other)];
    var a, b, c, d := LetGo(0), StartSave(1, other), TakeFlag(1), TakeFlag(0);
    assert [a, b, c, d] == [a] + ([b] + ([c] + ([d] + [])));
    RunsCons(s1, a, [b] + ([c] + ([d] + [])));
    RunsCons(s2, b, [c] + ([d] + []));
    RunsCons(s3, c, [d] + []);
    RunsCons(s4, d, []);
  }

  lemma {:induction false} RunsCons(s: State, step: Step, steps: seq<Step>)
    ensures Runs(s, [step] + steps) == Runs(Next(s, step), steps)
  {
    assert ([step] + steps)[1..] == steps;
  }
}
