/**
 * The memory counter under concurrency. A string command changes a shard map in one atomic step
 * and the global counter in later ones (src/store.rs, src/main.rs), and any number of commands
 * interleave. The counter is a 64-bit word: `fetch_sub` wraps around.
 */
module ConcurrentCounter {
  import opened Basics
  import opened S3Fifo
  import opened Store
  import opened Accounting

  const WORD: nat := U64_MAX + 1

  /** An atomic change of one shard map: `insert`, `remove`, or `remove_if` on the expiry. */
  datatype Action =
    | Put(key: Bytes, entry: Entry)
    | Remove(key: Bytes)
    | RemoveExpired(key: Bytes, now: nat)

  function Apply(entries: map<Bytes, Entry>, a: Action): map<Bytes, Entry> {
    match a
    case Put(k, e) => entries[k := e]
    case Remove(k) => entries - {k}
    case RemoveExpired(k, now) => if k in entries && Expired(entries[k].expiry, now) then entries - {k} else entries
  }

  /** The counter updates a map change leaves its thread to make, in program order. */
  ghost function Debts(entries: map<Bytes, Entry>, a: Action): seq<int> {
    match a
    case Put(k, e) => (if k in entries then [0 - EntrySize(k, entries[k])] else []) + [EntrySize(k, e) as int]
    case Remove(k) => if k in entries then [0 - EntrySize(k, entries[k])] else []
    case RemoveExpired(k, now) =>
      if k in entries && Expired(entries[k].expiry, now) then [0 - EntrySize(k, entries[k])] else []
  }

  // ---------------------------------------------------------------- what commands do

  /** Commands and background passes; `victims` are the evictions a write makes room with. */
  datatype Job =
    | SetJob(victims: seq<Bytes>, key: Bytes, entry: Entry)
    | RefusedJob(victims: seq<Bytes>)
    | ReadJob(key: Bytes, now: nat)
    | DelJob(keys: seq<Bytes>)
    | IncrJob(key: Bytes, now: nat, victims: seq<Bytes>, entry: Entry)
    | MSetJob(victims: seq<Bytes>, pairs: seq<(Bytes, Entry)>)
    | SampleJob(keys: seq<Bytes>, now: nat)

  function Removals(keys: seq<Bytes>): seq<Action> {
    seq(|keys|, i requires 0 <= i < |keys| => Remove(keys[i]))
  }

  function PlanOf(job: Job): seq<Action> {
    match job
    case SetJob(victims, k, e) => Removals(victims) + [Put(k, e)]
    case RefusedJob(victims) => Removals(victims)
    case ReadJob(k, now) => [RemoveExpired(k, now)]
    case DelJob(keys) => Removals(keys)
    case IncrJob(k, now, victims, e) => [RemoveExpired(k, now)] + Removals(victims) + [Put(k, e)]
    case MSetJob(victims, pairs) =>
      Removals(victims) + seq(|pairs|, i requires 0 <= i < |pairs| => Put(pairs[i].0, pairs[i].1))
    case SampleJob(keys, now) => seq(|keys|, i requires 0 <= i < |keys| => RemoveExpired(keys[i], now))
  }

  // ---------------------------------------------------------------- the interleaving machine

  /** A thread: the map changes still ahead, and the counter updates owed for the last one made. */
  datatype Thread = Thread(todo: seq<Action>, owed: seq<int>)

  const IDLE: Thread := Thread([], [])

  datatype Server = Server(entries: map<Bytes, Entry>, counter: int, threads: seq<Thread>)

  datatype Step =
    | Begin(t: nat, job: Job)
    | Act(t: nat)
    | Settle(t: nat)

  ghost function WithThread(s: Server, t: nat, th: Thread): Server
    requires t < |s.threads|
  {
    s.(threads := s.threads[t := th])
  }

  /** One atomic step of one thread; a step that is not possible changes nothing. */
  ghost function Next(s: Server, step: Step): Server {
    if step.t >= |s.threads| then s
    else
      var th := s.threads[step.t];
      match step
      case Begin(t, job) => if th == IDLE then WithThread(s, t, Thread(PlanOf(job), [])) else s
      case Act(t) =>
        if th.owed != [] || th.todo == [] then s
        else WithThread(s, t, Thread(th.todo[1..], Debts(s.entries, th.todo[0]))).(entries := Apply(s.entries, th.todo[0]))
      case Settle(t) =>
        if th.owed == [] then s
        else WithThread(s, t, th.(owed := th.owed[1..])).(counter := (s.counter + th.owed[0]) % WORD)
  }

  ghost function Runs(s: Server, steps: seq<Step>): Server
    decreases |steps|
  {
    if steps == [] then s else Runs(Next(s, steps[0]), steps[1..])
  }

  // ---------------------------------------------------------------- the invariant

  function Sum(xs: seq<int>): int {
    if xs == [] then 0 else xs[0] + Sum(xs[1..])
  }

  lemma {:induction false} SumFew(x: int, y: int)
    ensures Sum([x, y]) == x + y && Sum([y]) == y
  {
    assert [x, y][1..] == [y] && [y][1..] == [];
    assert Sum([y]) == y;
    assert Sum([x, y]) == x + Sum([x, y][1..]);
  }

  /** Everything all threads still owe the counter. */
  function Pending(threads: seq<Thread>): int {
    if threads == [] then 0 else Sum(threads[0].owed) + Pending(threads[1..])
  }

  /** The counter plus what is pending is the true total, modulo the word size. */
  ghost predicate Balanced(s: Server) {
    && 0 <= s.counter < WORD
    && (s.counter + Pending(s.threads) - Total(s.entries)) % WORD == 0
  }

  lemma {:induction false} PendingChange(threads: seq<Thread>, t: nat, th: Thread)
    requires t < |threads|
    ensures Pending(threads[t := th]) == Pending(threads) - Sum(threads[t].owed) + Sum(th.owed)
  {
    if t == 0 {
      assert threads[0 := th][1..] == threads[1..];
    } else {
      assert threads[t := th][1..] == threads[1..][t - 1 := th];
      PendingChange(threads[1..], t - 1, th);
    }
  }

  /** A map change moves the total by exactly what it leaves owed. */
  lemma {:induction false} DebtsAreExact(entries: map<Bytes, Entry>, a: Action)
    ensures Total(Apply(entries, a)) == Total(entries) + Sum(Debts(entries, a))
  {
    match a {
      case Put(k, e) =>
        TotalPut(entries, k, e);
        SumFew(0 - SizeAt(entries, k), EntrySize(k, e));
      case Remove(k) => RemovalIsExact(entries, k);
      case RemoveExpired(k, now) => RemovalIsExact(entries, k);
    }
  }

  lemma {:induction false} RemovalIsExact(entries: map<Bytes, Entry>, k: Bytes)
    ensures Total(entries - {k}) == Total(entries) - SizeAt(entries, k)
  {
    if k in entries {
      TotalDrop(entries, k);
    } else {
      assert entries - {k} == entries;
    }
  }

  lemma {:induction false} Wraps(counter: int, delta: int, rest: int)
    requires (counter + rest) % WORD == 0
    ensures ((counter + delta) % WORD + rest - delta) % WORD == 0
  {
  }

  lemma {:induction false} StepBalanced(s: Server, step: Step)
    requires Balanced(s)
    ensures Balanced(Next(s, step))
  {
    if step.t < |s.threads| {
      var th := s.threads[step.t];
      PendingChange(s.threads, step.t, if Next(s, step) == s then th else Next(s, step).threads[step.t]);
      match step {
        case Begin(_, _) =>
        case Act(_) =>
          if th.owed == [] && th.todo != [] {
            DebtsAreExact(s.entries, th.todo[0]);
          }
        case Settle(_) =>
          if th.owed != [] {
            Wraps(s.counter, th.owed[0], Pending(s.threads) - Total(s.entries));
          }
      }
    }
  }

  ghost predicate Quiet(s: Server) {
    forall t :: 0 <= t < |s.threads| ==> s.threads[t].owed == []
  }

  lemma {:induction false} QuietOwesNothing(threads: seq<Thread>)
    requires forall t :: 0 <= t < |threads| ==> threads[t].owed == []
    ensures Pending(threads) == 0
  {
    if threads != [] {
      QuietOwesNothing(threads[1..]);
    }
  }

  lemma {:induction false} RunsBalanced(s: Server, steps: seq<Step>)
    requires Balanced(s)
    ensures Balanced(Runs(s, steps))
    decreases |steps|
  {
    hide Balanced;
    if steps != [] {
      StepBalanced(s, steps[0]);
      RunsBalanced(Next(s, steps[0]), steps[1..]);
    }
  }

  /**
   * Under every interleaving of any number of commands, the counter plus the pending updates is
   * the total size of the entries modulo 2^64. It is off by exactly what is pending if and only if
   * that leaves a number that fits a word, and otherwise it has wrapped around. It is exact if and
   * only if what is pending adds up to nothing, as it does whenever no update is pending.
   */
  lemma {:induction false} EveryInterleaving(s: Server, steps: seq<Step>)
    requires Quiet(s) && s.counter == Total(s.entries) < WORD
    ensures var s' := Runs(s, steps);
            var total, pending := Total(s'.entries), Pending(s'.threads);
            && 0 <= s'.counter < WORD
            && (s'.counter + pending) % WORD == total % WORD
            && (s'.counter == total - pending <==> 0 <= total - pending < WORD)
            && (total < WORD ==> (s'.counter == total <==> pending % WORD == 0))
            && (Quiet(s') ==> pending == 0 && (total < WORD ==> s'.counter == total))
  {
    hide Runs, Total, Quiet;
    assert Balanced(s) by { QuietCounter(s); }
    RunsBalanced(s, steps);
    var s' := Runs(s, steps);
    CounterOff(s'.counter, Pending(s'.threads), Total(s'.entries));
    if Quiet(s') {
      NothingPending(s');
    }
  }

  lemma {:induction false} NothingPending(s: Server)
    requires Quiet(s)
    ensures Pending(s.threads) == 0
  {
    QuietOwesNothing(s.threads);
  }

  /** How a wrapped counter relates to the total it stands for. */
  lemma {:induction false} CounterOff(counter: int, pending: int, total: int)
    requires 0 <= counter < WORD && (counter + pending - total) % WORD == 0 && total >= 0
    ensures (counter + pending) % WORD == total % WORD
    ensures counter == total - pending <==> 0 <= total - pending < WORD
    ensures total < WORD ==> (counter == total <==> pending % WORD == 0)
  {
    SameRemainder(counter + pending, total);
    var q := (counter + pending - total) / WORD;
    assert counter + pending - total == WORD * q;
    if pending % WORD == 0 && total < WORD {
      var n := pending / WORD;
      assert counter - total == WORD * (q - n);
    }
  }

  /** With nothing pending, a balanced counter is an exact one. */
  lemma {:induction false} QuietCounter(s: Server)
    requires Quiet(s) && 0 <= s.counter < WORD && Total(s.entries) < WORD
    ensures Balanced(s) <==> s.counter == Total(s.entries)
  {
    QuietOwesNothing(s.threads);
  }

  lemma {:induction false} SameRemainder(a: int, b: int)
    requires (a - b) % WORD == 0
    ensures a % WORD == b % WORD
  {
  }

  /**
   * In between it need not be close: a deletion can settle before the insertion it undoes, and
   * the counter is then a huge number although the store is empty.
   */
  lemma {:induction false} TransientWrap(k: Bytes, v: Bytes)
    requires |k| + |v| + 64 < WORD
    ensures var s := Server(map[], 0, [IDLE, IDLE]);
            var job := SetJob([], k, Entry(Str(v), None, Small, 0));
            var s' := Runs(s, [Begin(0, job), Act(0), Begin(1, DelJob([k])), Act(1), Settle(1)]);
            s'.entries == map[] && s'.counter == WORD - (|k| + |v| + 64)
  {
    hide Next, Runs;
    var e := Entry(Str(v), None, Small, 0);
    var s := Server(map[], 0, [IDLE, IDLE]);
    InsertedUnsettled(k, e);
    DeletedAndSettled(k, e);
    RunFive(s, Begin(0, SetJob([], k, e)), Act(0), Begin(1, DelJob([k])), Act(1), Settle(1));
  }

  lemma {:induction false} InsertedUnsettled(k: Bytes, e: Entry)
    ensures Next(Next(Server(map[], 0, [IDLE, IDLE]), Begin(0, SetJob([], k, e))), Act(0))
            == Server(map[k := e], 0, [Thread([], [EntrySize(k, e) as int]), IDLE])
  {
    var s1 := Next(Server(map[], 0, [IDLE, IDLE]), Begin(0, SetJob([], k, e)));
    assert Removals([]) + [Put(k, e)] == [Put(k, e)];
    assert s1 == Server(map[], 0, [Thread([Put(k, e)], []), IDLE]);
    var s2 := Next(s1, Act(0));
    assert [Put(k, e)][1..] == [] && Debts(map[], Put(k, e)) == [EntrySize(k, e) as int];
    assert s2.threads == [Thread([], [EntrySize(k, e) as int]), IDLE];
  }

  lemma {:induction false} DeletedAndSettled(k: Bytes, e: Entry)
    requires 0 < EntrySize(k, e) < WORD
    ensures var s := Server(map[k := e], 0, [Thread([], [EntrySize(k, e) as int]), IDLE]);
            var s' := Next(Next(Next(s, Begin(1, DelJob([k]))), Act(1)), Settle(1));
            s'.entries == map[] && s'.counter == WORD - EntrySize(k, e)
  {
  }

  lemma {:induction false} RunsCons(s: Server, step: Step, steps: seq<Step>)
    ensures Runs(s, [step] + steps) == Runs(Next(s, step), steps)
  {
  }

  lemma {:induction false} RunFive(s: Server, a: Step, b: Step, c: Step, d: Step, e: Step)
    ensures Runs(s, [a, b, c, d, e]) == Next(Next(Next(Next(Next(s, a), b), c), d), e)
  {
    hide Next;
    var s2 := Next(Next(s, a), b);
    var s4 := Next(Next(s2, c), d);
    assert [a, b, c, d, e] == [a] + ([b] + ([c] + ([d] + ([e] + []))));
    RunsCons(s, a, [b] + ([c] + ([d] + ([e] + []))));
    RunsCons(Next(s, a), b, [c] + ([d] + ([e] + [])));
    RunsCons(s2, c, [d] + ([e] + []));
    RunsCons(Next(s2, c), d, [e] + []);
    RunsCons(s4, e, []);
  }

  // ---------------------------------------------------------------- agreement with the sequential store

  /** The actions, each settled at once, are the operations of the sequential store. */
  lemma {:induction false} ActionsAreOperations(cfg: Config, db: Db, k: Bytes, v: Bytes, ttl: Option<nat>, now: nat)
    requires cfg.maxMemory > 0
    ensures var d := SetAndCharge(cfg, db, k, v, ttl, now);
            d.entries == Apply(db.entries, Put(k, d.entries[k]))
            && d.used == db.used + Sum(Debts(db.entries, Put(k, d.entries[k])))
    ensures var d := Delete(cfg, db, k);
            d.entries == Apply(db.entries, Remove(k)) && d.used == db.used + Sum(Debts(db.entries, Remove(k)))
    ensures var d := Reap(cfg, db, k, now);
            d.entries == Apply(db.entries, RemoveExpired(k, now))
            && d.used == db.used + Sum(Debts(db.entries, RemoveExpired(k, now)))
    ensures k in db.entries ==>
              var d := Expel(db, k).0;
              d.entries == Apply(db.entries, Remove(k)) && d.used == db.used + Sum(Debts(db.entries, Remove(k)))
  {
    var d := SetAndCharge(cfg, db, k, v, ttl, now);
    SumFew(0 - SizeAt(db.entries, k), EntrySize(k, d.entries[k]));
    SumFew(0, 0 - SizeAt(db.entries, k));
    assert k !in db.entries ==> db.entries - {k} == db.entries;
  }
}
