/** SET from outside: what its options mean, in any order and letter case, and what follows for locks. */
module Setting {
  import opened Basics
  import opened Decimal
  import opened Store
  import opened Commands
  import opened Names
  import opened Reference
  import opened Clients

  /** An option as a client means it. */
  datatype Opt = Ex(n: nat) | Px(n: nat) | Nx | Xx | GetOld

  /** The arguments write these options, one after another. */
  ghost predicate Writes(args: Command, opts: seq<Opt>)
    decreases |opts|
  {
    if opts == [] then args == []
    else
      match opts[0]
      case Ex(n) => |args| >= 2 && Spells(args[0], "EX") && ParseU64(args[1]) == Some(n) && Writes(args[2..], opts[1..])
      case Px(n) => |args| >= 2 && Spells(args[0], "PX") && ParseU64(args[1]) == Some(n) && Writes(args[2..], opts[1..])
      case Nx => args != [] && Spells(args[0], "NX") && Writes(args[1..], opts[1..])
      case Xx => args != [] && Spells(args[0], "XX") && Writes(args[1..], opts[1..])
      case GetOld => args != [] && Spells(args[0], "GET") && Writes(args[1..], opts[1..])
  }

  predicate Timed(o: Opt) {
    o.Ex? || o.Px?
  }

  /** The whole seconds of an option: as given, or the fewest that cover its milliseconds. */
  predicate Covers(o: Opt, t: nat) {
    match o
    case Ex(n) => t == n
    case Px(n) => 1000 * (t - 1) < n <= 1000 * t
    case _ => false
  }

  ghost predicate LastTimed(opts: seq<Opt>, i: nat)
    requires i < |opts|
  {
    Timed(opts[i]) && forall j :: i < j < |opts| ==> !Timed(opts[j])
  }

  /** The lifetime that the last timed option gives. */
  ghost predicate Lifetime(opts: seq<Opt>, ttl: Option<nat>) {
    match ttl
    case None => forall i :: 0 <= i < |opts| ==> !Timed(opts[i])
    case Some(t) => exists i :: 0 <= i < |opts| && LastTimed(opts, i) && Covers(opts[i], t)
  }

  predicate Positive(opts: seq<Opt>) {
    forall i :: 0 <= i < |opts| && Timed(opts[i]) ==> opts[i].n > 0
  }

  // ---------------------------------------------------------------- how the options are read

  function SecondsOf(o: Opt): nat
    requires Timed(o)
  {
    if o.Ex? then o.n else (o.n + 999) / 1000
  }

  /** The lifetime after reading these options, with `ttl` from before. */
  function TtlOf(opts: seq<Opt>, ttl: Option<nat>): Option<nat>
    decreases |opts|
  {
    if opts == [] then ttl else TtlOf(opts[1..], if Timed(opts[0]) then Some(SecondsOf(opts[0])) else ttl)
  }

  lemma {:induction false} TtlOfLast(opts: seq<Opt>, ttl: Option<nat>)
    ensures (forall i :: 0 <= i < |opts| ==> !Timed(opts[i])) ==> TtlOf(opts, ttl) == ttl
    ensures (exists i :: 0 <= i < |opts| && Timed(opts[i])) ==> TtlOf(opts, ttl).Some? && Lifetime(opts, TtlOf(opts, ttl))
    decreases |opts|
  {
    if opts != [] {
      var rest := opts[1..];
      var next := if Timed(opts[0]) then Some(SecondsOf(opts[0])) else ttl;
      TtlOfLast(rest, next);
      if i :| 0 <= i < |rest| && Timed(rest[i]) {
        var t := TtlOf(rest, next).value;
        var j :| 0 <= j < |rest| && LastTimed(rest, j) && Covers(rest[j], t);
        assert LastTimed(opts, j + 1) && Covers(opts[j + 1], t);
      } else if Timed(opts[0]) {
        assert LastTimed(opts, 0) by {
          forall j | 0 < j < |opts| ensures !Timed(opts[j]) {
            assert opts[j] == rest[j - 1];
          }
        }
        assert Covers(opts[0], SecondsOf(opts[0]));
      } else {
        forall i | 0 <= i < |opts| ensures !Timed(opts[i]) {
          if i > 0 { assert opts[i] == rest[i - 1]; }
        }
      }
    }
  }

  lemma {:induction false} OptionNames(arg: Bytes)
    ensures Named(arg, "ex") <==> Spells(arg, "EX")
    ensures Named(arg, "px") <==> Spells(arg, "PX")
    ensures Named(arg, "nx") <==> Spells(arg, "NX")
    ensures Named(arg, "xx") <==> Spells(arg, "XX")
    ensures Named(arg, "get") <==> Spells(arg, "GET")
  {
    hide Named, Spells;
    NamedIsSpelled(arg, "EX", "ex");
    NamedIsSpelled(arg, "PX", "px");
    NamedIsSpelled(arg, "NX", "nx");
    NamedIsSpelled(arg, "XX", "xx");
    NamedIsSpelled(arg, "GET", "get");
  }

  /** An option is only one of the five. */
  lemma {:induction false} OneOption(arg: Bytes)
    ensures Spells(arg, "EX") ==> !Spells(arg, "PX") && !Spells(arg, "NX") && !Spells(arg, "XX") && !Spells(arg, "GET")
    ensures Spells(arg, "PX") ==> !Spells(arg, "NX") && !Spells(arg, "XX") && !Spells(arg, "GET")
    ensures Spells(arg, "NX") ==> !Spells(arg, "XX") && !Spells(arg, "GET")
    ensures Spells(arg, "XX") ==> !Spells(arg, "GET")
  {
    SpellsOne(arg, "EX", "PX", 0);
    SpellsOne(arg, "EX", "NX", 0);
    SpellsOne(arg, "EX", "XX", 0);
    SpellsOne(arg, "PX", "NX", 0);
    SpellsOne(arg, "PX", "XX", 0);
    SpellsOne(arg, "NX", "XX", 0);
  }

  /** What one option adds to those read before. */
  function With(o: SetOptions, opt: Opt): SetOptions {
    match opt
    case Nx => o.(nx := true)
    case Xx => o.(xx := true)
    case GetOld => o.(get := true)
    case _ => o.(ttl := Some(SecondsOf(opt)))
  }

  lemma {:induction false} ReadOne(cmd: Command, i: nat, o: SetOptions, opts: seq<Opt>)
    requires i <= |cmd| && Writes(cmd[i..], opts) && opts != [] && (Timed(opts[0]) ==> opts[0].n > 0)
    ensures var j := i + if Timed(opts[0]) then 2 else 1;
            j <= |cmd| && Writes(cmd[j..], opts[1..]) && ParseOptions(cmd, i, o) == ParseOptions(cmd, j, With(o, opts[0]))
  {
    hide Named, Spells, ParseU64;
    assert cmd[i..] != [] && cmd[i..][0] == cmd[i];
    OptionNames(cmd[i]);
    OneOption(cmd[i]);
    if Timed(opts[0]) {
      assert cmd[i..][1] == cmd[i + 1] && cmd[i..][2..] == cmd[i + 2..];
    } else {
      assert cmd[i..][1..] == cmd[i + 1..];
    }
  }

  /** All options together: flags by presence, the lifetime by the last timed one. */
  lemma {:induction false} ReadAll(cmd: Command, i: nat, o: SetOptions, opts: seq<Opt>)
    requires i <= |cmd| && Writes(cmd[i..], opts) && Positive(opts)
    ensures var r := SetOptions(TtlOf(opts, o.ttl), o.nx || Nx in opts, o.xx || Xx in opts, o.get || GetOld in opts);
            ParseOptions(cmd, i, o) == if r.nx && r.xx then Failed(Incompatible) else Ok(r)
    decreases |opts|
  {
    if opts == [] {
      assert cmd[i..] == [];
    } else {
      ReadOne(cmd, i, o, opts);
      var j := i + if Timed(opts[0]) then 2 else 1;
      assert Positive(opts[1..]);
      ReadAll(cmd, j, With(o, opts[0]), opts[1..]);
      FirstOrLater(opts);
    }
  }

  lemma {:induction false} FirstOrLater(opts: seq<Opt>)
    requires opts != []
    ensures forall x :: x in opts <==> x == opts[0] || x in opts[1..]
  {
  }

  /** A lifetime of zero is no lifetime. */
  lemma {:induction false} ReadZero(cmd: Command, i: nat, o: SetOptions, opts: seq<Opt>)
    requires i <= |cmd| && Writes(cmd[i..], opts) && !Positive(opts)
    ensures ParseOptions(cmd, i, o) == Failed(NotAnInteger)
    decreases |opts|
  {
    if Timed(opts[0]) && opts[0].n == 0 {
      assert cmd[i..][0] == cmd[i] && cmd[i..][1] == cmd[i + 1];
      OptionNames(cmd[i]);
      hide Named, Spells, ParseU64;
    } else {
      ReadOne(cmd, i, o, opts);
      ReadZero(cmd, i + if Timed(opts[0]) then 2 else 1, With(o, opts[0]), opts[1..]);
    }
  }

  /** Whatever is accepted is a list of options. */
  lemma {:induction false} ReadBack(cmd: Command, i: nat, o: SetOptions) returns (opts: seq<Opt>)
    requires i <= |cmd| && (ParseOptions(cmd, i, o).Ok? || ParseOptions(cmd, i, o) == Failed(Incompatible))
    ensures Writes(cmd[i..], opts) && Positive(opts)
    decreases |cmd| - i
  {
    hide Named, Spells, ParseU64;
    if i == |cmd| {
      opts := [];
    } else {
      OptionNames(cmd[i]);
      var first: Opt;
      if Named(cmd[i], "ex") || Named(cmd[i], "px") {
        var v: nat := ParseU64(cmd[i + 1]).value;
        first := if Named(cmd[i], "ex") then Ex(v) else Px(v);
        opts := ReadBack(cmd, i + 2, With(o, first));
        assert cmd[i..][0] == cmd[i] && cmd[i..][1] == cmd[i + 1] && cmd[i..][2..] == cmd[i + 2..];
      } else {
        first := if Named(cmd[i], "nx") then Nx else if Named(cmd[i], "xx") then Xx else GetOld;
        opts := ReadBack(cmd, i + 1, With(o, first));
        assert cmd[i..][0] == cmd[i] && cmd[i..][1..] == cmd[i + 1..];
      }
      opts := [first] + opts;
    }
  }

  // ---------------------------------------------------------------- what SET does

  /** Whether the conditions of the options are met, given that a string is there or is not. */
  predicate Allowed(opts: seq<Opt>, held: bool) {
    (Nx in opts ==> !held) && (Xx in opts ==> held)
  }

  /** The reply of a SET that was granted room. */
  function ReplyTo(opts: seq<Opt>, before: Option<Bytes>): Reply {
    if GetOld in opts then (if before.Some? then Bulk(before.value) else Nil)
    else if Allowed(opts, before.Some?) then Okay else Nil
  }

  function HeldString(m: Keyspace, k: Bytes): Option<Bytes> {
    if k !in m then None
    else
      match m[k].value
      case Str(bytes) => Some(bytes)
      case Hash(_) => None
  }

  /**
   * What SET does to the keys left after it has asked for room. NX stores the string if and only
   * if no live string is there, XX if and only if one is, GET replies the string that was there.
   * NX and XX exclude each other, and a lifetime of zero is refused.
   */
  function Outcome(m: Keyspace, ok: bool, k: Bytes, v: Bytes, opts: seq<Opt>, ttl: Option<nat>, now: nat): (Keyspace, Reply) {
    var before := HeldString(m, k);
    if !ok then (m, Error(OutOfMemory))
    else if !Positive(opts) then (m, Error(NotAnInteger))
    else if Nx in opts && Xx in opts then (m, Error(Incompatible))
    else
      (if Allowed(opts, before.Some?)
       then m[k := Item(Str(v), match ttl case None => None case Some(t) => Some(now + t))] else m,
       ReplyTo(opts, before))
  }

  lemma {:induction false} ReferenceOutcome(m: Keyspace, cmd: Command, opts: seq<Opt>, now: nat, adm: Admission)
    requires |cmd| >= 3 && Writes(cmd[3..], opts)
    ensures RefSet(m, cmd, now, adm) == Outcome(m - adm.victims, adm.ok, cmd[1], cmd[2], opts, TtlOf(opts, None), now)
  {
    hide ParseOptions, Writes, TtlOf;
    if Positive(opts) {
      ReadAll(cmd, 3, NO_OPTIONS, opts);
    } else {
      ReadZero(cmd, 3, NO_OPTIONS, opts);
    }
    hide Positive;
  }

  /**
   * SET with any options in any order and letter case: it asks for room for the new string, and
   * the last of EX and PX gives the lifetime in whole seconds.
   */
  lemma {:induction false} SetLaw(cfg: Config, db: Db, cmd: Command, opts: seq<Opt>, now: nat, picks: seq<Pick>)
    returns (ttl: Option<nat>)
    requires |cmd| >= 3 && Spells(cmd[0], "SET") && Writes(cmd[3..], opts)
    ensures ttl == TtlOf(opts, None) && Lifetime(opts, ttl)
    ensures var (d, ok) := Admit(cfg, db, |cmd[1]| + |cmd[2]| + 64, picks);
            Sees(cfg, db, cmd, now, picks) == Outcome(Live(d.entries, now), ok, cmd[1], cmd[2], opts, ttl, now)
  {
    hide *;
    ttl := TtlOf(opts, None);
    LifetimeOf(opts);
    SetIsReference(cfg, db, cmd, now, picks);
    LiveGranted(cfg, db, |cmd[1]| + |cmd[2]| + 64, picks, now);
    ReferenceOutcome(Live(db.entries, now), cmd, opts, now, AdmissionFor(cfg, db, |cmd[1]| + |cmd[2]| + 64, picks));
  }

  lemma {:induction false} LifetimeOf(opts: seq<Opt>)
    ensures Lifetime(opts, TtlOf(opts, None))
  {
    TtlOfLast(opts, None);
  }

  lemma {:induction false} SetIsReference(cfg: Config, db: Db, cmd: Command, now: nat, picks: seq<Pick>)
    requires |cmd| >= 3 && Spells(cmd[0], "SET")
    ensures Sees(cfg, db, cmd, now, picks)
            == RefSet(Live(db.entries, now), cmd, now, AdmissionFor(cfg, db, |cmd[1]| + |cmd[2]| + 64, picks))
  {
    hide OpOf, Sees, Live, AdmissionFor, RefSet;
    SetWord(cmd[0]);
    SeesReference(cfg, db, SetOp, cmd, now, picks);
    assert Size(cmd[1], Str(cmd[2])) == |cmd[1]| + |cmd[2]| + 64;
  }

  lemma {:induction false} LiveGranted(cfg: Config, db: Db, needed: nat, picks: seq<Pick>, now: nat)
    ensures var (d, ok) := Admit(cfg, db, needed, picks);
            var adm := AdmissionFor(cfg, db, needed, picks);
            adm.ok == ok && Live(db.entries, now) - adm.victims == Live(d.entries, now)
  {
    hide Admit, Live;
    LiveAdmit(cfg, db, needed, picks, now);
  }

  /** Arguments that write no options are refused, and nothing is stored. */
  lemma {:induction false} SetRefusesOthers(cfg: Config, db: Db, cmd: Command, now: nat, picks: seq<Pick>)
    requires |cmd| >= 3 && Spells(cmd[0], "SET") && forall opts :: !Writes(cmd[3..], opts)
    ensures var d := Admit(cfg, db, |cmd[1]| + |cmd[2]| + 64, picks).0;
            var (m', r) := Sees(cfg, db, cmd, now, picks);
            m' == Live(d.entries, now) && r.Error?
  {
    hide Spells, Sees, Live, Admit, ParseOptions, Writes, AdmissionFor;
    SetIsReference(cfg, db, cmd, now, picks);
    LiveGranted(cfg, db, |cmd[1]| + |cmd[2]| + 64, picks, now);
    if ParseOptions(cmd, 3, NO_OPTIONS).Ok? {
      var opts := ReadBack(cmd, 3, NO_OPTIONS);
      assert false;
    }
  }

  // ---------------------------------------------------------------- order

  lemma {:induction false} TtlOfConcat(a: seq<Opt>, b: seq<Opt>, ttl: Option<nat>)
    ensures TtlOf(a + b, ttl) == TtlOf(b, TtlOf(a, ttl))
    decreases |a|
  {
    if a == [] {
      assert a + b == b;
    } else {
      assert (a + b)[0] == a[0] && (a + b)[1..] == a[1..] + b;
      TtlOfConcat(a[1..], b, if Timed(a[0]) then Some(SecondsOf(a[0])) else ttl);
    }
  }

  lemma {:induction false} TtlOfTwo(x: Opt, y: Opt, ttl: Option<nat>)
    requires !(Timed(x) && Timed(y))
    ensures TtlOf([x, y], ttl) == TtlOf([y, x], ttl)
  {
    assert [x, y][1..] == [y] && [y, x][1..] == [x] && [x][1..] == [] && [y][1..] == [];
  }

  /** Two neighbouring options may change places, unless both give a lifetime. */
  lemma {:induction false} EitherOrder(
    cfg: Config, db: Db, one: Command, other: Command, a: seq<Opt>, x: Opt, y: Opt, b: seq<Opt>, now: nat, picks: seq<Pick>)
    requires |one| >= 3 && |other| >= 3 && Spells(one[0], "SET") && Spells(other[0], "SET") && one[1..3] == other[1..3]
    requires Writes(one[3..], a + [x, y] + b) && Writes(other[3..], a + [y, x] + b) && !(Timed(x) && Timed(y))
    ensures Sees(cfg, db, one, now, picks) == Sees(cfg, db, other, now, picks)
  {
    hide *;
    var p, q := a + [x, y] + b, a + [y, x] + b;
    assert one[1] == one[1..3][0] == other[1] && one[2] == one[1..3][1] == other[2];
    SameMembers(a, x, y, b);
    SameTtl(a, x, y, b);
    var t := SetLaw(cfg, db, one, p, now, picks);
    var u := SetLaw(cfg, db, other, q, now, picks);
    var (d, ok) := Admit(cfg, db, |one[1]| + |one[2]| + 64, picks);
    SameOutcome(Live(d.entries, now), ok, one[1], one[2], p, q, t, now);
  }

  lemma {:induction false} SameTtl(a: seq<Opt>, x: Opt, y: Opt, b: seq<Opt>)
    requires !(Timed(x) && Timed(y))
    ensures TtlOf(a + [x, y] + b, None) == TtlOf(a + [y, x] + b, None)
  {
    hide TtlOf;
    TtlOfConcat(a + [x, y], b, None);
    TtlOfConcat(a, [x, y], None);
    TtlOfConcat(a + [y, x], b, None);
    TtlOfConcat(a, [y, x], None);
    TtlOfTwo(x, y, TtlOf(a, None));
  }

  /** The outcome depends on which options there are. */
  lemma {:induction false} SameOutcome(m: Keyspace, ok: bool, k: Bytes, v: Bytes, p: seq<Opt>, q: seq<Opt>, ttl: Option<nat>, now: nat)
    requires (forall o :: o in p <==> o in q) && (Positive(p) <==> Positive(q))
    ensures Outcome(m, ok, k, v, p, ttl, now) == Outcome(m, ok, k, v, q, ttl, now)
  {
    hide Positive;
    assert Nx in p <==> Nx in q;
    assert Xx in p <==> Xx in q;
    assert GetOld in p <==> GetOld in q;
  }

  lemma {:induction false} SameMembers(a: seq<Opt>, x: Opt, y: Opt, b: seq<Opt>)
    ensures var p, q := a + [x, y] + b, a + [y, x] + b;
            (forall o :: o in p <==> o in q) && (Positive(p) <==> Positive(q))
  {
    var p, q := a + [x, y] + b, a + [y, x] + b;
    forall o ensures o in p <==> o in q {
      assert o in p <==> o in a || o == x || o == y || o in b;
      assert o in q <==> o in a || o == x || o == y || o in b;
    }
    assert Positive(p) <==> forall o :: o in p && Timed(o) ==> o.n > 0;
    assert Positive(q) <==> forall o :: o in q && Timed(o) ==> o.n > 0;
  }

  // ---------------------------------------------------------------- locks

  /**
   * A lock taken with NX and a lifetime of `n` seconds is refused to everyone until it has run
   * out, and not a moment longer; meanwhile GET shows its holder.
   */
  lemma {:induction false} Lock(cfg: Config, db: Db, take: Command, retry: Command, get: Command, n: nat, t: nat, u: nat)
    requires cfg.maxMemory == 0 && n > 0 && t <= u
    requires |take| >= 3 && Spells(take[0], "SET") && Writes(take[3..], [Nx, Ex(n)])
    requires |retry| >= 3 && Spells(retry[0], "SET") && Writes(retry[3..], [Nx]) && retry[1] == take[1]
    requires |get| >= 2 && Spells(get[0], "GET") && get[1] == take[1]
    requires HeldString(Live(db.entries, t), take[1]) == None
    ensures var (d, r) := Execute(cfg, db, take, t, []);
            var r' := Execute(cfg, d, retry, u, []).1;
            && r == Okay && (r' == Okay <==> u >= t + n) && (r' == Nil <==> u < t + n)
            && Execute(cfg, d, get, u, []).1 == if u < t + n then Bulk(take[2]) else Nil
  {
    hide Execute, Writes, TtlOf, Admit;
    var k := take[1];
    LockLifetime(n);
    var ttl := SetLaw(cfg, db, take, [Nx, Ex(n)], t, []);
    Unlimited(cfg, db, |k| + |take[2]| + 64);
    var d := Execute(cfg, db, take, t, []).0;
    LiveAt(d.entries, t, k);
    LiveAt(d.entries, u, k);
    Unlimited(cfg, d, |k| + |retry[2]| + 64);
    var _ := SetLaw(cfg, d, retry, [Nx], u, []);
    GetLaw(cfg, d, get, u, []);
    hide Live;
  }

  lemma {:induction false} LockLifetime(n: nat)
    requires n > 0
    ensures TtlOf([Nx, Ex(n)], None) == Some(n) && Positive([Nx, Ex(n)]) && Positive([Nx])
  {
    assert [Nx, Ex(n)][1..] == [Ex(n)] && [Ex(n)][1..] == [];
    assert TtlOf([Ex(n)], None) == TtlOf([], Some(n));
  }

  lemma {:induction false} Unlimited(cfg: Config, db: Db, needed: nat)
    requires cfg.maxMemory == 0
    ensures Admit(cfg, db, needed, []) == (db, true)
  {
  }
}
