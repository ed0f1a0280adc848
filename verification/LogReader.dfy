/**
 * The append-only log reader of src/aof.rs: what one call yields, that it inverts the encoder
 * for arbitrary payload bytes, and what it makes of a log torn at any byte.
 */
module LogReader {
  import opened Basics
  import opened Decimal
  import opened Resp

  datatype Frame =
    | Eof
    | Corrupt
    | Frame(cmd: Command, rest: Bytes)

  /** The position of the first line feed, or the length if there is none. */
  function FirstLf(s: Bytes): (i: nat)
    ensures i <= |s|
  {
    if s == [] || s[0] == LF then 0 else FirstLf(s[1..]) + 1
  }

  /** `read_until(b'\n')`: up to and including the first line feed, or all that is left. */
  function Line(s: Bytes): (l: Bytes)
    ensures |l| <= |s|
    ensures s != [] ==> l != []
  {
    if FirstLf(s) < |s| then s[..FirstLf(s) + 1] else s
  }

  predicate EndsWithCrlf(line: Bytes) {
    |line| >= 2 && line[|line| - 2] == CR && line[|line| - 1] == LF
  }

  /** A piece of the log and what follows it. */
  datatype Piece<T> = Bad | Got(value: T, rest: Bytes)

  /** A header line: a marker, a number, CR LF. */
  function ReadHeader(s: Bytes, mark: Byte): (r: Piece<nat>)
    requires mark != CR
    ensures r.Got? ==> |r.rest| < |s|
  {
    var line := Line(s);
    if EndsWithCrlf(line) && line[0] == mark then
      match ParseUsize(line[1..|line| - 2])
      case None => Bad
      case Some(n) => Got(n, s[|line|..])
    else Bad
  }

  /** A bulk string: its header, its bytes, CR LF. */
  function ReadBulk(s: Bytes): (r: Piece<Bytes>)
    ensures r.Got? ==> |r.rest| < |s|
  {
    var h := ReadHeader(s, DOLLAR);
    if h.Got? && h.value + 2 <= |h.rest| && h.rest[h.value] == CR && h.rest[h.value + 1] == LF
    then Got(h.rest[..h.value], h.rest[h.value + 2..])
    else Bad
  }

  function ReadParts(s: Bytes, n: nat): (r: Piece<Command>)
    ensures r.Got? ==> |r.rest| <= |s|
    decreases n
  {
    if n == 0 then Got([], s)
    else
      var part := ReadBulk(s);
      if part.Bad? then Bad
      else
        var more := ReadParts(part.rest, n - 1);
        if more.Bad? then Bad else Got([part.value] + more.value, more.rest)
  }

  /** One call of `next_command` on the unread remainder `s`. */
  function NextFrame(s: Bytes): (f: Frame)
    ensures f.Frame? ==> |f.rest| < |s|
  {
    if s == [] then Eof
    else
      var h := ReadHeader(s, STAR);
      if h.Bad? then Corrupt
      else
        var parts := ReadParts(h.rest, h.value);
        if parts.Bad? then Corrupt else Frame(parts.value, parts.rest)
  }

  /** The replay loop's reads: the commands in order, and whether the log ended cleanly. */
  function ReadLog(s: Bytes): (seq<Command>, bool)
    decreases |s|
  {
    match NextFrame(s)
    case Eof => ([], true)
    case Corrupt => ([], false)
    case Frame(cmd, rest) =>
      var (cmds, clean) := ReadLog(rest);
      ([cmd] + cmds, clean)
  }

  // ---------------------------------------------------------------- headers

  lemma {:induction false} FirstLfIs(s: Bytes, i: nat)
    requires i <= |s| && LF !in s[..i]
    requires i < |s| ==> s[i] == LF
    ensures FirstLf(s) == i
  {
    if i > 0 {
      assert s[0] == s[..i][0];
      assert s[1..][..i - 1] == s[..i][1..];
      FirstLfIs(s[1..], i - 1);
    }
  }

  lemma {:induction false} HeaderBytes(mark: Byte, n: nat)
    requires mark != LF
    ensures LF !in Header(mark, n)[..|Header(mark, n)| - 1]
  {
  }

  lemma {:induction false} HeaderRoundTrip(mark: Byte, n: nat, rest: Bytes)
    requires mark != LF && mark != CR && n <= U64_MAX
    ensures ReadHeader(Header(mark, n) + rest, mark) == Got(n, rest)
  {
    var h := Header(mark, n);
    var s := h + rest;
    HeaderBytes(mark, n);
    assert s[..|h| - 1] == h[..|h| - 1];
    FirstLfIs(s, |h| - 1);
    assert Line(s) == h;
    assert h[1..|h| - 2] == ToDecimal(n);
    ParseUsizeInvertsPrint(n);
    assert s[|h|..] == rest;
  }

  lemma {:induction false} TornHeader(mark: Byte, n: nat, p: Bytes)
    requires mark != LF && mark != CR
    requires p <= Header(mark, n) && p != Header(mark, n)
    ensures ReadHeader(p, mark) == Bad
  {
    HeaderBytes(mark, n);
    assert forall k :: 0 <= k < |p| ==> p[k] == Header(mark, n)[..|Header(mark, n)| - 1][k];
    assert p[..|p|] == p;
    FirstLfIs(p, |p|);
    assert Line(p) == p;
  }

  // ---------------------------------------------------------------- whole frames

  lemma {:induction false} BulkRoundTrip(part: Bytes, rest: Bytes)
    requires |part| <= U64_MAX
    ensures ReadBulk(EncodeBulk(part) + rest) == Got(part, rest)
  {
    var body := part + CRLF + rest;
    assert EncodeBulk(part) + rest == Header(DOLLAR, |part|) + body;
    HeaderRoundTrip(DOLLAR, |part|, body);
    assert body[..|part|] == part && body[|part| + 2..] == rest;
  }

  /** A proper prefix of two pieces ends in the first or in the second. */
  lemma {:induction false} PrefixOfTwo(p: Bytes, a: Bytes, b: Bytes)
    requires p <= a + b && p != a + b
    ensures |p| < |a| ==> p == a[..|p|] && p <= a && p != a
    ensures |p| >= |a| ==> p == a + p[|a|..] && p[|a|..] <= b && p[|a|..] != b
  {
    assert p == (a + b)[..|p|];
    if |p| >= |a| {
      assert p == a + p[|a|..];
    }
  }

  lemma {:induction false} TornBulk(part: Bytes, p: Bytes)
    requires |part| <= U64_MAX
    requires p <= EncodeBulk(part) && p != EncodeBulk(part)
    ensures ReadBulk(p) == Bad
  {
    var h := Header(DOLLAR, |part|);
    assert EncodeBulk(part) == h + (part + CRLF);
    PrefixOfTwo(p, h, part + CRLF);
    if |p| < |h| {
      TornHeader(DOLLAR, |part|, p);
    } else {
      HeaderRoundTrip(DOLLAR, |part|, p[|h|..]);
    }
  }

  lemma {:induction false} PartsRoundTrip(parts: Command, rest: Bytes)
    requires Fits(parts)
    ensures ReadParts(EncodeParts(parts) + rest, |parts|) == Got(parts, rest)
  {
    if parts == [] {
      assert EncodeParts(parts) + rest == rest;
    } else {
      var tail := EncodeParts(parts[1..]) + rest;
      ConcatAssociative(EncodeBulk(parts[0]), EncodeParts(parts[1..]), rest);
      BulkRoundTrip(parts[0], tail);
      PartsRoundTrip(parts[1..], rest);
      assert [parts[0]] + parts[1..] == parts;
    }
  }

  lemma {:induction false} FrameRoundTrip(cmd: Command, rest: Bytes)
    requires Fits(cmd)
    ensures NextFrame(EncodeCommand(cmd) + rest) == Frame(cmd, rest)
  {
    assert EncodeCommand(cmd) + rest == Header(STAR, |cmd|) + (EncodeParts(cmd) + rest);
    HeaderRoundTrip(STAR, |cmd|, EncodeParts(cmd) + rest);
    PartsRoundTrip(cmd, rest);
  }

  lemma {:induction false} FirstPart(parts: Command)
    requires parts != [] && Fits(parts)
    ensures EncodeParts(parts) == EncodeBulk(parts[0]) + EncodeParts(parts[1..])
    ensures |parts[0]| <= U64_MAX && Fits(parts[1..])
  {
  }

  lemma {:induction false} ReadPartsFails(s: Bytes, n: nat)
    requires n > 0 && (ReadBulk(s).Got? ==> ReadParts(ReadBulk(s).rest, n - 1) == Bad)
    ensures ReadParts(s, n) == Bad
  {
    hide ReadBulk;
  }

  lemma {:induction false} TornParts(parts: Command, p: Bytes)
    requires Fits(parts)
    requires p <= EncodeParts(parts) && p != EncodeParts(parts)
    ensures ReadParts(p, |parts|) == Bad
  {
    if parts != [] {
      hide EncodeBulk, ReadBulk, EncodeParts, ReadParts, Fits;
      FirstPart(parts);
      var bulk := EncodeBulk(parts[0]);
      PrefixOfTwo(p, bulk, EncodeParts(parts[1..]));
      if |p| < |bulk| {
        TornBulk(parts[0], p);
      } else {
        BulkRoundTrip(parts[0], p[|bulk|..]);
        TornParts(parts[1..], p[|bulk|..]);
      }
      ReadPartsFails(p, |parts|);
    }
  }

  /** A proper prefix of one frame is never taken for a command: it is the end of the log only when empty. */
  lemma {:induction false} TornFrame(cmd: Command, p: Bytes)
    requires Fits(cmd)
    requires p <= EncodeCommand(cmd) && p != EncodeCommand(cmd)
    ensures NextFrame(p) == (if p == [] then Eof else Corrupt)
  {
    var h := Header(STAR, |cmd|);
    PrefixOfTwo(p, h, EncodeParts(cmd));
    if 0 < |p| < |h| {
      TornHeader(STAR, |cmd|, p);
    } else if |p| >= |h| {
      var q := p[|h|..];
      HeaderRoundTrip(STAR, |cmd|, q);
      TornParts(cmd, q);
    }
  }

  // ---------------------------------------------------------------- whole logs

  predicate AllFit(cmds: seq<Command>) {
    forall i :: 0 <= i < |cmds| ==> Fits(cmds[i])
  }

  /** The number of frames of `cmds` that lie wholly within the first `n` bytes of the log. */
  function WholeFrames(cmds: seq<Command>, n: nat): (k: nat)
    ensures k <= |cmds|
    decreases |cmds|
  {
    if cmds == [] || n < |EncodeCommand(cmds[0])| then 0
    else 1 + WholeFrames(cmds[1..], n - |EncodeCommand(cmds[0])|)
  }

  lemma {:induction false} EncodeAllPrefix(cmds: seq<Command>, k: nat)
    requires k < |cmds|
    ensures cmds[..k + 1] == [cmds[0]] + cmds[1..][..k]
    ensures EncodeAll(cmds[..k + 1]) == EncodeCommand(cmds[0]) + EncodeAll(cmds[1..][..k])
  {
    assert cmds[..k + 1][1..] == cmds[1..][..k];
  }

  /**
   * Torn-tail detection: the first `n` bytes of a log read back as exactly the commands they
   * contain whole, and the reader reports a clean end exactly when the cut is between frames.
   */
  lemma {:induction false} TornLog(cmds: seq<Command>, n: nat)
    requires AllFit(cmds) && n <= |EncodeAll(cmds)|
    ensures var k := WholeFrames(cmds, n);
            && ReadLog(EncodeAll(cmds)[..n]).0 == cmds[..k]
            && (ReadLog(EncodeAll(cmds)[..n]).1 <==> n == |EncodeAll(cmds[..k])|)
            && |EncodeAll(cmds[..k])| <= n
    decreases |cmds|
  {
    var p := EncodeAll(cmds)[..n];
    if cmds == [] {
      assert p == [];
    } else {
      var f, tail := EncodeCommand(cmds[0]), EncodeAll(cmds[1..]);
      assert EncodeAll(cmds) == f + tail;
      hide EncodeCommand, NextFrame, Fits;
      if n < |f| {
        assert p == f[..n];
        TornFrame(cmds[0], p);
        assert cmds[..0] == [];
      } else {
        var m := n - |f|;
        var k := WholeFrames(cmds[1..], m);
        assert p == f + tail[..m];
        FrameRoundTrip(cmds[0], tail[..m]);
        TornLog(cmds[1..], m);
        EncodeAllPrefix(cmds, k);
      }
    }
  }

  /** Round trip: a whole log reads back as the list of commands it was written from. */
  lemma {:induction false} LogRoundTrip(cmds: seq<Command>)
    requires AllFit(cmds)
    ensures ReadLog(EncodeAll(cmds)) == (cmds, true)
  {
    var n := |EncodeAll(cmds)|;
    AllFramesWhole(cmds);
    TornLog(cmds, n);
    assert EncodeAll(cmds)[..n] == EncodeAll(cmds) && cmds[..|cmds|] == cmds;
  }

  lemma {:induction false} AllFramesWhole(cmds: seq<Command>)
    ensures WholeFrames(cmds, |EncodeAll(cmds)|) == |cmds|
  {
    if cmds != [] {
      AllFramesWhole(cmds[1..]);
    }
  }

  // ---------------------------------------------------------------- the reader

  function Prepend(parts: Command, more: Piece<Command>): Piece<Command> {
    if more.Bad? then Bad else Got(parts + more.value, more.rest)
  }

  lemma {:induction false} PrependNothing(more: Piece<Command>)
    ensures Prepend([], more) == more
  {
    assert more.Got? ==> [] + more.value == more.value;
  }

  lemma {:induction false} PrependStep(parts: Command, s: Bytes, n: nat)
    requires n > 0
    ensures ReadBulk(s).Bad? ==> Prepend(parts, ReadParts(s, n)).Bad?
    ensures ReadBulk(s).Got? ==>
              Prepend(parts, ReadParts(s, n))
              == Prepend(parts + [ReadBulk(s).value], ReadParts(ReadBulk(s).rest, n - 1))
  {
    if ReadBulk(s).Got? {
      var part, more := ReadBulk(s), ReadParts(ReadBulk(s).rest, n - 1);
      if more.Got? {
        assert parts + ([part.value] + more.value) == parts + [part.value] + more.value;
      }
    }
  }

  /** `CommandReader`: a file and a position that only moves forward. */
  class CommandReader {
    const file: Bytes
    var pos: nat

    ghost predicate Valid()
      reads this
    {
      pos <= |file|
    }

    ghost function Remaining(): Bytes
      requires Valid()
      reads this
    {
      file[pos..]
    }

    constructor (bytes: Bytes)
      ensures Valid() && file == bytes && Remaining() == bytes
    {
      file := bytes;
      pos := 0;
    }

    method ReadUntilLf() returns (line: Bytes)
      requires Valid()
      modifies this
      ensures Valid()
      ensures line == Line(old(Remaining()))
      ensures Remaining() == old(Remaining())[|line|..]
    {
      var start := pos;
      while pos < |file| && file[pos] != LF
        invariant start <= pos <= |file|
        invariant forall k :: start <= k < pos ==> file[k] != LF
      {
        pos := pos + 1;
      }
      ghost var s := file[start..];
      FirstLfIs(s, pos - start);
      if pos < |file| {
        pos := pos + 1;
      }
      line := file[start..pos];
    }

    method ReadExact(n: nat) returns (r: Option<Bytes>)
      requires Valid()
      modifies this
      ensures Valid()
      ensures r.Some? <==> n <= |old(Remaining())|
      ensures r.Some? ==> r.value == old(Remaining())[..n] && Remaining() == old(Remaining())[n..]
    {
      if |file| - pos < n {
        return None;
      }
      r := Some(file[pos..pos + n]);
      pos := pos + n;
    }

    /** A header line, or nothing if it is malformed or the file has ended. */
    method NextHeader(mark: Byte) returns (r: Option<nat>)
      requires Valid() && mark != CR
      modifies this
      ensures Valid()
      ensures r.Some? <==> ReadHeader(old(Remaining()), mark).Got?
      ensures r.Some? ==> Got(r.value, Remaining()) == ReadHeader(old(Remaining()), mark)
    {
      var line := ReadUntilLf();
      if line == [] {
        return None;
      }
      if !EndsWithCrlf(line) || line[0] != mark {
        return None;
      }
      r := ParseUsize(line[1..|line| - 2]);
    }

    /** One turn of the loop over the parts of a command. */
    method NextPart() returns (r: Option<Bytes>)
      requires Valid()
      modifies this
      ensures Valid()
      ensures r.Some? <==> ReadBulk(old(Remaining())).Got?
      ensures r.Some? ==> Got(r.value, Remaining()) == ReadBulk(old(Remaining()))
    {
      hide ReadHeader;
      var len := NextHeader(DOLLAR);
      if len == None {
        return None;
      }
      ghost var body := Remaining();
      var buf := ReadExact(len.value);
      if buf == None {
        return None;
      }
      var crlf := ReadExact(2);
      if crlf == None {
        return None;
      }
      assert crlf.value == [body[len.value], body[len.value + 1]];
      if crlf.value != CRLF {
        return None;
      }
      return buf;
    }

    /** The loop over the parts of a command. */
    method NextParts(n: nat) returns (r: Option<Command>)
      requires Valid()
      modifies this
      ensures Valid()
      ensures r.Some? <==> ReadParts(old(Remaining()), n).Got?
      ensures r.Some? ==> Got(r.value, Remaining()) == ReadParts(old(Remaining()), n)
    {
      var parts: Command := [];
      ghost var goal := ReadParts(Remaining(), n);
      ghost var more := goal;
      PrependNothing(goal);
      for i := 0 to n
        invariant Valid()
        invariant more == ReadParts(Remaining(), n - i)
        invariant goal == Prepend(parts, more)
      {
        ghost var here := Remaining();
        var part := NextPart();
        PrependStep(parts, here, n - i);
        if part == None {
          return None;
        }
        parts := parts + [part.value];
        more := ReadParts(Remaining(), n - i - 1);
      }
      assert parts + [] == parts;
      return Some(parts);
    }

    /** `next_command`, with every malformed input reported alike. */
    method NextCommand() returns (r: Result<Option<Command>, ()>)
      requires Valid()
      modifies this
      ensures Valid()
      ensures match NextFrame(old(Remaining()))
              case Eof => r == Ok(None)
              case Corrupt => r.Failed?
              case Frame(cmd, rest) => r == Ok(Some(cmd)) && Remaining() == rest
    {
      if pos == |file| {
        return Ok(None);
      }
      var count := NextHeader(STAR);
      if count == None {
        return Failed(());
      }
      var parts := NextParts(count.value);
      if parts == None {
        return Failed(());
      }
      return Ok(Some(parts.value));
    }
  }
}
