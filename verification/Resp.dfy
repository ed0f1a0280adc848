/**
 * RESP array framing: the encoders of src/protocol.rs and src/aof.rs, which all produce the
 * bytes of `EncodeCommand`.
 */
module Resp {
  import opened Basics
  import opened Decimal

  function EncodeBulk(s: Bytes): Bytes {
    [DOLLAR] + ToDecimal(|s|) + CRLF + s + CRLF
  }

  function EncodeParts(parts: Command): Bytes {
    if parts == [] then [] else EncodeBulk(parts[0]) + EncodeParts(parts[1..])
  }

  function Header(mark: Byte, n: nat): Bytes {
    [mark] + ToDecimal(n) + CRLF
  }

  function EncodeCommand(cmd: Command): Bytes {
    Header(STAR, |cmd|) + EncodeParts(cmd)
  }

  /** A log: the concatenation of the frames of its commands. */
  function EncodeAll(cmds: seq<Command>): Bytes {
    if cmds == [] then [] else EncodeCommand(cmds[0]) + EncodeAll(cmds[1..])
  }

  lemma {:induction false} ConcatAssociative(a: Bytes, b: Bytes, c: Bytes)
    ensures (a + b) + c == a + (b + c)
  {
  }

  lemma {:induction false} EncodePartsCons(first: Bytes, parts: Command)
    ensures EncodeParts([first] + parts) == EncodeBulk(first) + EncodeParts(parts)
  {
    assert ([first] + parts)[1..] == parts;
  }

  lemma {:induction false} EncodePartsAppend(parts: Command, last: Bytes)
    ensures EncodeParts(parts + [last]) == EncodeParts(parts) + EncodeBulk(last)
  {
    if parts == [] {
      EncodePartsCons(last, []);
      assert [last] + [] == parts + [last];
    } else {
      var all := parts + [last];
      assert all == [parts[0]] + (parts[1..] + [last]);
      EncodePartsCons(parts[0], parts[1..] + [last]);
      EncodePartsAppend(parts[1..], last);
      ConcatAssociative(EncodeBulk(parts[0]), EncodeParts(parts[1..]), EncodeBulk(last));
    }
  }

  lemma {:induction false} EncodeAllConcat(a: seq<Command>, b: seq<Command>)
    ensures EncodeAll(a + b) == EncodeAll(a) + EncodeAll(b)
  {
    if a == [] {
      assert a + b == b;
    } else {
      calc {
        EncodeAll(a + b);
        { assert (a + b)[0] == a[0] && (a + b)[1..] == a[1..] + b; }
        EncodeCommand(a[0]) + EncodeAll(a[1..] + b);
        { EncodeAllConcat(a[1..], b); }
        EncodeCommand(a[0]) + (EncodeAll(a[1..]) + EncodeAll(b));
        { ConcatAssociative(EncodeCommand(a[0]), EncodeAll(a[1..]), EncodeAll(b)); }
        EncodeAll(a) + EncodeAll(b);
      }
    }
  }

  lemma {:induction false} FrameHasBytes(cmd: Command)
    ensures |EncodeCommand(cmd)| > 0
  {
  }

  lemma {:induction false} EncodeAllSingle(cmd: Command)
    ensures EncodeAll([cmd]) == EncodeCommand(cmd)
  {
    assert [cmd][1..] == [];
  }

  /** The reply writer of src/protocol.rs. */
  class RespWriter {
    var buffer: Bytes

    constructor ()
      ensures buffer == []
    {
      buffer := [];
    }

    method WriteNumber(n: U64)
      modifies this
      ensures buffer == old(buffer) + ToDecimal(n)
    {
      var digits := WriteU64(n);
      buffer := buffer + digits;
    }

    method WriteBulkString(s: Bytes)
      requires |s| <= U64_MAX
      modifies this
      ensures buffer == old(buffer) + EncodeBulk(s)
    {
      buffer := buffer + [DOLLAR];
      WriteNumber(|s|);
      buffer := buffer + CRLF;
      buffer := buffer + s;
      buffer := buffer + CRLF;
    }

    /** The sign is written apart from the magnitude, so the smallest i64 prints correctly. */
    method WriteSignedInteger(i: int)
      requires I64_MIN <= i <= I64_MAX
      modifies this
      ensures buffer == old(buffer) + [58] + SignedDecimal(i) + CRLF
    {
      buffer := buffer + [58];
      if i < 0 {
        buffer := buffer + [MINUS];
        WriteNumber(-i);
      } else {
        WriteNumber(i);
      }
      buffer := buffer + CRLF;
    }

    method WriteArrayHeader(len: U64)
      modifies this
      ensures buffer == old(buffer) + Header(STAR, len)
    {
      buffer := buffer + [STAR];
      WriteNumber(len);
      buffer := buffer + CRLF;
    }

    method WriteArray(arr: Command)
      requires Fits(arr)
      modifies this
      ensures buffer == old(buffer) + EncodeCommand(arr)
    {
      WriteArrayHeader(|arr|);
      for i := 0 to |arr|
        invariant buffer == old(buffer) + Header(STAR, |arr|) + EncodeParts(arr[..i])
      {
        ghost var start := old(buffer) + Header(STAR, |arr|);
        EncodePartsAppend(arr[..i], arr[i]);
        assert arr[..i + 1] == arr[..i] + [arr[i]];
        ConcatAssociative(start, EncodeParts(arr[..i]), EncodeBulk(arr[i]));
        WriteBulkString(arr[i]);
      }
      assert arr[..|arr|] == arr;
    }
  }

  /** The loop body of `write_resp_array`: length header, payload and line end, counted piecewise. */
  method WriteBulk(part: Bytes) returns (bulk: Bytes, total: nat)
    ensures bulk == EncodeBulk(part) && total == |bulk|
  {
    var lenHeader := [DOLLAR] + ToDecimal(|part|) + CRLF;
    bulk, total := lenHeader, |lenHeader|;
    bulk, total := bulk + part, total + |part|;
    bulk, total := bulk + CRLF, total + 2;
  }

  /** `write_resp_array` and its slice-flavoured twin: the frame and the byte total they report. */
  method WriteRespArray(command: Command) returns (frame: Bytes, total: nat)
    ensures frame == EncodeCommand(command)
    ensures total == |frame|
  {
    var header := [STAR] + ToDecimal(|command|) + CRLF;
    frame := header;
    total := |header|;
    for i := 0 to |command|
      invariant frame == Header(STAR, |command|) + EncodeParts(command[..i])
      invariant total == |frame|
    {
      EncodePartsAppend(command[..i], command[i]);
      assert command[..i + 1] == command[..i] + [command[i]];
      ConcatAssociative(Header(STAR, |command|), EncodeParts(command[..i]), EncodeBulk(command[i]));
      var bulk, n := WriteBulk(command[i]);
      frame := frame + bulk;
      total := total + n;
    }
    assert command[..|command|] == command;
  }

  /** The frame of a command on the wire: a request of one argument of twelve bytes. */
  lemma {:induction false} WireForm(k: Bytes)
    requires |k| == 12
    ensures EncodeCommand([k]) == [42, 49, 13, 10] + ([36, 49, 50, 13, 10] + k + [13, 10])
  {
    assert ToDecimal(1) == [49];
    assert ToDecimal(12) == [49, 50];
    assert [k][1..] == [];
    assert EncodeParts([]) == [];
  }

}
