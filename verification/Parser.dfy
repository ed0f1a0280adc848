/**
 * The incremental request parser of src/protocol.rs. It re-scans its buffer from the start after
 * every read, so what matters is that its verdicts are stable under further input: the commands
 * taken from a connection then depend only on the bytes sent, not on how reads split them.
 */
module Parser {
  import opened Basics
  import opened Decimal
  import opened Resp

  const MAX_ARRAY_LEN: nat := 1_000_000
  const MAX_STRING_LEN: nat := 512_000_000
  const MAX_BUFFER_SIZE: nat := 1_073_741_824

  /** The verdict of a scan: more bytes are needed, the stream is broken, or something was read. */
  datatype Scan<T> = Incomplete | Malformed | Done(value: T, next: nat)

  /** Digits up to a carriage return, then a line feed; no digits at all count as zero. */
  function ScanLen(s: Bytes, c: nat, acc: nat, limit: nat): (r: Scan<nat>)
    ensures r.Done? ==> c + 2 <= r.next <= |s| && r.value <= if acc > limit then acc else limit
    decreases |s| - c
  {
    if c >= |s| then Incomplete
    else if s[c] == CR then
      if c + 1 >= |s| || s[c + 1] != LF then Incomplete else Done(acc, c + 2)
    else if !IsDigit(s[c]) then Malformed
    else if acc * 10 + (s[c] - ZERO) > limit then Malformed
    else ScanLen(s, c + 1, acc * 10 + (s[c] - ZERO), limit)
  }

  /** A bulk string; the two bytes after its payload are skipped unread. */
  function ScanBulk(s: Bytes, c: nat): (r: Scan<Bytes>)
    ensures r.Done? ==> c < r.next <= |s|
  {
    if c >= |s| || s[c] != DOLLAR then Incomplete
    else
      var len := ScanLen(s, c + 1, 0, MAX_STRING_LEN);
      if !len.Done? then if len.Incomplete? then Incomplete else Malformed
      else if len.next + len.value + 2 > |s| then Incomplete
      else Done(s[len.next..len.next + len.value], len.next + len.value + 2)
  }

  function ScanBulks(s: Bytes, c: nat, n: nat): (r: Scan<Command>)
    requires c <= |s|
    ensures r.Done? ==> c <= r.next <= |s|
    decreases n
  {
    if n == 0 then Done([], c)
    else
      var part := ScanBulk(s, c);
      if !part.Done? then if part.Incomplete? then Incomplete else Malformed
      else
        var more := ScanBulks(s, part.next, n - 1);
        if more.Done? then Done([part.value] + more.value, more.next) else more
  }

  /** `try_parse` on the whole buffer; `next` is how far a success advances it. */
  function Parse(s: Bytes): (r: Scan<Command>)
    ensures r.Done? ==> 0 < r.next <= |s|
  {
    if |s| < 4 then Incomplete
    else if s[0] != STAR then Malformed
    else
      var n := ScanLen(s, 1, 0, MAX_ARRAY_LEN);
      if !n.Done? then if n.Incomplete? then Incomplete else Malformed
      else ScanBulks(s, n.next, n.value)
  }

  // ---------------------------------------------------------------- verdicts are stable

  lemma {:induction false} ScanLenStable(s: Bytes, t: Bytes, c: nat, acc: nat, limit: nat)
    requires !ScanLen(s, c, acc, limit).Incomplete?
    ensures ScanLen(s + t, c, acc, limit) == ScanLen(s, c, acc, limit)
    decreases |s| - c
  {
    assert c < |s| && (s + t)[c] == s[c];
    if s[c] != CR && IsDigit(s[c]) && acc * 10 + (s[c] - ZERO) <= limit {
      ScanLenStable(s, t, c + 1, acc * 10 + (s[c] - ZERO), limit);
    }
  }

  lemma {:induction false} ScanBulkStable(s: Bytes, t: Bytes, c: nat)
    requires !ScanBulk(s, c).Incomplete?
    ensures ScanBulk(s + t, c) == ScanBulk(s, c)
  {
    var len := ScanLen(s, c + 1, 0, MAX_STRING_LEN);
    ScanLenStable(s, t, c + 1, 0, MAX_STRING_LEN);
    if len.Done? {
      assert (s + t)[len.next..len.next + len.value] == s[len.next..len.next + len.value];
    }
  }

  lemma {:induction false} ScanBulksStable(s: Bytes, t: Bytes, c: nat, n: nat)
    requires c <= |s|
    requires !ScanBulks(s, c, n).Incomplete?
    ensures ScanBulks(s + t, c, n) == ScanBulks(s, c, n)
    decreases n
  {
    if n > 0 {
      ScanBulkStable(s, t, c);
      if ScanBulk(s, c).Done? {
        ScanBulksStable(s, t, ScanBulk(s, c).next, n - 1);
      }
    }
  }

  /** A success, with the bytes it consumes, or an error is unchanged by whatever arrives later. */
  lemma {:induction false} ParseStable(s: Bytes, t: Bytes)
    requires !Parse(s).Incomplete?
    ensures Parse(s + t) == Parse(s)
  {
    assert (s + t)[0] == s[0];
    if s[0] == STAR {
      ScanLenStable(s, t, 1, 0, MAX_ARRAY_LEN);
      var n := ScanLen(s, 1, 0, MAX_ARRAY_LEN);
      if n.Done? {
        ScanBulksStable(s, t, n.next, n.value);
      }
    }
  }

  // ---------------------------------------------------------------- inverse of the encoders

  predicate AllShort(parts: Command) {
    forall i :: 0 <= i < |parts| ==> |parts[i]| <= MAX_STRING_LEN
  }

  predicate WithinLimits(cmd: Command) {
    |cmd| <= MAX_ARRAY_LEN && AllShort(cmd)
  }

  /** Scanning the digits of a number, most significant first, rebuilds it without tripping the limit. */
  lemma {:induction false} ScanDigits(s: Bytes, c: nat, digits: Bytes, k: nat, limit: nat)
    requires AllDigits(digits) && k <= |digits| && FromDecimal(digits) <= limit
    requires c + |digits| + 2 <= |s| && s[c..c + |digits|] == digits
    requires s[c + |digits|] == CR && s[c + |digits| + 1] == LF
    ensures ScanLen(s, c + k, FromDecimal(digits[..k]), limit)
            == Done(FromDecimal(digits), c + |digits| + 2)
    decreases |digits| - k
  {
    if k == |digits| {
      assert digits[..k] == digits;
    } else {
      assert s[c + k] == digits[k];
      assert digits[..k + 1][..k] == digits[..k];
      FromDecimalPrefix(digits, k + 1);
      ScanDigits(s, c, digits, k + 1, limit);
    }
  }

  lemma {:induction false} ScanHeader(pre: Bytes, mark: Byte, n: nat, post: Bytes, limit: nat)
    requires n <= limit
    ensures ScanLen(pre + Header(mark, n) + post, |pre| + 1, 0, limit)
            == Done(n, |pre + Header(mark, n)|)
  {
    var s := pre + Header(mark, n) + post;
    var digits := ToDecimal(n);
    FromToDecimal(n);
    assert s[|pre| + 1..|pre| + 1 + |digits|] == digits;
    assert digits[..0] == [];
    ScanDigits(s, |pre| + 1, digits, 0, limit);
  }

  lemma {:induction false} ScanEncodedBulk(pre: Bytes, part: Bytes, post: Bytes)
    requires |part| <= MAX_STRING_LEN
    ensures ScanBulk(pre + EncodeBulk(part) + post, |pre|) == Done(part, |pre + EncodeBulk(part)|)
  {
    var s := pre + EncodeBulk(part) + post;
    var h := Header(DOLLAR, |part|);
    assert s == pre + h + (part + CRLF + post);
    ScanHeader(pre, DOLLAR, |part|, part + CRLF + post, MAX_STRING_LEN);
    assert s[|pre + h|..|pre + h| + |part|] == part;
  }

  lemma {:induction false} ScanBulksStep(s: Bytes, c: nat, n: nat, part: Bytes, next: nat, parts: Command, end: nat)
    requires n > 0 && c <= |s| && next <= |s| && ScanBulk(s, c) == Done(part, next)
    requires ScanBulks(s, next, n - 1) == Done(parts, end)
    ensures ScanBulks(s, c, n) == Done([part] + parts, end)
  {
    hide ScanBulk;
  }

  lemma {:induction false} Regroup(pre: Bytes, bulk: Bytes, tail: Bytes, post: Bytes)
    ensures pre + (bulk + tail) + post == pre + bulk + (tail + post)
    ensures pre + (bulk + tail) + post == pre + bulk + tail + post
    ensures pre + (bulk + tail) == pre + bulk + tail
  {
  }

  lemma {:induction false} ScanEncodedParts(pre: Bytes, parts: Command, post: Bytes)
    requires AllShort(parts)
    ensures ScanBulks(pre + EncodeParts(parts) + post, |pre|, |parts|)
            == Done(parts, |pre + EncodeParts(parts)|)
    decreases |parts|
  {
    if parts == [] {
      assert pre + [] == pre;
    } else {
      var first, rest := parts[0], parts[1..];
      var bulk, tail := EncodeBulk(first), EncodeParts(rest);
      assert EncodeParts(parts) == bulk + tail && [first] + rest == parts && |first| <= MAX_STRING_LEN && AllShort(rest);
      hide EncodeBulk, EncodeParts, ScanBulk, ScanBulks, AllShort;
      var here, s := pre + bulk, pre + (bulk + tail) + post;
      Regroup(pre, bulk, tail, post);
      ScanEncodedBulk(pre, first, tail + post);
      ScanEncodedParts(here, rest, post);
      ScanBulksStep(s, |pre|, |parts|, first, |here|, rest, |here + tail|);
    }
  }

  /** The request parser inverts every encoder, leaving any following bytes untouched. */
  lemma {:induction false} ParseInvertsEncode(cmd: Command, rest: Bytes)
    requires WithinLimits(cmd)
    ensures Parse(EncodeCommand(cmd) + rest) == Done(cmd, |EncodeCommand(cmd)|)
  {
    var h := Header(STAR, |cmd|);
    assert |h| >= 4 && h[0] == STAR;
    hide Header, EncodeParts, ScanLen, ScanBulks;
    var s := EncodeCommand(cmd) + rest;
    ConcatAssociative(h, EncodeParts(cmd), rest);
    assert s == [] + h + (EncodeParts(cmd) + rest);
    ScanHeader([], STAR, |cmd|, EncodeParts(cmd) + rest, MAX_ARRAY_LEN);
    assert [] + h == h;
    ScanEncodedParts(h, cmd, rest);
  }

  /** A number beyond the limit is refused before its last digit is read, or with it. */
  lemma {:induction false} ScanTooLarge(s: Bytes, c: nat, digits: Bytes, k: nat, limit: nat)
    requires AllDigits(digits) && k <= |digits| && FromDecimal(digits[..k]) <= limit < FromDecimal(digits)
    requires c + |digits| <= |s| && s[c..c + |digits|] == digits
    ensures ScanLen(s, c + k, FromDecimal(digits[..k]), limit) == Malformed
    decreases |digits| - k
  {
    assert digits[..|digits|] == digits;
    assert s[c + k] == digits[k];
    assert digits[..k + 1][..k] == digits[..k];
    if FromDecimal(digits[..k + 1]) <= limit {
      ScanTooLarge(s, c, digits, k + 1, limit);
    }
  }

  lemma {:induction false} HeaderTooLarge(pre: Bytes, mark: Byte, n: nat, post: Bytes, limit: nat)
    requires n > limit
    ensures ScanLen(pre + Header(mark, n) + post, |pre| + 1, 0, limit) == Malformed
  {
    var s := pre + Header(mark, n) + post;
    var digits := ToDecimal(n);
    FromToDecimal(n);
    assert s[|pre| + 1..|pre| + 1 + |digits|] == digits;
    assert digits[..0] == [];
    ScanTooLarge(s, |pre| + 1, digits, 0, limit);
  }

  lemma {:induction false} BulkTooLong(pre: Bytes, part: Bytes, post: Bytes)
    requires |part| > MAX_STRING_LEN
    ensures ScanBulk(pre + EncodeBulk(part) + post, |pre|) == Malformed
  {
    var s := pre + EncodeBulk(part) + post;
    assert s == pre + Header(DOLLAR, |part|) + (part + CRLF + post);
    assert s[|pre|] == DOLLAR;
    HeaderTooLarge(pre, DOLLAR, |part|, part + CRLF + post, MAX_STRING_LEN);
  }

  lemma {:induction false} PartTooLong(pre: Bytes, parts: Command, post: Bytes)
    requires !AllShort(parts)
    ensures ScanBulks(pre + EncodeParts(parts) + post, |pre|, |parts|) == Malformed
    decreases |parts|
  {
    var first, rest := parts[0], parts[1..];
    var bulk, tail := EncodeBulk(first), EncodeParts(rest);
    assert EncodeParts(parts) == bulk + tail;
    assert |first| <= MAX_STRING_LEN ==> !AllShort(rest);
    hide EncodeBulk, EncodeParts, ScanBulk, AllShort;
    Regroup(pre, bulk, tail, post);
    if |first| > MAX_STRING_LEN {
      BulkTooLong(pre, first, tail + post);
    } else {
      ScanEncodedBulk(pre, first, tail + post);
      PartTooLong(pre + bulk, rest, post);
    }
  }

  /**
   * Which requests get through: exactly those of at most a million arguments of at most 512 million
   * bytes each. Any other is refused as malformed.
   */
  lemma {:induction false} AcceptedExactly(cmd: Command, rest: Bytes)
    ensures Parse(EncodeCommand(cmd) + rest)
            == if |cmd| <= 1_000_000 && forall i :: 0 <= i < |cmd| ==> |cmd[i]| <= 512_000_000
               then Done(cmd, |EncodeCommand(cmd)|) else Malformed
  {
    if WithinLimits(cmd) {
      ParseInvertsEncode(cmd, rest);
    } else {
      var h := Header(STAR, |cmd|);
      assert |h| >= 4 && h[0] == STAR;
      hide Header, EncodeParts, ScanLen, ScanBulks;
      ConcatAssociative(h, EncodeParts(cmd), rest);
      assert EncodeCommand(cmd) + rest == [] + h + (EncodeParts(cmd) + rest);
      if |cmd| > MAX_ARRAY_LEN {
        HeaderTooLarge([], STAR, |cmd|, EncodeParts(cmd) + rest, MAX_ARRAY_LEN);
      } else {
        ScanHeader([], STAR, |cmd|, EncodeParts(cmd) + rest, MAX_ARRAY_LEN);
        assert [] + h == h;
        PartTooLong(h, cmd, rest);
      }
    }
  }

  // ---------------------------------------------------------------- chunking independence

  /** Everything a connection has got out of its bytes so far. */
  datatype Stream = Stream(cmds: seq<Command>, rest: Bytes, broken: bool)

  /** Take commands off the front of `s` until it runs dry or breaks. */
  function Drain(s: Bytes): (r: Stream)
    ensures |r.rest| <= |s|
    decreases |s|
  {
    match Parse(s)
    case Incomplete => Stream([], s, false)
    case Malformed => Stream([], s, true)
    case Done(cmd, used) =>
      Then([cmd], Drain(s[used..]))
  }

  function Then(cmds: seq<Command>, more: Stream): Stream {
    more.(cmds := cmds + more.cmds)
  }

  lemma {:induction false} ThenNothing(more: Stream)
    ensures Then([], more) == more
  {
    assert [] + more.cmds == more.cmds;
  }

  lemma {:induction false} ThenThen(a: seq<Command>, b: seq<Command>, more: Stream)
    ensures Then(a, Then(b, more)) == Then(a + b, more)
  {
    assert a + (b + more.cmds) == a + b + more.cmds;
  }

  function Flatten(chunks: seq<Bytes>): Bytes {
    if chunks == [] then [] else chunks[0] + Flatten(chunks[1..])
  }

  /** A connection fed chunk by chunk: drain the buffer, check its size, read the next chunk. */
  function Feed(buffer: Bytes, chunks: seq<Bytes>): Stream
    decreases |chunks|
  {
    var r := Drain(buffer);
    if r.broken then r
    else if |r.rest| > MAX_BUFFER_SIZE then r.(broken := true)
    else if chunks == [] then r
    else
      Then(r.cmds, Feed(r.rest + chunks[0], chunks[1..]))
  }

  /** Draining can be interrupted anywhere: the leftover plus later bytes carries on as if uncut. */
  lemma {:induction false} DrainResumes(s: Bytes, t: Bytes)
    ensures Drain(s).broken ==> Drain(s + t).cmds == Drain(s).cmds && Drain(s + t).broken
    ensures !Drain(s).broken ==> Drain(s + t) == Then(Drain(s).cmds, Drain(Drain(s).rest + t))
    decreases |s|
  {
    match Parse(s)
    case Incomplete =>
      ThenNothing(Drain(s + t));
    case Malformed =>
      ParseStable(s, t);
    case Done(cmd, used) =>
      assert Drain(s + t) == Then([cmd], Drain(s[used..] + t)) by {
        ParseStable(s, t);
        assert (s + t)[used..] == s[used..] + t;
      }
      DrainResumes(s[used..], t);
      var r := Drain(s[used..]);
      ThenThen([cmd], r.cmds, Drain(r.rest + t));
  }

  /** Every byte prefix of the stream leaves an unfinished request the buffer can hold. */
  ghost predicate Buffered(s: Bytes) {
    forall n :: 0 <= n <= |s| && !Drain(s[..n]).broken ==> |Drain(s[..n]).rest| <= MAX_BUFFER_SIZE
  }

  lemma {:induction false} FlattenHead(buffer: Bytes, chunks: seq<Bytes>)
    requires chunks != []
    ensures buffer + Flatten(chunks) == (buffer + chunks[0]) + Flatten(chunks[1..])
  {
    ConcatAssociative(buffer, chunks[0], Flatten(chunks[1..]));
  }

  lemma {:induction false} TakeOfConcat(a: Bytes, b: Bytes, n: nat)
    requires n <= |a + b|
    ensures n <= |a| ==> (a + b)[..n] == a[..n]
    ensures n >= |a| ==> (a + b)[..n] == a + b[..n - |a|]
    ensures (a + b)[..|a|] == a
  {
  }

  lemma {:induction false} BufferedPrefix(s: Bytes, t: Bytes, n: nat)
    requires Buffered(s + t) && !Drain(s).broken && n <= |Drain(s).rest + t|
    requires !Drain((Drain(s).rest + t)[..n]).broken
    ensures |Drain((Drain(s).rest + t)[..n]).rest| <= MAX_BUFFER_SIZE
  {
    hide Drain, Buffered;
    var rest := Drain(s).rest;
    TakeOfConcat(rest, t, n);
    TakeOfConcat(s, t, |s|);
    if n <= |rest| {
      BufferedAt(s + t, |s|);
      assert |Drain((rest + t)[..n]).rest| <= n;
    } else {
      var u := t[..n - |rest|];
      TakeOfConcat(s, t, |s| + |u|);
      assert |u| > 0 && t[..|s| + |u| - |s|] == u;
      DrainResumes(s, u);
      BufferedAt(s + t, |s| + |u|);
    }
  }

  /** What is buffered may be replaced by what is left of it, without losing `Buffered`. */
  lemma {:induction false} BufferedResumes(s: Bytes, t: Bytes)
    requires Buffered(s + t) && !Drain(s).broken
    ensures Buffered(Drain(s).rest + t)
  {
    hide Drain;
    var all := Drain(s).rest + t;
    forall n | 0 <= n <= |all| && !Drain(all[..n]).broken ensures |Drain(all[..n]).rest| <= MAX_BUFFER_SIZE {
      BufferedPrefix(s, t, n);
    }
  }

  lemma {:induction false} BufferedAt(s: Bytes, n: nat)
    requires Buffered(s) && n <= |s| && !Drain(s[..n]).broken
    ensures |Drain(s[..n]).rest| <= MAX_BUFFER_SIZE
  {
  }

  /**
   * Chunking independence: while the buffer limit is respected, the commands obtained and
   * whether the connection breaks are those of the byte stream, however it was cut up.
   */
  lemma {:induction false} ChunkingIndependence(buffer: Bytes, chunks: seq<Bytes>)
    requires Buffered(buffer + Flatten(chunks))
    ensures Feed(buffer, chunks).cmds == Drain(buffer + Flatten(chunks)).cmds
    ensures Feed(buffer, chunks).broken == Drain(buffer + Flatten(chunks)).broken
    ensures !Feed(buffer, chunks).broken ==> Feed(buffer, chunks).rest == Drain(buffer + Flatten(chunks)).rest
    decreases |chunks|
  {
    var t := Flatten(chunks);
    var r := Drain(buffer);
    DrainResumes(buffer, t);
    if !r.broken {
      assert (buffer + t)[..|buffer|] == buffer;
      BufferedAt(buffer + t, |buffer|);
      if chunks == [] {
        assert buffer + t == buffer;
      } else {
        BufferedResumes(buffer, t);
        FlattenHead(r.rest, chunks);
        ChunkingIndependence(r.rest + chunks[0], chunks[1..]);
      }
    }
  }

  // ---------------------------------------------------------------- the limit is the only way to differ

  function Singletons(s: Bytes): seq<Bytes> {
    seq(|s|, i requires 0 <= i < |s| => [s[i]])
  }

  lemma {:induction false} SingletonsTail(s: Bytes, k: nat)
    requires k < |s|
    ensures Singletons(s[k..]) == [[s[k]]] + Singletons(s[k + 1..])
  {
  }

  lemma {:induction false} PrefixStep(s: Bytes, k: nat)
    requires k < |s|
    ensures s[..k + 1] == s[..k] + [s[k]]
  {
  }

  /** What feeding a drained buffer comes to. */
  lemma {:induction false} FeedStep(buffer: Bytes, chunks: seq<Bytes>)
    requires Drain(buffer) == Stream([], buffer, false)
    ensures Feed(buffer, chunks).broken
            <==> |buffer| > MAX_BUFFER_SIZE || (chunks != [] && Feed(buffer + chunks[0], chunks[1..]).broken)
  {
    hide Drain;
  }

  /** Fed byte by byte from a drained prefix, a stream that is not `Buffered` breaks the connection. */
  lemma {:induction false} ByteByByteOverflows(s: Bytes, k: nat, n: nat)
    requires k <= n <= |s|
    requires !Drain(s[..n]).broken && |Drain(s[..n]).rest| > MAX_BUFFER_SIZE
    ensures !Drain(s[..k]).broken
    ensures Feed(Drain(s[..k]).rest, Singletons(s[k..])).broken
    decreases n - k
  {
    hide Drain, Feed, Singletons;
    assert s[..n] == s[..k] + s[k..n];
    DrainResumes(s[..k], s[k..n]);
    var rest, chunks := Drain(s[..k]).rest, Singletons(s[k..]);
    DrainedStays(s[..k]);
    FeedStep(rest, chunks);
    if k < n {
      ByteByByteOverflows(s, k + 1, n);
      PrefixStep(s, k);
      DrainResumes(s[..k], [s[k]]);
      SingletonsTail(s, k);
      FeedDrained(rest + [s[k]], chunks[1..]);
    }
  }

  lemma {:induction false} DrainedStays(s: Bytes)
    requires !Drain(s).broken
    ensures Drain(Drain(s).rest) == Stream([], Drain(s).rest, false)
    decreases |s|
  {
    match Parse(s)
    case Incomplete =>
    case Done(cmd, used) => DrainedStays(s[used..]);
  }

  /** Draining before feeding changes nothing but the commands already taken. */
  lemma {:induction false} FeedDrained(buffer: Bytes, chunks: seq<Bytes>)
    requires !Drain(buffer).broken
    ensures Feed(buffer, chunks).broken == Feed(Drain(buffer).rest, chunks).broken
  {
    DrainedStays(buffer);
  }

  /**
   * The buffer limit is exactly what chunking can expose: a stream whose bytes are well formed
   * survives every way of cutting it up if and only if it is `Buffered`.
   */
  lemma {:induction false} SurvivesEveryChunking(s: Bytes)
    requires !Drain(s).broken
    ensures Buffered(s) <==> forall chunks :: Flatten(chunks) == s ==> !Feed([], chunks).broken
  {
    if Buffered(s) {
      forall chunks | Flatten(chunks) == s ensures !Feed([], chunks).broken {
        assert [] + s == s;
        ChunkingIndependence([], chunks);
      }
    } else {
      var n :| 0 <= n <= |s| && !Drain(s[..n]).broken && |Drain(s[..n]).rest| > MAX_BUFFER_SIZE;
      ByteByByteOverflows(s, 0, n);
      assert s[..0] == [] && s[0..] == s;
      FlattenSingletons(s);
      assert Feed([], Singletons(s)).broken;
    }
  }

  lemma {:induction false} FlattenSingletons(s: Bytes)
    ensures Flatten(Singletons(s)) == s
  {
    if s != [] {
      assert Singletons(s)[1..] == Singletons(s[1..]);
      FlattenSingletons(s[1..]);
    }
  }

  // ---------------------------------------------------------------- the limit in terms of frames

  ghost predicate AllWithin(cmds: seq<Command>) {
    forall i :: 0 <= i < |cmds| ==> WithinLimits(cmds[i])
  }

  lemma {:induction false} WithinTail(cmds: seq<Command>)
    requires AllWithin(cmds) && cmds != []
    ensures WithinLimits(cmds[0]) && AllWithin(cmds[1..])
  {
    hide WithinLimits;
  }

  /** A request that is not there yet in full is no request, and no error. */
  lemma {:induction false} PartialFrame(cmd: Command, n: nat)
    requires WithinLimits(cmd) && n < |EncodeCommand(cmd)|
    ensures Drain(EncodeCommand(cmd)[..n]) == Stream([], EncodeCommand(cmd)[..n], false)
  {
    var f := EncodeCommand(cmd);
    var p := f[..n];
    assert p + f[n..] == f && f + [] == f;
    ParseInvertsEncode(cmd, []);
    hide EncodeCommand, Parse;
    if !Parse(p).Incomplete? {
      ParseStable(p, f[n..]);
    }
  }

  /** A request that is there in full is taken, and the rest is drained in turn. */
  lemma {:induction false} WholeFrame(cmd: Command, rest: Bytes)
    requires WithinLimits(cmd)
    ensures Drain(EncodeCommand(cmd) + rest) == Then([cmd], Drain(rest))
  {
    hide EncodeCommand, Parse, WithinLimits;
    ParseInvertsEncode(cmd, rest);
    assert (EncodeCommand(cmd) + rest)[|EncodeCommand(cmd)|..] == rest;
  }

  /** What a cut of a stream of requests leaves unparsed: nothing, or less than one frame. */
  lemma {:induction false} Leftover(cmds: seq<Command>, n: nat, limit: nat)
    requires AllWithin(cmds) && n <= |EncodeAll(cmds)|
    requires forall i :: 0 <= i < |cmds| ==> |EncodeCommand(cmds[i])| <= limit + 1
    ensures !Drain(EncodeAll(cmds)[..n]).broken && |Drain(EncodeAll(cmds)[..n]).rest| <= limit
    decreases |cmds|
  {
    if cmds == [] {
      assert EncodeAll(cmds)[..n] == [];
    } else {
      var f, tail := EncodeCommand(cmds[0]), EncodeAll(cmds[1..]);
      hide EncodeCommand, Drain, EncodeAll, WithinLimits;
      assert EncodeAll(cmds) == f + tail by { EncodeAllFirst(cmds); }
      TakeOfConcat(f, tail, n);
      if n < |f| {
        PartialFrame(cmds[0], n);
      } else {
        WholeFrame(cmds[0], tail[..n - |f|]);
        Leftover(cmds[1..], n - |f|, limit);
      }
    }
  }

  lemma {:induction false} EncodeAllFirst(cmds: seq<Command>)
    requires cmds != []
    ensures EncodeAll(cmds) == EncodeCommand(cmds[0]) + EncodeAll(cmds[1..])
  {
  }

  /** All but the last byte of a frame stays in the buffer at some cut. */
  lemma {:induction false} FrameStays(cmds: seq<Command>, i: nat) returns (n: nat)
    requires AllWithin(cmds) && i < |cmds|
    ensures n <= |EncodeAll(cmds)| && !Drain(EncodeAll(cmds)[..n]).broken
    ensures |Drain(EncodeAll(cmds)[..n]).rest| == |EncodeCommand(cmds[i])| - 1
    decreases |cmds|
  {
    hide EncodeCommand, Drain, EncodeAll, WithinLimits, AllWithin;
    WithinTail(cmds);
    EncodeAllFirst(cmds);
    var cmd, more := cmds[0], cmds[1..];
    var f, tail := EncodeCommand(cmd), EncodeAll(more);
    if i == 0 {
      FrameHasBytes(cmd);
      n := |f| - 1;
      TakeOfConcat(f, tail, n);
      PartialFrame(cmd, n);
    } else {
      assert more[i - 1] == cmds[i];
      n := FrameStays(more, i - 1);
      LaterCut(cmd, tail, n);
      n := |f| + n;
    }
  }

  lemma {:induction false} LaterCut(cmd: Command, tail: Bytes, m: nat)
    requires WithinLimits(cmd) && m <= |tail|
    ensures var n := |EncodeCommand(cmd)| + m;
            && n <= |EncodeCommand(cmd) + tail|
            && Drain((EncodeCommand(cmd) + tail)[..n]) == Then([cmd], Drain(tail[..m]))
  {
    hide EncodeCommand, Drain, WithinLimits;
    TakeOfConcat(EncodeCommand(cmd), tail, |EncodeCommand(cmd)| + m);
    assert tail[..|EncodeCommand(cmd)| + m - |EncodeCommand(cmd)|] == tail[..m];
    WholeFrame(cmd, tail[..m]);
  }

  /**
   * The limit a client can keep to: a stream of requests survives every way of cutting it up if
   * and only if no frame is longer than the buffer limit, a gibibyte, and one byte.
   */
  lemma {:induction false} RequestsSurvive(cmds: seq<Command>)
    requires AllWithin(cmds)
    ensures (forall chunks :: Flatten(chunks) == EncodeAll(cmds) ==> !Feed([], chunks).broken)
            <==> forall i :: 0 <= i < |cmds| ==> |EncodeCommand(cmds[i])| <= 1024 * 1024 * 1024 + 1
  {
    hide EncodeCommand, Drain, EncodeAll, WithinLimits, Feed;
    var s := EncodeAll(cmds);
    assert s[..|s|] == s;
    NotBroken(cmds);
    SurvivesEveryChunking(s);
    if i :| 0 <= i < |cmds| && |EncodeCommand(cmds[i])| > MAX_BUFFER_SIZE + 1 {
      var n := FrameStays(cmds, i);
      assert !Buffered(s);
    } else {
      forall n | 0 <= n <= |s| && !Drain(s[..n]).broken ensures |Drain(s[..n]).rest| <= MAX_BUFFER_SIZE {
        Leftover(cmds, n, MAX_BUFFER_SIZE);
      }
    }
  }

  lemma {:induction false} NotBroken(cmds: seq<Command>)
    requires AllWithin(cmds)
    ensures !Drain(EncodeAll(cmds)).broken
    decreases |cmds|
  {
    if cmds != [] {
      hide EncodeCommand, Drain, EncodeAll, WithinLimits;
      EncodeAllFirst(cmds);
      NotBroken(cmds[1..]);
      WholeFrame(cmds[0], EncodeAll(cmds[1..]));
    }
  }

  /** Three arguments of the largest size: within the parser's limits, beyond the buffer's. */
  lemma {:induction false} ThreeLargeArguments(arg: Bytes)
    requires |arg| == MAX_STRING_LEN
    ensures WithinLimits([arg, arg, arg])
    ensures exists chunks :: Flatten(chunks) == EncodeCommand([arg, arg, arg]) && Feed([], chunks).broken
  {
    var cmd := [arg, arg, arg];
    EncodeAllSingle(cmd);
    hide ToDecimal, Drain, Feed;
    assert |EncodeCommand(cmd)| > MAX_BUFFER_SIZE + 1 by {
      assert cmd[1..] == [arg, arg] && [arg, arg][1..] == [arg] && [arg][1..] == [];
      assert |EncodeBulk(arg)| >= MAX_STRING_LEN;
      assert |EncodeParts([arg, arg])| >= 2 * MAX_STRING_LEN;
    }
    assert [cmd][0] == cmd;
    RequestsSurvive([cmd]);
  }

  // ---------------------------------------------------------------- the parser

  /** `RespParser`: the receive buffer, and a scan with an explicit cursor. */
  class RespParser {
    var buffer: Bytes

    constructor ()
      ensures buffer == []
    {
      buffer := [];
    }

    /** The loop that reads a length; `cursor` stops on the carriage return. */
    method ReadLen(start: nat, limit: nat) returns (r: Scan<nat>)
      ensures r == ScanLen(buffer, start, 0, limit)
    {
      var cursor: nat, value: nat := start, 0;
      while true
        invariant ScanLen(buffer, start, 0, limit) == ScanLen(buffer, cursor, value, limit)
        decreases |buffer| - cursor
      {
        if cursor >= |buffer| {
          return Incomplete;
        }
        var byte := buffer[cursor];
        if byte == CR {
          break;
        }
        if !IsDigit(byte) {
          return Malformed;
        }
        value := value * 10 + (byte - ZERO);
        if value > limit {
          return Malformed;
        }
        cursor := cursor + 1;
      }
      if cursor + 1 >= |buffer| || buffer[cursor + 1] != LF {
        return Incomplete;
      }
      return Done(value, cursor + 2);
    }

    method TryParse() returns (r: Result<Option<Command>, ()>)
      modifies this
      ensures match Parse(old(buffer))
              case Incomplete => r == Ok(None) && buffer == old(buffer)
              case Malformed => r.Failed? && buffer == old(buffer)
              case Done(cmd, used) => r == Ok(Some(cmd)) && buffer == old(buffer)[used..]
    {
      if |buffer| < 4 {
        return Ok(None);
      }
      if buffer[0] != STAR {
        return Failed(());
      }
      var count := ReadLen(1, MAX_ARRAY_LEN);
      if count.Incomplete? {
        return Ok(None);
      } else if count.Malformed? {
        return Failed(());
      }
      var parts := ReadBulks(count.next, count.value);
      if parts.Incomplete? {
        return Ok(None);
      } else if parts.Malformed? {
        return Failed(());
      }
      buffer := buffer[parts.next..];
      return Ok(Some(parts.value));
    }

    /**
     * A connection's use of `parse_command`: take commands while there are any, otherwise check
     * the buffer and read on. It returns when the chunks are used up or the connection breaks.
     */
    method ReadCommands(chunks: seq<Bytes>) returns (cmds: seq<Command>, broken: bool)
      modifies this
      ensures Stream(cmds, buffer, broken) == Feed(old(buffer), chunks)
    {
      cmds, broken := [], false;
      var i := 0;
      ghost var goal := Feed(buffer, chunks);
      ThenNothing(goal);
      assert chunks[0..] == chunks;
      while true
        invariant 0 <= i <= |chunks|
        invariant goal == Then(cmds, Feed(buffer, chunks[i..]))
        decreases |chunks| - i, |buffer|
      {
        ghost var before := buffer;
        var r := TryParse();
        if r.Failed? || (r.value == None && |buffer| > MAX_BUFFER_SIZE) {
          broken := true;
          assert cmds + [] == cmds;
          return;
        } else if r.value == None && i == |chunks| {
          assert cmds + [] == cmds;
          return;
        } else if r.value == None {
          ThenNothing(Feed(before + chunks[i], chunks[i + 1..]));
          assert chunks[i..][1..] == chunks[i + 1..];
          buffer := buffer + chunks[i];
          i := i + 1;
        } else {
          FeedAfterCommand(before, chunks[i..]);
          ThenThen(cmds, [r.value.value], Feed(buffer, chunks[i..]));
          cmds := cmds + [r.value.value];
        }
      }
    }

    method ReadBulk(start: nat) returns (r: Scan<Bytes>)
      ensures r == ScanBulk(buffer, start)
    {
      if start >= |buffer| || buffer[start] != DOLLAR {
        return Incomplete;
      }
      var len := ReadLen(start + 1, MAX_STRING_LEN);
      if len.Incomplete? {
        return Incomplete;
      } else if len.Malformed? {
        return Malformed;
      }
      if len.next + len.value + 2 > |buffer| {
        return Incomplete;
      }
      return Done(buffer[len.next..len.next + len.value], len.next + len.value + 2);
    }

    /** The loop over the bulk strings of a request. */
    method ReadBulks(start: nat, n: nat) returns (r: Scan<Command>)
      requires start <= |buffer|
      ensures r == ScanBulks(buffer, start, n)
    {
      var cursor: nat, result: Command := start, [];
      ghost var goal := ScanBulks(buffer, start, n);
      ghost var more := goal;
      AfterNothing(goal);
      for i := 0 to n
        invariant cursor <= |buffer|
        invariant more == ScanBulks(buffer, cursor, n - i)
        invariant goal == After(result, more)
      {
        var part := ReadBulk(cursor);
        if part.Incomplete? {
          return Incomplete;
        } else if part.Malformed? {
          return Malformed;
        }
        AfterStep(result, part.value, ScanBulks(buffer, part.next, n - i - 1));
        result := result + [part.value];
        cursor := part.next;
        more := ScanBulks(buffer, cursor, n - i - 1);
      }
      assert result + [] == result;
      return Done(result, cursor);
    }
  }

  /** Taking one command first and feeding afterwards is the same as feeding. */
  lemma {:induction false} FeedAfterCommand(buffer: Bytes, chunks: seq<Bytes>)
    requires Parse(buffer).Done?
    ensures Feed(buffer, chunks) == Then([Parse(buffer).value], Feed(buffer[Parse(buffer).next..], chunks))
  {
    var cmd, tail := Parse(buffer).value, buffer[Parse(buffer).next..];
    var r := Drain(tail);
    assert Drain(buffer) == Then([cmd], r);
    if !r.broken && |r.rest| <= MAX_BUFFER_SIZE && chunks != [] {
      ThenThen([cmd], r.cmds, Feed(r.rest + chunks[0], chunks[1..]));
    }
  }

  function After(parts: Command, more: Scan<Command>): Scan<Command> {
    if more.Done? then Done(parts + more.value, more.next) else more
  }

  lemma {:induction false} AfterNothing(more: Scan<Command>)
    ensures After([], more) == more
  {
    assert more.Done? ==> [] + more.value == more.value;
  }

  lemma {:induction false} AfterStep(parts: Command, part: Bytes, more: Scan<Command>)
    ensures After(parts, After([part], more)) == After(parts + [part], more)
  {
    assert more.Done? ==> parts + ([part] + more.value) == parts + [part] + more.value;
  }
}
