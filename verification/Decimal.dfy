/** The decimal codecs of src/protocol.rs and the standard integer formatting used beside them. */
module Decimal {
  import opened Basics

  predicate IsDigit(b: Byte) {
    ZERO <= b <= ZERO + 9
  }

  predicate AllDigits(s: Bytes) {
    forall i :: 0 <= i < |s| ==> IsDigit(s[i])
  }

  /** The canonical decimal form of a natural number. */
  function ToDecimal(n: nat): (s: Bytes)
    ensures |s| > 0 && AllDigits(s)
  {
    if n < 10 then [ZERO + n] else ToDecimal(n / 10) + [ZERO + n % 10]
  }

  function SignedDecimal(n: int): Bytes {
    if n < 0 then [MINUS] + ToDecimal(-n) else ToDecimal(n)
  }

  /** The number a digit string denotes. */
  function FromDecimal(s: Bytes): nat
    requires AllDigits(s)
  {
    if s == [] then 0 else FromDecimal(s[..|s| - 1]) * 10 + (s[|s| - 1] - ZERO)
  }

  function Pow10(k: nat): nat {
    if k == 0 then 1 else 10 * Pow10(k - 1)
  }

  lemma {:induction false} FromToDecimal(n: nat)
    ensures FromDecimal(ToDecimal(n)) == n
  {
    if n < 10 {
      assert ToDecimal(n)[..0] == [];
    } else {
      FromToDecimal(n / 10);
      assert ToDecimal(n)[..|ToDecimal(n)| - 1] == ToDecimal(n / 10);
    }
  }

  lemma {:induction false} ToDecimalLength(n: nat, k: nat)
    requires k > 0 && n < Pow10(k)
    ensures |ToDecimal(n)| <= k
  {
    if n >= 10 {
      ToDecimalLength(n / 10, k - 1);
    }
  }

  lemma {:induction false} U64HasTwentyDigits(n: nat)
    requires n <= U64_MAX
    ensures |ToDecimal(n)| <= 20
  {
    assert Pow10(5) == 100_000;
    assert Pow10(10) == 10_000_000_000;
    assert Pow10(15) == 1_000_000_000_000_000;
    assert Pow10(20) == 100_000_000_000_000_000_000;
    ToDecimalLength(n, 20);
  }

  /** Reading more digits never makes the number smaller. */
  lemma {:induction false} FromDecimalPrefix(s: Bytes, k: nat)
    requires AllDigits(s) && k <= |s|
    ensures FromDecimal(s[..k]) <= FromDecimal(s)
    decreases |s| - k
  {
    if k == |s| {
      assert s[..k] == s;
    } else {
      FromDecimalPrefix(s, k + 1);
      assert s[..k + 1][..k] == s[..k];
    }
  }

  // ---------------------------------------------------------------- write_u64

  /** `RespWriter::write_u64`: digits are laid down from the end of a 20-byte scratch. */
  method WriteU64(n0: U64) returns (out: Bytes)
    ensures out == ToDecimal(n0)
  {
    if n0 == 0 {
      return [ZERO];
    }
    U64HasTwentyDigits(n0);
    var buf := new Byte[20](_ => 0);
    var i := 20;
    var n: nat := n0;
    while n > 0
      invariant 0 <= i <= 20
      invariant n > 0 ==> ToDecimal(n0) == ToDecimal(n) + buf[i..]
      invariant n == 0 ==> ToDecimal(n0) == buf[i..]
    {
      assert |ToDecimal(n)| + (20 - i) <= 20;
      ghost var before := buf[i..];
      i := i - 1;
      buf[i] := ZERO + n % 10;
      assert buf[i..] == [ZERO + n % 10] + before;
      n := n / 10;
    }
    out := buf[i..];
  }

  // ---------------------------------------------------------------- parse_u64, parse_i64

  /** What `parse_u64` accepts, and the value it then returns. */
  function ParseU64(s: Bytes): Option<U64> {
    if s != [] && AllDigits(s) && FromDecimal(s) <= U64_MAX then Some(FromDecimal(s)) else None
  }

  /** What `parse_i64` accepts: the magnitude, not the value, is bounded by the largest i64. */
  function ParseI64(s: Bytes): (r: Option<int>)
    ensures r.Some? ==> -I64_MAX <= r.value <= I64_MAX
  {
    var negative := s != [] && s[0] == MINUS;
    var digits := if negative then s[1..] else s;
    if digits != [] && AllDigits(digits) && FromDecimal(digits) <= I64_MAX
    then Some(if negative then 0 - FromDecimal(digits) else FromDecimal(digits))
    else None
  }

  /**
   * The checked accumulation shared by both parsers: it stops at the first byte that is not
   * a digit and at the first intermediate overflow, yet accepts exactly by the final value.
   */
  method Accumulate(s: Bytes, limit: int) returns (r: Option<nat>)
    requires limit >= 0
    ensures r.Some? <==> AllDigits(s) && FromDecimal(s) <= limit
    ensures r.Some? ==> r.value == FromDecimal(s)
  {
    var val: nat := 0;
    for k := 0 to |s|
      invariant AllDigits(s[..k]) && val == FromDecimal(s[..k]) && val <= limit
    {
      if !IsDigit(s[k]) {
        return None;
      }
      assert s[..k + 1][..k] == s[..k];
      assert AllDigits(s[..k + 1]);
      var next := val * 10 + (s[k] - ZERO);
      if val * 10 > limit || next > limit {
        if AllDigits(s) { FromDecimalPrefix(s, k + 1); }
        return None;
      }
      val := next;
    }
    assert s[..|s|] == s;
    return Some(val);
  }

  method ParseU64Loop(s: Bytes) returns (r: Option<U64>)
    ensures r == ParseU64(s)
  {
    if s == [] {
      return None;
    }
    var v := Accumulate(s, U64_MAX);
    match v {
      case None => return None;
      case Some(n) => return Some(n);
    }
  }

  method ParseI64Loop(s: Bytes) returns (r: Option<int>)
    ensures r == ParseI64(s)
  {
    if s == [] {
      return None;
    }
    var negative := s[0] == MINUS;
    var start := if negative then 1 else 0;
    if start >= |s| {
      return None;
    }
    assert s[0..] == s;
    var v := Accumulate(s[start..], I64_MAX);
    match v {
      case None => return None;
      case Some(n) => return Some(if negative then 0 - n else n);
    }
  }

  /** `parse_u64` inverts `write_u64` on every u64. */
  lemma {:induction false} ParseU64InvertsWrite(n: U64)
    ensures ParseU64(ToDecimal(n)) == Some(n)
  {
    FromToDecimal(n);
  }

  lemma {:induction false} ParseI64Digits(digits: Bytes)
    requires digits != [] && AllDigits(digits) && digits[0] != MINUS
    ensures ParseI64(digits) == (if FromDecimal(digits) <= I64_MAX then Some(FromDecimal(digits)) else None)
    ensures ParseI64([MINUS] + digits) == (if FromDecimal(digits) <= I64_MAX then Some(0 - FromDecimal(digits)) else None)
  {
    assert ([MINUS] + digits)[1..] == digits;
  }

  /**
   * `parse_i64` inverts the printed form of every i64 except the smallest one: a counter that
   * INCR has driven to that value can no longer be read back.
   */
  lemma {:induction false} ParseI64InvertsPrint(n: int)
    requires I64_MIN <= n <= I64_MAX
    ensures ParseI64(SignedDecimal(n)) == (if n == I64_MIN then None else Some(n))
  {
    var m := if n < 0 then -n else n;
    FromToDecimal(m);
    ParseI64Digits(ToDecimal(m));
    assert IsDigit(ToDecimal(m)[0]);
  }

  // ---------------------------------------------------------------- the log reader's parse_num

  /** `str::parse::<usize>` as the log reader uses it: one leading plus sign is tolerated. */
  function ParseUsize(s: Bytes): Option<nat> {
    var digits := if |s| > 1 && s[0] == PLUS then s[1..] else s;
    if digits != [] && AllDigits(digits) && FromDecimal(digits) <= U64_MAX
    then Some(FromDecimal(digits)) else None
  }

  lemma {:induction false} ParseUsizeInvertsPrint(n: nat)
    requires n <= U64_MAX
    ensures ParseUsize(ToDecimal(n)) == Some(n)
  {
    FromToDecimal(n);
    assert IsDigit(ToDecimal(n)[0]);
  }
}
