/** The glob matcher behind SCAN MATCH (src/store.rs): greedy, with a single remembered star. */
module Glob {
  import opened Basics

  /** What a pattern of stars, question marks and literals means. */
  function Matches(key: Bytes, pat: Bytes): bool
    decreases |pat|, |key|
  {
    if pat == [] then key == []
    else if pat[0] == STAR then Matches(key, pat[1..]) || (key != [] && Matches(key[1..], pat))
    else key != [] && (pat[0] == QUESTION || pat[0] == key[0]) && Matches(key[1..], pat[1..])
  }

  /** A leading star absorbs any number of bytes. */
  lemma {:induction false} StarAbsorbs(key: Bytes, pat: Bytes, n: nat)
    requires pat != [] && pat[0] == STAR && n <= |key| && Matches(key[n..], pat)
    ensures Matches(key, pat)
  {
    if n == 0 {
      assert key[0..] == key;
    } else {
      assert key[1..][n - 1..] == key[n..];
      StarAbsorbs(key[1..], pat, n - 1);
    }
  }

  /** A leading star stands for some number of bytes. */
  lemma {:induction false} StarChoice(key: Bytes, pat: Bytes)
    requires pat != [] && pat[0] == STAR
    ensures Matches(key, pat) <==> exists n :: 0 <= n <= |key| && Matches(key[n..], pat[1..])
    decreases |key|
  {
    if key != [] {
      StarChoice(key[1..], pat);
    }
    if Matches(key, pat) {
      if Matches(key, pat[1..]) {
        assert key[0..] == key;
      } else {
        var n :| 0 <= n <= |key[1..]| && Matches(key[1..][n..], pat[1..]);
        assert key[1..][n..] == key[n + 1..];
      }
    }
    if n :| 0 <= n <= |key| && Matches(key[n..], pat[1..]) {
      StarAbsorbs(key, pat, n);
    }
  }

  /** Matching runs straight through a star-free segment. */
  lemma {:induction false} SegmentStep(key: Bytes, pat: Bytes, len: nat)
    requires len <= |pat| && Matches(key, pat)
    requires forall i :: 0 <= i < len ==> pat[i] != STAR
    ensures len <= |key| && Matches(key[len..], pat[len..])
  {
    if len == 0 {
      assert key[0..] == key && pat[0..] == pat;
    } else {
      SegmentStep(key[1..], pat[1..], len - 1);
      assert key[1..][len - 1..] == key[len..] && pat[1..][len - 1..] == pat[len..];
    }
  }

  /** What the remembered star can still offer: its suffix pattern matching somewhere after `from`. */
  ghost predicate LaterChance(key: Bytes, pat: Bytes, star: nat, from: nat)
    requires star < |pat|
  {
    exists j :: from < j <= |key| && Matches(key[j..], pat[star + 1..])
  }

  /**
   * Why one star is enough: once the segment after the remembered star has been matched as far
   * as the next star, whatever a later start of that segment could reach, the next star reaches too.
   */
  lemma {:induction false} NextStarSubsumes(key: Bytes, pat: Bytes, star: nat, back: nat, k: nat, p: nat)
    requires star < p < |pat| && pat[p] == STAR
    requires back <= k <= |key| && k - back == p - (star + 1)
    requires forall i :: star < i < p ==> pat[i] != STAR
    requires LaterChance(key, pat, star, back)
    ensures Matches(key[k..], pat[p..])
  {
    var j :| back < j <= |key| && Matches(key[j..], pat[star + 1..]);
    LaterStartReaches(key, pat, star, j, p);
    var n := j + (p - (star + 1)) - k;
    DropDrop(key, k, n);
    StarAbsorbs(key[k..], pat[p..], n);
  }

  /** A segment started at `j` runs into the star at `p`. */
  lemma {:induction false} LaterStartReaches(key: Bytes, pat: Bytes, star: nat, j: nat, p: nat)
    requires star < p < |pat| && j <= |key|
    requires forall i :: star < i < p ==> pat[i] != STAR
    requires Matches(key[j..], pat[star + 1..])
    ensures j + (p - (star + 1)) <= |key|
    ensures Matches(key[j + (p - (star + 1))..], pat[p..])
  {
    var len := p - (star + 1);
    SegmentStep(key[j..], pat[star + 1..], len);
    DropDrop(key, j, len);
    DropDrop(pat, star + 1, len);
  }

  lemma {:induction false} DropDrop(s: Bytes, a: nat, b: nat)
    requires a + b <= |s|
    ensures s[a..][b..] == s[a + b..]
  {
  }

  /** Trying the remembered star one byte further on. */
  lemma {:induction false} ChanceSplits(key: Bytes, pat: Bytes, star: nat, from: nat)
    requires star < |pat| && from < |key|
    ensures LaterChance(key, pat, star, from)
            <==> Matches(key[from + 1..], pat[star + 1..]) || LaterChance(key, pat, star, from + 1)
  {
  }

  /** Meeting a star: match on without it, or let it absorb. */
  lemma {:induction false} StarSplits(key: Bytes, pat: Bytes, k: nat, p: nat)
    requires k <= |key| && p < |pat| && pat[p] == STAR
    ensures Matches(key[k..], pat[p..])
            <==> Matches(key[k..], pat[p + 1..]) || LaterChance(key, pat, p, k)
  {
    StarChoice(key[k..], pat[p..]);
    assert pat[p..][1..] == pat[p + 1..];
    if n :| 0 <= n <= |key[k..]| && Matches(key[k..][n..], pat[p + 1..]) {
      assert key[k..][n..] == key[k + n..];
      assert n > 0 ==> k < k + n <= |key|;
      assert key[k..][0..] == key[k..];
    }
    if LaterChance(key, pat, p, k) {
      var j :| k < j <= |key| && Matches(key[j..], pat[p + 1..]);
      assert key[k..][j - k..] == key[j..];
    }
    if Matches(key[k..], pat[p + 1..]) {
      assert key[k..][0..] == key[k..];
    }
  }

  /** A pattern whose key is used up matches exactly when only stars are left. */
  lemma {:induction false} OnlyStarsLeft(pat: Bytes, p: nat, q: nat)
    requires p <= q <= |pat| && forall i :: p <= i < q ==> pat[i] == STAR
    ensures Matches([], pat[p..]) == Matches([], pat[q..])
    decreases q - p
  {
    if p < q {
      OnlyStarsLeft(pat, p + 1, q);
      assert pat[p..][1..] == pat[p + 1..];
    }
  }

  ghost predicate Chance(key: Bytes, pat: Bytes, star: Option<nat>, back: nat) {
    star.Some? && star.value < |pat| && LaterChance(key, pat, star.value, back)
  }

  /**
   * The state of the main loop: the segment after the remembered star has been matched from
   * `back` to `k`, and the answer is that of the rest or of a later start of that segment.
   */
  ghost predicate Trial(key: Bytes, pat: Bytes, star: Option<nat>, back: nat, k: nat, p: nat) {
    && k <= |key| && p <= |pat|
    && (match star
        case None => back == 0
        case Some(s) =>
          && s < p && back <= k && k - back == p - (s + 1)
          && forall i :: s < i < p ==> pat[i] != STAR)
    && (Matches(key, pat) <==> Matches(key[k..], pat[p..]) || Chance(key, pat, star, back))
  }

  lemma {:induction false} TrialBegins(key: Bytes, pat: Bytes)
    ensures Trial(key, pat, None, 0, 0, 0)
  {
  }

  lemma {:induction false} MeetStar(key: Bytes, pat: Bytes, star: Option<nat>, back: nat, k: nat, p: nat)
    requires Trial(key, pat, star, back, k, p) && p < |pat| && pat[p] == STAR
    ensures back <= k && Trial(key, pat, Some(p), k, k, p + 1)
  {
    if Chance(key, pat, star, back) {
      NextStarSubsumes(key, pat, star.value, back, k, p);
    }
    StarSplits(key, pat, k, p);
  }

  lemma {:induction false} MatchOne(key: Bytes, pat: Bytes, star: Option<nat>, back: nat, k: nat, p: nat)
    requires Trial(key, pat, star, back, k, p) && k < |key| && p < |pat| && pat[p] != STAR
    requires pat[p] == QUESTION || pat[p] == key[k]
    ensures back <= k && Trial(key, pat, star, back, k + 1, p + 1)
  {
  }

  /** The rest of the key cannot match the rest of the pattern from here. */
  ghost predicate Stuck(key: Bytes, pat: Bytes, k: nat, p: nat) {
    k < |key| && p <= |pat| && (p < |pat| ==> pat[p] != STAR && pat[p] != QUESTION && pat[p] != key[k])
  }

  lemma {:induction false} Backtrack(key: Bytes, pat: Bytes, star: nat, back: nat, k: nat, p: nat)
    requires Trial(key, pat, Some(star), back, k, p) && Stuck(key, pat, k, p)
    ensures back + 1 <= |key| && star + 1 <= |pat| && Trial(key, pat, Some(star), back + 1, back + 1, star + 1)
  {
    assert !Matches(key[k..], pat[p..]);
    ChanceSplits(key, pat, star, back);
  }

  lemma {:induction false} NoStar(key: Bytes, pat: Bytes, back: nat, k: nat, p: nat)
    requires Trial(key, pat, None, back, k, p) && Stuck(key, pat, k, p)
    ensures !Matches(key, pat)
  {
  }

  lemma {:induction false} Finish(key: Bytes, pat: Bytes, star: Option<nat>, back: nat, p: nat, q: nat)
    requires Trial(key, pat, star, back, |key|, p)
    requires p <= q <= |pat| && forall i :: p <= i < q ==> pat[i] == STAR
    requires q < |pat| ==> pat[q] != STAR
    ensures Matches(key, pat) <==> q == |pat|
  {
    assert key[|key|..] == [];
    if Chance(key, pat, star, back) {
      ChanceAtEnd(key, pat, star.value, back, p);
    }
    OnlyStarsLeft(pat, p, q);
  }

  /** One turn of the main loop: meet a star, match a byte, go back to the star, or give up. */
  method Turn(key: Bytes, pat: Bytes, star: Option<nat>, back: nat, k: nat, p: nat)
    returns (stuck: bool, star': Option<nat>, back': nat, k': nat, p': nat, ghost retreat: bool)
    requires k < |key| && Trial(key, pat, star, back, k, p)
    ensures stuck ==> !Matches(key, pat)
    ensures !stuck ==> Trial(key, pat, star', back', k', p') && back' <= k' <= |key| && p' <= |pat|
    ensures !stuck && !retreat ==> back' >= back && p' == p + 1
    ensures !stuck && retreat ==> back' == back + 1
  {
    stuck, star', back', k', p', retreat := false, star, back, k, p, false;
    if p < |pat| && pat[p] == STAR {
      MeetStar(key, pat, star, back, k, p);
      star' := Some(p);
      back' := k;
      p' := p + 1;
    } else if p < |pat| && (pat[p] == QUESTION || pat[p] == key[k]) {
      MatchOne(key, pat, star, back, k, p);
      k' := k + 1;
      p' := p + 1;
    } else if star.Some? {
      Backtrack(key, pat, star.value, back, k, p);
      retreat := true;
      p' := star.value + 1;
      back' := back + 1;
      k' := back';
    } else {
      NoStar(key, pat, back, k, p);
      stuck := true;
    }
  }

  /**
   * `matches_pattern`: it decides the recursive meaning of the pattern. `steps` counts the turns
   * of the main loop, so the backtracking is at most quadratic.
   */
  method MatchesPattern(key: Bytes, pat: Bytes) returns (r: bool, ghost steps: nat)
    ensures r == Matches(key, pat)
    ensures steps <= StepLimit(|key|, |pat|)
  {
    var k: nat, p: nat := 0, 0;
    var star: Option<nat> := None;
    var back: nat := 0;
    steps := 0;
    ghost var backtracks: nat := 0;
    TrialBegins(key, pat);
    while k < |key|
      invariant back <= k <= |key| && p <= |pat| && Trial(key, pat, star, back, k, p)
      invariant backtracks <= back && steps <= Budget(backtracks, |pat|) + p
      decreases |key| - back, |pat| - p
    {
      BudgetBound(backtracks, |key|, |pat|);
      steps := steps + 1;
      var stuck;
      ghost var retreat;
      stuck, star, back, k, p, retreat := Turn(key, pat, star, back, k, p);
      if stuck {
        return false, steps;
      }
      backtracks := if retreat then backtracks + 1 else backtracks;
    }
    BudgetBound(backtracks, |key|, |pat|);
    var q := SkipStars(pat, p);
    Finish(key, pat, star, back, p, q);
    r := q == |pat|;
  }

  /** The trailing loop over stars. */
  method SkipStars(pat: Bytes, start: nat) returns (q: nat)
    requires start <= |pat|
    ensures start <= q <= |pat| && forall i :: start <= i < q ==> pat[i] == STAR
    ensures q < |pat| ==> pat[q] != STAR
  {
    q := start;
    while q < |pat| && pat[q] == STAR
      invariant start <= q <= |pat| && forall i :: start <= i < q ==> pat[i] == STAR
    {
      q := q + 1;
    }
  }

  /**
   * With the key used up, a later start of the star's segment would leave it too few bytes,
   * so it cannot succeed where the present one does not.
   */
  lemma {:induction false} ChanceAtEnd(key: Bytes, pat: Bytes, star: nat, back: nat, p: nat)
    requires star < p <= |pat| && back <= |key| && |key| - back == p - (star + 1)
    requires forall i :: star < i < p ==> pat[i] != STAR
    ensures !LaterChance(key, pat, star, back)
  {
    forall j | back < j <= |key| ensures !Matches(key[j..], pat[star + 1..]) {
      if Matches(key[j..], pat[star + 1..]) {
        SegmentStep(key[j..], pat[star + 1..], p - (star + 1));
      }
    }
  }

  /** The quadratic bound on the turns of the main loop. */
  function StepLimit(n: nat, m: nat): nat {
    (n + 1) * m + n
  }

  /** The turns that `backtracks` trials and the pattern positions between them can take. */
  function Budget(backtracks: nat, m: nat): nat {
    if backtracks == 0 then 0 else Budget(backtracks - 1, m) + m + 1
  }

  lemma {:induction false} BudgetBound(backtracks: nat, n: nat, m: nat)
    requires backtracks <= n
    ensures Budget(backtracks, m) + m <= StepLimit(n, m)
    ensures backtracks < n ==> Budget(backtracks, m) + m < StepLimit(n, m)
    decreases n
  {
    if backtracks > 0 {
      BudgetBound(backtracks - 1, n - 1, m);
      assert StepLimit(n, m) == StepLimit(n - 1, m) + m + 1;
    } else {
      assert (n + 1) * m == n * m + m;
    }
  }

  // ---------------------------------------------------------------- patterns one can name

  predicate Plain(pat: Bytes) {
    forall i :: 0 <= i < |pat| ==> pat[i] != 42 && pat[i] != 63
  }

  /** A pattern without star and question mark matches itself and nothing else. */
  lemma {:induction false} PlainMatches(key: Bytes, pat: Bytes)
    requires Plain(pat)
    ensures Matches(key, pat) <==> key == pat
    decreases |pat|
  {
    if pat != [] && key != [] {
      PlainMatches(key[1..], pat[1..]);
      assert key == [key[0]] + key[1..] && pat == [pat[0]] + pat[1..];
    }
  }

  /** Plain bytes and then something: the key starts with them, and goes on as the rest says. */
  lemma {:induction false} PlainThen(key: Bytes, pat: Bytes, rest: Bytes)
    requires Plain(pat)
    ensures Matches(key, pat + rest) <==> pat <= key && Matches(key[|pat|..], rest)
    decreases |pat|
  {
    if pat == [] {
      assert pat + rest == rest && key[0..] == key;
    } else {
      assert (pat + rest)[0] == pat[0] && (pat + rest)[1..] == pat[1..] + rest;
      if key != [] {
        PlainThen(key[1..], pat[1..], rest);
        assert pat <= key <==> pat[0] == key[0] && pat[1..] <= key[1..];
        if pat <= key {
          assert key[1..][|pat[1..]|..] == key[|pat|..];
        }
      }
    }
  }

  /** A question mark, 63, stands for any one byte. */
  lemma {:induction false} QuestionMatches(key: Bytes, rest: Bytes)
    ensures Matches(key, [63] + rest) <==> key != [] && Matches(key[1..], rest)
  {
    assert ([63] + rest)[1..] == rest;
  }

  /** A star, 42, stands for any number of bytes. */
  lemma {:induction false} StarMatches(key: Bytes, rest: Bytes)
    ensures Matches(key, [42] + rest) <==> exists n :: 0 <= n <= |key| && Matches(key[n..], rest)
  {
    assert ([42] + rest)[1..] == rest;
    StarChoice(key, [42] + rest);
  }

  /** `prefix*suffix`: the key starts with the one and ends with the other, without overlap. */
  lemma {:induction false} PrefixAndSuffix(key: Bytes, prefix: Bytes, suffix: Bytes)
    requires Plain(prefix) && Plain(suffix)
    ensures Matches(key, prefix + ([42] + suffix))
            <==> |prefix| + |suffix| <= |key| && prefix <= key && key[|key| - |suffix|..] == suffix
  {
    PlainThen(key, prefix, [42] + suffix);
    if prefix <= key {
      var tail := key[|prefix|..];
      StarMatches(tail, suffix);
      forall n | 0 <= n <= |tail| ensures Matches(tail[n..], suffix) <==> tail[n..] == suffix {
        PlainMatches(tail[n..], suffix);
      }
      if |suffix| <= |tail| {
        assert tail[|tail| - |suffix|..] == key[|key| - |suffix|..];
      }
      if n :| 0 <= n <= |tail| && tail[n..] == suffix {
        assert n == |tail| - |suffix|;
      }
    }
  }

}
