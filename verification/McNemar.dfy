/**
 * The exact one-sided McNemar tail of promotion_lifecycle.py: with c discordant pairs won by the
 * candidate and b won by the baseline, the chance that a fair coin thrown c + b times shows heads
 * at least c times, clamped to 1 when the candidate does not lead.
 */
module McNemar {
  import opened Prelude

  /** `math.comb`, by Pascal's recurrence. */
  function Comb(n: nat, k: nat): nat {
    if k == 0 then 1
    else if n == 0 then 0
    else Comb(n - 1, k - 1) + Comb(n - 1, k)
  }

  /** `sum(math.comb(n, value) for value in range(low, n + 1))`. */
  function UpperSum(n: nat, low: nat): nat
    decreases n + 1 - low
  {
    if low > n then 0 else Comb(n, low) + UpperSum(n, low + 1)
  }

  /** `1 << n`. */
  function Pow2(n: nat): (p: nat)
    ensures p >= 1
  {
    if n == 0 then 1 else 2 * Pow2(n - 1)
  }

  function Tail(candidateWins: nat, baselineWins: nat): real {
    var discordant := candidateWins + baselineWins;
    if discordant == 0 || candidateWins <= baselineWins then 1.0
    else UpperSum(discordant, candidateWins) as real / Pow2(discordant) as real
  }

  /** The Python entry point, with its ValueError. */
  function ExactOneSidedTail(candidateWins: int, baselineWins: int): (tail: Result<real, string>)
    ensures tail.Ok? <==> candidateWins >= 0 && baselineWins >= 0
    ensures tail.Ok? ==> 0.0 < tail.value <= 1.0
  {
    if candidateWins < 0 || baselineWins < 0 then Err("McNemar outcome counts must be non-negative")
    else
      TailAtMostOne(candidateWins, baselineWins);
      TailFloor(candidateWins, baselineWins);
      assert 1.0 / Pow2(candidateWins + baselineWins) as real > 0.0;
      Ok(Tail(candidateWins, baselineWins))
  }

  // ---- binomial facts -----------------------------------------------------------------------

  lemma {:induction false} CombVanishes(n: nat, k: nat)
    requires k > n
    ensures Comb(n, k) == 0
  {
    if n > 0 {
      CombVanishes(n - 1, k - 1);
      CombVanishes(n - 1, k);
    }
  }

  /** Pascal's recurrence, summed over a tail. */
  lemma {:induction false} UpperSumPascal(n: nat, k: nat)
    requires k <= n + 1
    ensures UpperSum(n + 1, k + 1) == UpperSum(n, k + 1) + UpperSum(n, k)
    decreases n + 1 - k
  {
    if k == n + 1 {
    } else {
      if k == n {
        CombVanishes(n, n + 1);
      }
      UpperSumPascal(n, k + 1);
      assert Comb(n + 1, k + 1) == Comb(n, k) + Comb(n, k + 1);
    }
  }

  lemma {:induction false} UpperSumTotal(n: nat)
    ensures UpperSum(n, 0) == Pow2(n)
  {
    if n == 0 {
      assert UpperSum(0, 1) == 0;
    } else {
      UpperSumTotal(n - 1);
      UpperSumPascal(n - 1, 0);
      assert UpperSum(n, 0) == 1 + UpperSum(n, 1);
      assert UpperSum(n - 1, 0) == 1 + UpperSum(n - 1, 1);
    }
  }

  /** Binomial symmetry: a tail and the mirrored complementary tail make up the whole row. */
  lemma {:induction false} UpperSumSymmetry(n: nat, k: nat)
    requires k <= n + 1
    ensures UpperSum(n, k) + UpperSum(n, n + 1 - k) == Pow2(n)
    decreases n
  {
    if k == 0 || k == n + 1 {
      UpperSumTotal(n);
    } else {
      var m := n - 1;
      UpperSumPascal(m, k - 1);
      UpperSumPascal(m, n - k);
      UpperSumSymmetry(m, k);
      UpperSumSymmetry(m, k - 1);
    }
  }

  lemma {:induction false} UpperSumAntitone(n: nat, low: nat, high: nat)
    requires low <= high
    ensures UpperSum(n, high) <= UpperSum(n, low)
    decreases high - low
  {
    if low < high {
      UpperSumAntitone(n, low + 1, high);
    }
  }

  lemma {:induction false} UpperSumHoldsLastTerm(n: nat, low: nat)
    requires low <= n
    ensures UpperSum(n, low) >= 1
    decreases n - low
  {
    if low < n {
      UpperSumHoldsLastTerm(n, low + 1);
    } else {
      CombDiagonal(n);
    }
  }

  lemma {:induction false} CombDiagonal(n: nat)
    ensures Comb(n, n) == 1
  {
    if n > 0 {
      CombDiagonal(n - 1);
      CombVanishes(n - 1, n);
    }
  }

  lemma {:induction false} UpperSumBounded(n: nat, low: nat)
    ensures UpperSum(n, low) <= Pow2(n)
  {
    UpperSumTotal(n);
    UpperSumAntitone(n, 0, low);
  }

  // ---- the tail -----------------------------------------------------------------------------

  lemma {:induction false} QuotientOrder(a: nat, p: nat, b: nat, q: nat)
    requires p >= 1 && q >= 1
    requires a * q <= b * p
    ensures a as real / p as real <= b as real / q as real
  {
    var x, y := a as real / p as real, b as real / q as real;
    assert x * p as real == a as real && y * q as real == b as real;
    assert (a * q) as real == a as real * q as real && (b * p) as real == b as real * p as real;
    var pq := p as real * q as real;
    assert x * pq == a as real * q as real && y * pq == b as real * p as real;
    OrderByPositive(y - x, pq);
  }

  lemma {:induction false} OrderByPositive(d: real, scale: real)
    requires scale > 0.0 && d * scale >= 0.0
    ensures d >= 0.0
  {
  }

  lemma {:induction false} TailAtMostOne(c: nat, b: nat)
    ensures Tail(c, b) <= 1.0
  {
    if c > b {
      UpperSumBounded(c + b, c);
      QuotientOrder(UpperSum(c + b, c), Pow2(c + b), 1, 1);
    }
  }

  lemma {:induction false} TailStepCandidate(c: nat, b: nat)
    ensures Tail(c + 1, b) <= Tail(c, b)
  {
    if c <= b {
      TailAtMostOne(c + 1, b);
    } else {
      var n := c + b;
      UpperSumPascal(n, c);
      UpperSumAntitone(n, c, c + 1);
      assert c + 1 + b == n + 1;
      assert UpperSum(n + 1, c + 1) <= 2 * UpperSum(n, c);
      MultiplyBoth(UpperSum(n + 1, c + 1), 2 * UpperSum(n, c), Pow2(n));
      QuotientOrder(UpperSum(n + 1, c + 1), Pow2(n + 1), UpperSum(n, c), Pow2(n));
    }
  }

  lemma {:induction false} MultiplyBoth(x: nat, y: nat, p: nat)
    requires x <= y
    ensures x * p <= y * p
  {
  }

  lemma {:induction false} TailStepBaseline(c: nat, b: nat)
    ensures Tail(c, b) <= Tail(c, b + 1)
  {
    if c <= b + 1 {
      TailAtMostOne(c, b);
    } else {
      var n := c + b;
      UpperSumPascal(n, c - 1);
      UpperSumAntitone(n, c - 1, c);
      assert c + (b + 1) == n + 1;
      assert 2 * UpperSum(n, c) <= UpperSum(n + 1, c);
      MultiplyBoth(2 * UpperSum(n, c), UpperSum(n + 1, c), Pow2(n));
      QuotientOrder(UpperSum(n, c), Pow2(n), UpperSum(n + 1, c), Pow2(n + 1));
    }
  }

  /** More candidate wins never weaken the evidence; more baseline wins never strengthen it. */
  lemma {:induction false} TailMonotone(c: nat, c': nat, b: nat, b': nat)
    requires c <= c' && b' <= b
    ensures Tail(c', b') <= Tail(c, b)
    decreases c' - c, b - b'
  {
    if c < c' {
      TailMonotone(c, c' - 1, b, b');
      TailStepCandidate(c' - 1, b');
    } else if b' < b {
      TailMonotone(c, c', b - 1, b');
      TailStepBaseline(c, b - 1);
    }
  }

  /** A strict lead is at least as surprising as a coin toss; the tail is 1 exactly without a lead. */
  lemma {:induction false} TailHalf(c: nat, b: nat)
    ensures c > b ==> Tail(c, b) <= 0.5
    ensures Tail(c, b) == 1.0 <==> c <= b
  {
    if c > b {
      var n := c + b;
      UpperSumSymmetry(n, c);
      UpperSumAntitone(n, b + 1, c);
      assert n + 1 - c == b + 1;
      assert 2 * UpperSum(n, c) <= Pow2(n);
      QuotientOrder(UpperSum(n, c), Pow2(n), 1, 2);
    }
  }

  /** With n discordant pairs no evidence is stronger than one sequence out of 2^n. */
  lemma {:induction false} TailFloor(c: nat, b: nat)
    ensures Tail(c, b) >= 1.0 / Pow2(c + b) as real
    ensures c > 0 ==> Tail(c, 0) == 1.0 / Pow2(c) as real
  {
    if c <= b {
      QuotientOrder(1, Pow2(c + b), 1, 1);
    } else {
      UpperSumHoldsLastTerm(c + b, c);
      MultiplyBoth(1, UpperSum(c + b, c), Pow2(c + b));
      QuotientOrder(1, Pow2(c + b), UpperSum(c + b, c), Pow2(c + b));
    }
    CombDiagonal(c);
    assert UpperSum(c, c) == Comb(c, c) + UpperSum(c, c + 1);
  }

  // ---- reference definition: the tail is a probability over fair coin sequences ----------------

  function Prefixed(head: bool, tails: seq<seq<bool>>): (r: seq<seq<bool>>)
    ensures |r| == |tails|
    ensures forall i :: 0 <= i < |tails| ==> r[i] == [head] + tails[i]
  {
    seq(|tails|, i requires 0 <= i < |tails| => [head] + tails[i])
  }

  /** Every way n fair tosses can fall. */
  function Tosses(n: nat): (r: seq<seq<bool>>)
    ensures |r| == Pow2(n)
  {
    if n == 0 then [[]] else Prefixed(true, Tosses(n - 1)) + Prefixed(false, Tosses(n - 1))
  }

  function Heads(toss: seq<bool>): nat {
    if toss == [] then 0 else (if toss[0] then 1 else 0) + Heads(toss[1..])
  }

  function CountAtLeast(tosses: seq<seq<bool>>, heads: int): nat {
    if tosses == [] then 0
    else (if Heads(tosses[0]) >= heads then 1 else 0) + CountAtLeast(tosses[1..], heads)
  }

  lemma {:induction false} InPrefixed(head: bool, xs: seq<seq<bool>>, toss: seq<bool>)
    ensures toss in Prefixed(head, xs) <==> toss != [] && toss[0] == head && toss[1..] in xs
  {
    var r := Prefixed(head, xs);
    if toss in r {
      var i :| 0 <= i < |r| && r[i] == toss;
      assert toss[1..] == xs[i];
    }
    if toss != [] && toss[0] == head && toss[1..] in xs {
      var i :| 0 <= i < |xs| && xs[i] == toss[1..];
      assert r[i] == toss;
    }
  }

  lemma {:induction false} TossesComplete(n: nat, toss: seq<bool>)
    ensures toss in Tosses(n) <==> |toss| == n
  {
    if n == 0 {
      assert |toss| == 0 ==> toss == Tosses(0)[0];
    } else {
      var shorter := Tosses(n - 1);
      assert Tosses(n) == Prefixed(true, shorter) + Prefixed(false, shorter);
      InPrefixed(true, shorter, toss);
      InPrefixed(false, shorter, toss);
      if toss != [] {
        TossesComplete(n - 1, toss[1..]);
      }
    }
  }

  /** No sequence of tosses is listed twice, so `Tosses(n)` is a uniform sample space. */
  lemma {:induction false} TossesDistinct(n: nat)
    ensures Distinct(Tosses(n))
  {
    if n > 0 {
      TossesDistinct(n - 1);
      var shorter := Tosses(n - 1);
      forall i, j | 0 <= i < j < |Tosses(n)| ensures Tosses(n)[i] != Tosses(n)[j] {
        var k := |shorter|;
        var a, b := Tosses(n)[i], Tosses(n)[j];
        assert a == [i < k] + shorter[if i < k then i else i - k];
        assert b == [j < k] + shorter[if j < k then j else j - k];
        assert a[0] == (i < k) && b[0] == (j < k);
        assert a[1..] == shorter[if i < k then i else i - k];
        assert b[1..] == shorter[if j < k then j else j - k];
      }
    }
  }

  lemma {:induction false} CountAppend(xs: seq<seq<bool>>, ys: seq<seq<bool>>, heads: int)
    ensures CountAtLeast(xs + ys, heads) == CountAtLeast(xs, heads) + CountAtLeast(ys, heads)
  {
    if xs == [] {
      assert xs + ys == ys;
    } else {
      assert (xs + ys)[1..] == xs[1..] + ys;
      CountAppend(xs[1..], ys, heads);
    }
  }

  lemma {:induction false} CountPrefixed(head: bool, xs: seq<seq<bool>>, heads: int)
    ensures CountAtLeast(Prefixed(head, xs), heads) == CountAtLeast(xs, heads - (if head then 1 else 0))
  {
    if xs != [] {
      assert Prefixed(head, xs)[1..] == Prefixed(head, xs[1..]);
      assert ([head] + xs[0])[1..] == xs[0];
      CountPrefixed(head, xs[1..], heads);
    }
  }

  lemma {:induction false} CountAll(xs: seq<seq<bool>>, heads: int)
    requires heads <= 0
    ensures CountAtLeast(xs, heads) == |xs|
  {
    if xs != [] {
      CountAll(xs[1..], heads);
    }
  }

  /** Tosses split by their first coin. */
  lemma {:induction false} CountTosses(n: nat, low: int)
    requires n > 0
    ensures CountAtLeast(Tosses(n), low) == CountAtLeast(Tosses(n - 1), low - 1) + CountAtLeast(Tosses(n - 1), low)
  {
    var shorter := Tosses(n - 1);
    CountAppend(Prefixed(true, shorter), Prefixed(false, shorter), low);
    CountPrefixed(true, shorter, low);
    CountPrefixed(false, shorter, low);
  }

  lemma {:induction false} UpperSumSplits(n: nat, low: nat)
    requires n > 0 && low > 0
    ensures UpperSum(n, low) == UpperSum(n - 1, low - 1) + UpperSum(n - 1, low)
  {
    if low <= n {
      UpperSumPascal(n - 1, low - 1);
    }
  }

  lemma {:induction false} NoTossNoHeads(low: nat)
    requires low > 0
    ensures UpperSum(0, low) == CountAtLeast(Tosses(0), low)
  {
    assert Tosses(0) == [[]] && CountAtLeast([[]], low) == CountAtLeast([], low);
  }

  lemma {:induction false} EveryTossCounts(n: nat)
    ensures UpperSum(n, 0) == CountAtLeast(Tosses(n), 0)
  {
    UpperSumTotal(n);
    CountAll(Tosses(n), 0);
  }

  lemma {:induction false} UpperSumCountsTosses(n: nat, low: nat)
    ensures UpperSum(n, low) == CountAtLeast(Tosses(n), low)
  {
    if low == 0 {
      EveryTossCounts(n);
    } else if n == 0 {
      NoTossNoHeads(low);
    } else {
      CountTosses(n, low);
      UpperSumSplits(n, low);
      UpperSumCountsTosses(n - 1, low);
      UpperSumCountsTosses(n - 1, low - 1);
    }
  }

  /** The tail is P(X >= c) for X ~ Binomial(c + b, 1/2) whenever the candidate leads. */
  lemma {:induction false} TailIsProbability(c: nat, b: nat)
    requires c > b
    ensures Tail(c, b) == CountAtLeast(Tosses(c + b), c) as real / |Tosses(c + b)| as real
  {
    UpperSumCountsTosses(c + b, c);
  }

  /** The probability the documentation speaks of: at least c heads in c + b fair tosses. */
  function Probability(c: nat, b: nat): real {
    UpperSum(c + b, c) as real / Pow2(c + b) as real
  }

  lemma {:induction false} UpperSumFallsShort(n: nat, low: nat)
    requires 1 <= low <= n
    ensures UpperSum(n, low) < Pow2(n)
  {
    UpperSumTotal(n);
    UpperSumAntitone(n, 1, low);
  }

  lemma {:induction false} ProperFraction(x: real, y: real)
    requires 0.0 <= x <= y && y > 0.0
    ensures x / y == 1.0 <==> x == y
  {
    assert (x / y) * y == x;
  }

  lemma {:induction false} ProbabilityIsOne(c: nat, b: nat)
    ensures Probability(c, b) == 1.0 <==> UpperSum(c + b, c) == Pow2(c + b)
  {
    UpperSumBounded(c + b, c);
    ProperFraction(UpperSum(c + b, c) as real, Pow2(c + b) as real);
  }

  /** The clamp departs from that probability exactly when the candidate has wins but no lead. */
  lemma {:induction false} DocumentedProbabilityIff(c: nat, b: nat)
    ensures Tail(c, b) == Probability(c, b) <==> c > b || c == 0
  {
    ProbabilityIsOne(c, b);
    if c == 0 {
      UpperSumTotal(b);
    } else if c <= b {
      UpperSumFallsShort(c + b, c);
    }
  }
}
