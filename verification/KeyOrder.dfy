/** The order in which the request tree keeps deadlines: the sign of the wrapped 64-bit
    difference, read as a `long`. */
module KeyOrder {
  import opened MachineInt

  /** Key of a request without deadline: `(unsigned long) -1`. */
  const BEST_EFFORT: u64 := TWO_64 - 1

  /** `long result = a - b` */
  function Compare(a: u64, b: u64): int { AsLong(a - b) }

  predicate Before(a: u64, b: u64) { Compare(a, b) < 0 }

  /** Distance of k above base on the circle of 64-bit values. */
  function Rank(base: u64, k: u64): u64 { Wrap64(k - base) }

  predicate InWindow(base: u64, k: u64) { Rank(base, k) < TWO_63 }

  /** The comparison agrees with the numbers it is given in one case only. */
  lemma CompareMatchesUnsigned(a: u64, b: u64)
    ensures Sign(Compare(a, b)) == Sign(a - b) <==> -TWO_63 <= a - b < TWO_63
  {
    assert a - b < 0 ==> Wrap64(a - b) == a - b + TWO_64;
    assert a - b >= 0 ==> Wrap64(a - b) == a - b;
  }

  /** The comparison's result is the difference up to a multiple of 2^64, in the range of a long. */
  lemma CompareExactly(a: u64, b: u64)
    ensures -9_223_372_036_854_775_808 <= Compare(a, b) < 9_223_372_036_854_775_808
    ensures (Compare(a, b) - (a - b)) % 18_446_744_073_709_551_616 == 0
  {
    ConversionsExactly(a - b);
  }

  /** Inside half the circle the comparison is the order of ranks. */
  lemma CompareIsRankOrder(base: u64, a: u64, b: u64)
    requires InWindow(base, a) && InWindow(base, b)
    ensures Sign(Compare(a, b)) == Sign(Rank(base, a) - Rank(base, b))
    ensures Rank(base, a) == Rank(base, b) <==> a == b
  {
    assert Rank(base, a) == if a >= base then a - base else a - base + TWO_64;
    assert Rank(base, b) == if b >= base then b - base else b - base + TWO_64;
    assert Wrap64(a - b) == if a >= b then a - b else a - b + TWO_64;
  }

  ghost predicate StrictTotalOn(keys: set<u64>) {
    && (forall a, b :: a in keys && b in keys && a != b ==> (Before(a, b) <==> !Before(b, a)))
    && (forall a, b, c :: a in keys && b in keys && c in keys && Before(a, b) && Before(b, c) ==> Before(a, c))
  }

  ghost predicate FitsHalfCircle(keys: set<u64>) {
    exists base :: base in keys && forall k :: k in keys ==> InWindow(base, k)
  }

  lemma {:induction false} LeastKey(keys: set<u64>) returns (least: u64)
    requires keys != {} && StrictTotalOn(keys)
    ensures least in keys && forall k :: k in keys && k != least ==> Before(least, k)
    decreases |keys|
  {
    var one :| one in keys;
    var rest := keys - {one};
    if rest == {} {
      least := one;
      assert keys == {one};
    } else {
      assert |rest| < |keys|;
      var other := LeastKey(rest);
      least := if Before(other, one) then other else one;
      forall k | k in keys && k != least ensures Before(least, k) {
        assert k == one || k in rest;
        if least == one && k in rest && k != other {
          assert Before(one, other) && Before(other, k);
        }
      }
    }
  }

  /** Which sets of deadlines the tree can order: exactly those within half the circle. */
  lemma TotalOrderExactly(keys: set<u64>)
    requires keys != {}
    ensures StrictTotalOn(keys) <==> FitsHalfCircle(keys)
  {
    if StrictTotalOn(keys) {
      var least := LeastKey(keys);
      forall k | k in keys ensures InWindow(least, k) {
        if k != least {
          assert Before(least, k) && !Before(k, least);
        }
      }
    }
    if FitsHalfCircle(keys) {
      var base :| base in keys && forall k :: k in keys ==> InWindow(base, k);
      forall a, b | a in keys && b in keys
        ensures Before(a, b) <==> Rank(base, a) < Rank(base, b)
        ensures Rank(base, a) == Rank(base, b) <==> a == b
      {
        CompareIsRankOrder(base, a, b);
      }
    }
  }

  /** Deadlines of the first 292 years after boot, together with the best-effort key,
      fit the half circle that starts at the best-effort key, whose rank is the least. */
  lemma BestEffortWindow(k: u64)
    ensures InWindow(BEST_EFFORT, k) <==> k == BEST_EFFORT || k <= TWO_63 - 2
    ensures Rank(BEST_EFFORT, k) == 0 <==> k == BEST_EFFORT
  {
  }

  /** The documentation wants best-effort requests after the real-time ones. The comparison
      does that only for deadlines in the far half of the range, where an unsigned
      comparison would do it for all of them. At the edge, 2^63-1, each key compares as smaller
      than the other, so that the one inserted later goes first. */
  lemma BestEffortLastExactly(k: u64)
    requires k != BEST_EFFORT
    ensures k < BEST_EFFORT
    ensures Before(k, BEST_EFFORT) <==> k >= TWO_63 - 1
    ensures Before(BEST_EFFORT, k) && !Before(k, BEST_EFFORT) <==> k <= TWO_63 - 2
    ensures Before(k, BEST_EFFORT) && Before(BEST_EFFORT, k) <==> k == TWO_63 - 1
  {
    assert Wrap64(k - BEST_EFFORT) == k - BEST_EFFORT + TWO_64;
  }
}
