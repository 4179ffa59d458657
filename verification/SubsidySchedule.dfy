/** The subsidy schedule in terms of powers of two, for every height and halving interval. */
module SubsidySchedule {
  import opened Bytes
  import opened Records
  import opened Validation
  import Merkle

  lemma {:induction false} ShiftIsQuotient(x: nat, n: nat)
    ensures ShiftRight(x, n) * Merkle.Pow2(n) <= x < (ShiftRight(x, n) + 1) * Merkle.Pow2(n)
  {
    if n > 0 {
      ShiftIsQuotient(x, n - 1);
      HalveQuotient(x, ShiftRight(x, n - 1), Merkle.Pow2(n - 1));
    }
  }

  lemma HalveQuotient(x: nat, q: nat, m: nat)
    requires q * m <= x < (q + 1) * m
    ensures (q / 2) * (2 * m) <= x < (q / 2 + 1) * (2 * m)
  {
    var k, r := q / 2, q % 2;
    assert k * (2 * m) == (2 * k) * m && (k + 1) * (2 * m) == (2 * k + 2) * m;
    Scale(2 * k, q, m);
    Scale(q + 1, 2 * k + 2, m);
  }

  lemma Scale(a: nat, b: nat, m: nat)
    requires a <= b
    ensures a * m <= b * m
  {
  }

  /**
   In the era of k halvings the subsidy is 50 coins of 100,000,000 units, divided by 2^k and rounded
   down; below height 0 and from 64 halvings on there is none.
   */
  lemma SubsidyIsHalved(h: Height, interval: int)
    requires interval > 0
    ensures var s, k := CalcBlockSubsidy(h, interval), h / interval;
            if h < 0 || k >= 64 then s == 0
            else s * Merkle.Pow2(k) <= 50_0000_0000 < (s + 1) * Merkle.Pow2(k)
  {
    if h >= 0 && h / interval < 64 {
      ShiftIsQuotient(INITIAL_SUBSIDY, h / interval);
    }
  }

  lemma {:induction false} NothingLeft(n: nat)
    requires n >= 33
    ensures ShiftRight(INITIAL_SUBSIDY, n) == 0
  {
    if n > 33 {
      NothingLeft(n - 1);
    } else {
      ShiftIsQuotient(INITIAL_SUBSIDY, 33);
      Merkle.ThirtyTwo();
      assert Merkle.Pow2(33) == 2 * Merkle.Pow2(32);
      var s := ShiftRight(INITIAL_SUBSIDY, 33);
      if s > 0 {
        Scale(1, s, Merkle.Pow2(33));
      }
    }
  }

  /** One interval later the subsidy is half of what it was, at every height. */
  lemma SubsidyOneIntervalLater(h: Height, interval: int)
    requires interval > 0 && 0 <= h && h + interval <= MAX_INT32
    ensures CalcBlockSubsidy(h + interval, interval) == CalcBlockSubsidy(h, interval) / 2
  {
    var k := h / interval;
    Merkle.Quotient(h + interval, interval, k + 1, h % interval);
    if k >= 63 {
      NothingLeft(63);
    }
  }

  /** The first blocks get 50 coins, the first halving comes after exactly one interval. */
  lemma FirstHalving(h: Height, interval: int)
    requires interval > 0 && 0 <= h
    ensures h < interval ==> CalcBlockSubsidy(h, interval) == 50_0000_0000
    ensures interval <= h < 2 * interval ==> CalcBlockSubsidy(h, interval) == 25_0000_0000
  {
    assert ShiftRight(INITIAL_SUBSIDY, 0) == INITIAL_SUBSIDY;
    if h < interval {
      Merkle.Quotient(h, interval, 0, h);
    } else if h < 2 * interval {
      Merkle.Quotient(h, interval, 1, h - interval);
      assert ShiftRight(INITIAL_SUBSIDY, 1) == ShiftRight(INITIAL_SUBSIDY, 0) / 2;
    }
  }
}
