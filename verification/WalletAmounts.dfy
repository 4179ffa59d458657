/** What the wallet's transactions pay, in whole numbers, and the hexadecimal salt it reads. */
module WalletAmounts {
  import opened Bytes
  import opened Records
  import opened NameScript
  import opened WalletTx

  /** The value of the coins. */
  function Worth(coins: seq<Coin>): int {
    if coins == [] then 0 else coins[0].value + Worth(coins[1..])
  }

  lemma {:induction false} WorthIsTotal(coins: seq<Coin>)
    ensures CoinTotal(coins) == Worth(coins)
  {
    if |coins| == 1 {
      assert coins[..0] == [] && coins[1..] == [];
    } else if |coins| > 1 {
      var n := |coins| - 1;
      WorthIsTotal(coins[1..]);
      WorthIsTotal(coins[..n]);
      assert coins[1..][..n - 1] == coins[..n][1..];
      WorthIsTotal(coins[..n][1..]);
    }
  }

  /** The estimated size: 148 bytes for each coin, the script, and 44 bytes for the rest. */
  function SizeOf(coins: nat, script: nat): nat {
    148 * coins + script + 44
  }

  /** What the rate asks for that size. */
  function ByRate(feeRate: int, coins: nat, script: nat): int {
    feeRate * SizeOf(coins, script)
  }

  /** The fee of a transaction with so many coins: the rate for its size, but not below the least fee. */
  lemma FeeIs(coins: seq<Coin>, script: Bytes, feeRate: int, leastFee: int)
    requires 0 <= feeRate && ByRate(feeRate, |coins|, |script|) <= MAX_INT64
    ensures var fee := FeeFor(coins, script, feeRate, leastFee);
            fee >= leastFee && fee >= ByRate(feeRate, |coins|, |script|)
            && (fee == leastFee || fee == ByRate(feeRate, |coins|, |script|))
  {
    var size := 10 + |coins| * 148 + |script| + 34;
    assert size == SizeOf(|coins|, |script|);
    NotNegative(feeRate, size);
  }

  lemma NotNegative(a: int, b: int)
    requires a >= 0 && b >= 0
    ensures a * b >= 0
  {
  }

  /** Another coin costs 148 times the rate, once the fee is above the least one. */
  lemma FeeOfAnotherCoin(coins: seq<Coin>, coin: Coin, script: Bytes, feeRate: int, leastFee: int)
    requires 0 <= feeRate && ByRate(feeRate, |coins| + 1, |script|) <= MAX_INT64
    requires leastFee <= ByRate(feeRate, |coins|, |script|)
    ensures FeeFor(coins + [coin], script, feeRate, leastFee) == FeeFor(coins, script, feeRate, leastFee) + 148 * feeRate
  {
    var small, large := SizeOf(|coins|, |script|), SizeOf(|coins| + 1, |script|);
    assert feeRate * large == feeRate * small + 148 * feeRate by { Distribute(feeRate, small); }
    FeeIs(coins, script, feeRate, leastFee);
    FeeIs(coins + [coin], script, feeRate, leastFee);
  }

  lemma Distribute(a: int, b: int)
    ensures a * (b + 148) == a * b + 148 * a
  {
  }

  /**
   While no amount exceeds 64 bits: a transaction is built exactly when the coins cover the name
   output and the fee.  It spends all of them, in order, pays the name output first, and gives
   the rest back when it is 546 or more, else leaves it for the fee.
   */
  lemma FundedExactly(coins: seq<Coin>, script: Bytes, value: int, feeRate: int, changeScript: Bytes, leastFee: int)
    requires 0 <= Worth(coins) <= MAX_INT64 && 0 <= feeRate && 0 <= value && 0 <= leastFee
    requires value + ByRate(feeRate, |coins|, |script|) <= MAX_INT64 && value + leastFee <= MAX_INT64
    ensures var fee := FeeFor(coins, script, feeRate, leastFee);
            var rest := Worth(coins) - value - fee;
            var t := Funded(coins, script, value, feeRate, changeScript, leastFee);
            && (t.Some? <==> rest >= 0)
            && (t.Some? ==>
                  && |t.value.ins| == |coins| && (forall i :: 0 <= i < |coins| ==> t.value.ins[i] == coins[i].op)
                  && t.value.outs == if rest >= 546 then [WireOut(value, script), WireOut(rest, changeScript)] else [WireOut(value, script)])
  {
    hide ByRate, Worth, Wrap64;
    FeeIs(coins, script, feeRate, leastFee);
    ChangeIs(coins, script, value, feeRate, leastFee);
    hide FeeFor, Change;
    assert [WireOut(value, script)] + [] == [WireOut(value, script)];
  }

  /** What is left of the coins. */
  lemma ChangeIs(coins: seq<Coin>, script: Bytes, value: int, feeRate: int, leastFee: int)
    requires 0 <= Worth(coins) <= MAX_INT64 && 0 <= value
    requires 0 <= FeeFor(coins, script, feeRate, leastFee) <= MAX_INT64 - value
    ensures Change(coins, script, value, feeRate, leastFee) == Worth(coins) - value - FeeFor(coins, script, feeRate, leastFee)
  {
    WorthIsTotal(coins);
    hide Wrap64, FeeFor, Worth, CoinTotal;
  }

  // ----- hexadecimal -----

  /** c is the hexadecimal digit of v: 0 to 9, a to f, or A to F. */
  predicate IsDigit(c: byte, v: int) {
    (0 <= v <= 9 && c as int == 48 + v) || (10 <= v <= 15 && (c as int == 87 + v || c as int == 55 + v))
  }

  lemma DigitValue(c: byte)
    ensures HexDigit(c) ==> IsDigit(c, HexValue(c))
    ensures forall v :: IsDigit(c, v) ==> HexDigit(c) && HexValue(c) == v
  {
  }

  /** c and d are the two digits of x. */
  ghost predicate ArePair(c: byte, d: byte, x: byte) {
    exists v, w :: IsDigit(c, v) && IsDigit(d, w) && x as int == 16 * v + w
  }

  /** Two digits for each byte. */
  ghost predicate IsHex(s: Bytes, b: Bytes) {
    |s| == 2 * |b| && forall i :: 0 <= i < |b| ==> ArePair(s[2 * i], s[2 * i + 1], b[i])
  }

  lemma PairValue(c: byte, d: byte, x: byte)
    ensures ArePair(c, d, x) <==> HexDigit(c) && HexDigit(d) && x as int == 16 * HexValue(c) + HexValue(d)
  {
    DigitValue(c);
    DigitValue(d);
    hide IsDigit, HexDigit, HexValue;
  }

  /** The reader accepts exactly the hexadecimal strings, and returns their bytes. */
  lemma {:induction false} HexExactly(s: Bytes, b: Bytes)
    ensures DecodeHex(s) == Some(b) <==> IsHex(s, b)
    decreases |s|
  {
    hide ArePair, HexDigit, HexValue;
    if |s| >= 2 {
      if b != [] {
        PairValue(s[0], s[1], b[0]);
        HexExactly(s[2..], b[1..]);
        HexTail(s, b);
        assert b == [b[0]] + b[1..];
      }
    }
  }

  lemma HexTail(s: Bytes, b: Bytes)
    requires |s| >= 2 && b != []
    ensures IsHex(s, b) <==> IsHex(s[2..], b[1..]) && ArePair(s[0], s[1], b[0])
  {
    hide ArePair;
    var s', b' := s[2..], b[1..];
    forall i | 0 <= i < |b'| && 2 * i + 3 < |s|
      ensures ArePair(s'[2 * i], s'[2 * i + 1], b'[i]) <==> ArePair(s[2 * (i + 1)], s[2 * (i + 1) + 1], b[i + 1])
    {
    }
    if IsHex(s, b) {
      assert forall i :: 0 <= i < |b'| ==> b'[i] == b[i + 1];
    }
    if IsHex(s', b') && ArePair(s[0], s[1], b[0]) {
      forall i | 0 <= i < |b| ensures ArePair(s[2 * i], s[2 * i + 1], b[i]) {
        if i > 0 {
          assert ArePair(s'[2 * (i - 1)], s'[2 * (i - 1) + 1], b'[i - 1]);
        }
      }
    }
  }
}
