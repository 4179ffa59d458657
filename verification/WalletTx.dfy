/** The wallet's name transactions: funding, the name output and the change. */
module WalletTx {
  import opened Bytes
  import opened Records
  import opened NameScript
  import opened PushCodec

  const NAME_OUTPUT_VALUE: int := 1000

  /** Go's int64 arithmetic: the representative of x modulo 2^64. */
  function Wrap64(x: int): (r: int)
    ensures -MAX_INT64 - 1 <= r <= MAX_INT64
    ensures -MAX_INT64 - 1 <= x <= MAX_INT64 ==> r == x
  {
    (x + MAX_INT64 + 1) % TWO_64 - MAX_INT64 - 1
  }

  lemma WrapAdd(a: int, b: int)
    ensures Wrap64(Wrap64(a) + b) == Wrap64(a + b)
  {
    var k := (a + MAX_INT64 + 1) / TWO_64;
    assert Wrap64(a) == a - TWO_64 * k;
    WrapShift(a + b, -k);
  }

  lemma WrapShift(x: int, k: int)
    ensures Wrap64(x + TWO_64 * k) == Wrap64(x)
  {
    var y := x + MAX_INT64 + 1;
    assert (y + TWO_64 * k) % TWO_64 == y % TWO_64 by {
      var q, r := y / TWO_64, y % TWO_64;
      assert y + TWO_64 * k == TWO_64 * (q + k) + r;
    }
  }

  /** An output the wallet spends. */
  datatype Coin = Coin(op: OutPoint, value: int, address: Bytes)

  datatype WireOut = WireOut(value: int, script: Bytes)

  datatype NameTx = NameTx(ins: seq<OutPoint>, outs: seq<WireOut>)

  function CoinTotal(coins: seq<Coin>): int {
    if coins == [] then 0 else CoinTotal(coins[..|coins| - 1]) + coins[|coins| - 1].value
  }

  function Ops(coins: seq<Coin>): (r: seq<OutPoint>)
    ensures |r| == |coins|
  {
    seq(|coins|, i requires 0 <= i < |coins| => coins[i].op)
  }

  /** The fee: the rate times the estimated size, but at least the burn fee. */
  function FeeFor(coins: seq<Coin>, script: Bytes, feeRate: int, minBurnFee: int): int {
    Max(Wrap64(feeRate * (10 + |coins| * 148 + |script| + 34)), minBurnFee)
  }

  function Change(coins: seq<Coin>, script: Bytes, nameOutValue: int, feeRate: int, minBurnFee: int): int {
    Wrap64(Wrap64(CoinTotal(coins)) - nameOutValue - FeeFor(coins, script, feeRate, minBurnFee))
  }

  /** The transaction that spends the coins to the name script, with a change output when it is worth one. */
  function Funded(coins: seq<Coin>, nameScript: Bytes, nameOutValue: int, feeRate: int, changeScript: Bytes, minBurnFee: int): Option<NameTx> {
    var change := Change(coins, nameScript, nameOutValue, feeRate, minBurnFee);
    if change < 0 then None
    else
      var changeOut := if change >= DUST_LIMIT then [WireOut(change, changeScript)] else [];
      Some(NameTx(Ops(coins), [WireOut(nameOutValue, nameScript)] + changeOut))
  }

  /** The running sum of the coins, which may wrap. */
  method SumCoins(coins: seq<Coin>) returns (totalIn: int)
    ensures totalIn == Wrap64(CoinTotal(coins))
  {
    totalIn := 0;
    for i := 0 to |coins|
      invariant totalIn == Wrap64(CoinTotal(coins[..i]))
    {
      hide Wrap64;
      assert coins[..i + 1][..i] == coins[..i];
      WrapAdd(CoinTotal(coins[..i]), coins[i].value);
      totalIn := Wrap64(totalIn + coins[i].value);
    }
    assert coins[..|coins|] == coins;
  }

  /** Spends the coins to the name script and, when it is worth it, to a change script. */
  method BuildNameTransaction(coins: seq<Coin>, nameScript: Bytes, nameOutValue: int, feeRate: int, changeScript: Bytes, minBurnFee: int)
    returns (r: Option<NameTx>)
    ensures r == Funded(coins, nameScript, nameOutValue, feeRate, changeScript, minBurnFee)
  {
    hide Wrap64, CoinTotal;
    var totalIn := SumCoins(coins);
    var estimatedSize := 10 + |coins| * 148 + |nameScript| + 34;
    var fee := Wrap64(feeRate * estimatedSize);
    if fee < minBurnFee {
      fee := minBurnFee;
    }
    var changeValue := Wrap64(totalIn - nameOutValue - fee);
    if changeValue < 0 {
      return None;
    }
    var ins := [];
    for i := 0 to |coins|
      invariant |ins| == i && forall j :: 0 <= j < i ==> ins[j] == coins[j].op
    {
      ins := ins + [coins[i].op];
    }
    assert ins == Ops(coins);
    var outs := [WireOut(nameOutValue, nameScript)];
    assert outs + [] == outs;
    assert changeValue == Change(coins, nameScript, nameOutValue, feeRate, minBurnFee);
    if changeValue >= DUST_LIMIT {
      outs := outs + [WireOut(changeValue, changeScript)];
    }
    r := Some(NameTx(ins, outs));
  }

  /** The commitment: a hash of the salt followed by the name. */
  function ComputeNameNewHash(h160: Bytes -> Bytes, rand: Bytes, name: Bytes): Bytes {
    h160(rand + name)
  }

  /** What the wallet asks of the inputs of a registration. */
  predicate NewInputsOk(rand: Bytes, name: Bytes, coins: seq<Coin>, feeRate: int) {
    feeRate >= 0 && 0 < |name| <= MAX_NAME_LENGTH && rand != [] && coins != []
  }

  /** The first phase: an output that carries the commitment, and the change to the same key. */
  method CreateNameNewTx(h160: Bytes -> Bytes, rand: Bytes, name: Bytes, coins: seq<Coin>, feeRate: int, pubKeyHash: Bytes)
    returns (r: Option<NameTx>)
    requires |h160(rand + name)| == 20 && |pubKeyHash| == PUBKEY_HASH_SIZE
    ensures !NewInputsOk(rand, name, coins, feeRate) ==> r == None
    ensures NewInputsOk(rand, name, coins, feeRate) ==>
              var script := NameScriptOf(NameNew, [h160(rand + name)], pubKeyHash);
              && r == Funded(coins, script, NAME_OUTPUT_VALUE, feeRate, P2PKH(pubKeyHash), 0)
              && Carries(script, Parsed(NameNew, [], [], h160(rand + name)), pubKeyHash)
  {
    if feeRate < 0 || |name| == 0 || |name| > 255 || |rand| == 0 || |coins| == 0 {
      return None;
    }
    var commit := ComputeNameNewHash(h160, rand, name);
    var script := BuildNameNewScript(commit, pubKeyHash);
    hide Carries, Change, FeeFor, NameScriptOf, P2PKH;
    if script.None? {
      return None;
    }
    r := BuildNameTransaction(coins, script.value, NAME_OUTPUT_VALUE, feeRate, P2PKH(pubKeyHash), 0);
  }

  /** What a transaction leaves for the fee. */
  function FeePaid(t: NameTx, coins: seq<Coin>): int
    requires 1 <= |t.outs| <= 2
  {
    CoinTotal(coins) - t.outs[0].value - (if |t.outs| == 2 then t.outs[1].value else 0)
  }

  /** What the second phase makes of its coins. */
  predicate Pays(t: NameTx, coins: seq<Coin>, changeScript: Bytes) {
    && t.ins == Ops(coins) && coins != []
    && 1 <= |t.outs| <= 2 && t.outs[0].value == NAME_OUTPUT_VALUE
    && (|t.outs| == 2 ==> t.outs[1].script == changeScript && t.outs[1].value >= DUST_LIMIT)
    && (CoinTotal(coins) >= 0 ==> (FeePaid(t, coins) >= MIN_NAME_OPERATION_FEE <==> CoinTotal(coins) >= NAME_OUTPUT_VALUE))
  }

  /**
   However the change turns out, and even when the sum of the coins wraps around, a transaction
   that is built pays the burn fee exactly when the coins cover the name output.
   */
  lemma BurnFeeIsPaid(coins: seq<Coin>, script: Bytes, feeRate: int)
    requires CoinTotal(coins) >= 0
    requires Change(coins, script, NAME_OUTPUT_VALUE, feeRate, MIN_NAME_OPERATION_FEE) >= 0
    ensures var change := Change(coins, script, NAME_OUTPUT_VALUE, feeRate, MIN_NAME_OPERATION_FEE);
            CoinTotal(coins) - NAME_OUTPUT_VALUE - (if change >= DUST_LIMIT then change else 0) >= MIN_NAME_OPERATION_FEE
            <==> CoinTotal(coins) >= NAME_OUTPUT_VALUE
  {
    var t, fee := CoinTotal(coins), FeeFor(coins, script, feeRate, MIN_NAME_OPERATION_FEE);
    FeeRange(coins, script, feeRate);
    hide FeeFor;
    ChangeLeavesFee(t, fee);
  }

  /** The change is what is left of t after the name output and the fee, up to a multiple of 2^64. */
  lemma ChangeLeavesFee(t: int, fee: int)
    requires t >= 0 && MIN_NAME_OPERATION_FEE <= fee <= MAX_INT64
    ensures var change := Wrap64(Wrap64(t) - NAME_OUTPUT_VALUE - fee);
            change >= 0 ==>
              (t - NAME_OUTPUT_VALUE - (if change >= DUST_LIMIT then change else 0) >= MIN_NAME_OPERATION_FEE <==> t >= NAME_OUTPUT_VALUE)
  {
    var change := Wrap64(Wrap64(t) - NAME_OUTPUT_VALUE - fee);
    var k := (t + MAX_INT64 + 1) / TWO_64;
    assert Wrap64(t) == t - TWO_64 * k && k >= 0;
  }

  /**
   With less than that the subtraction can wrap around: a fee rate near the limit turns an
   empty coin into a transaction with a huge change output instead of an error.
   */
  lemma EmptyCoinPays(op: OutPoint, script: Bytes)
    requires |script| == 64
    ensures Change([Coin(op, 0, [])], script, NAME_OUTPUT_VALUE, 0x7F_FFFF_FFFF_FFFF, MIN_NAME_OPERATION_FEE) == MAX_INT64 - 743
  {
    var coins := [Coin(op, 0, [])];
    assert coins[..0] == [] && CoinTotal(coins) == 0;
    assert 0x7F_FFFF_FFFF_FFFF * 256 == MAX_INT64 + 1 - 256;
    assert FeeFor(coins, script, 0x7F_FFFF_FFFF_FFFF, MIN_NAME_OPERATION_FEE) == MAX_INT64 - 255;
  }

  lemma FeeRange(coins: seq<Coin>, script: Bytes, feeRate: int)
    ensures MIN_NAME_OPERATION_FEE <= FeeFor(coins, script, feeRate, MIN_NAME_OPERATION_FEE) <= MAX_INT64
  {
  }

  /** What the wallet asks of the inputs of a first update; keys holds the key hash of each of its addresses. */
  predicate FirstUpdateInputsOk(name: Bytes, randHex: Bytes, value: Bytes, coins: seq<Coin>, nameNewIndex: int, feeRate: int,
                                pubKeyHash: Bytes, keys: map<Bytes, Bytes>)
  {
    && feeRate >= 0 && 0 <= nameNewIndex < |coins| && coins[nameNewIndex].address in keys
    && ParamsOk(name, value, pubKeyHash) && randHex != []
    && DecodeHex(randHex).Some? && |DecodeHex(randHex).value| <= MAX_PUSH
  }

  /**
   The second phase: an output that reveals salt and name; the change goes back to the key of the
   first.  A transaction is built exactly when the inputs are accepted and the change is not
   negative.
   */
  method CreateNameFirstUpdateTx(name: Bytes, randHex: Bytes, value: Bytes, coins: seq<Coin>, nameNewIndex: int, feeRate: int,
                                 pubKeyHash: Bytes, keys: map<Bytes, Bytes>)
    returns (r: Option<NameTx>)
    requires |pubKeyHash| == PUBKEY_HASH_SIZE && forall a :: a in keys ==> |keys[a]| == PUBKEY_HASH_SIZE
    ensures !FirstUpdateInputsOk(name, randHex, value, coins, nameNewIndex, feeRate, pubKeyHash, keys) ==> r == None
    ensures FirstUpdateInputsOk(name, randHex, value, coins, nameNewIndex, feeRate, pubKeyHash, keys) ==>
              var rand := DecodeHex(randHex).value;
              var script := NameScriptOf(NameFirstUpdate, [name, rand, value], pubKeyHash);
              var changeScript := P2PKH(keys[coins[nameNewIndex].address]);
              && r == Funded(coins, script, NAME_OUTPUT_VALUE, feeRate, changeScript, MIN_NAME_OPERATION_FEE)
              && (r.Some? ==> Pays(r.value, coins, changeScript))
              && (|rand| <= MAX_READ ==> Carries(script, Parsed(NameFirstUpdate, name, value, rand), pubKeyHash))
  {
    hide Carries, DecodeHex, Funded, Pays, P2PKH, NameScriptOf;
    if feeRate < 0 || nameNewIndex < 0 || nameNewIndex >= |coins| || coins[nameNewIndex].address !in keys {
      return None;
    }
    var script := BuildNameFirstUpdateScript(name, randHex, value, pubKeyHash);
    if script.None? {
      return None;
    }
    var changeScript := P2PKH(keys[coins[nameNewIndex].address]);
    r := BuildNameTransaction(coins, script.value, NAME_OUTPUT_VALUE, feeRate, changeScript, MIN_NAME_OPERATION_FEE);
    if r.Some? {
      FundedPays(coins, script.value, feeRate, changeScript);
    }
  }

  lemma FundedPays(coins: seq<Coin>, script: Bytes, feeRate: int, changeScript: Bytes)
    requires coins != [] && Funded(coins, script, NAME_OUTPUT_VALUE, feeRate, changeScript, MIN_NAME_OPERATION_FEE).Some?
    ensures Pays(Funded(coins, script, NAME_OUTPUT_VALUE, feeRate, changeScript, MIN_NAME_OPERATION_FEE).value, coins, changeScript)
  {
    hide CoinTotal, Change;
    if CoinTotal(coins) >= 0 {
      BurnFeeIsPaid(coins, script, feeRate);
    }
  }
}
