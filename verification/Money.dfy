/** Value conservation: a block adds at most its subsidy to the sum of the unspent outputs. */
module Money {
  import opened Bytes
  import opened Records
  import opened Chain
  import opened Validation
  import opened BlockFacts
  import opened Reorg
  import opened Runs
  import U = UtxoSet

  // ----- the sum of the unspent outputs -----

  /** The total value of a UTXO set. */
  ghost function Supply(m: map<OutPoint, Utxo>): int
    decreases |m|
  {
    if m == map[] then 0
    else
      var op :| op in m;
      assert |(m - {op}).Keys| < |m.Keys| by { assert (m - {op}).Keys == m.Keys - {op}; }
      m[op].value + Supply(m - {op})
  }

  lemma {:induction false} SupplyDrop(m: map<OutPoint, Utxo>, op: OutPoint)
    requires op in m
    ensures Supply(m) == m[op].value + Supply(m - {op})
    decreases |m|
  {
    var o :| o in m && Supply(m) == m[o].value + Supply(m - {o});
    if o != op {
      Shrinks(m, o);
      Shrinks(m, op);
      SupplyDrop(m - {o}, op);
      SupplyDrop(m - {op}, o);
      assert (m - {o}) - {op} == (m - {op}) - {o};
    }
  }

  lemma Shrinks(m: map<OutPoint, Utxo>, op: OutPoint)
    requires op in m
    ensures |m - {op}| < |m|
  {
    assert (m - {op}).Keys == m.Keys - {op};
    assert |(m - {op}).Keys| == |m - {op}| && |m.Keys| == |m|;
  }

  lemma SupplyAdd(m: map<OutPoint, Utxo>, op: OutPoint, x: Utxo)
    requires op !in m
    ensures Supply(m[op := x]) == Supply(m) + x.value
  {
    SupplyDrop(m[op := x], op);
    assert m[op := x] - {op} == m;
  }

  // ----- what the steps of a block add to it -----

  function Delta(u: U.UtxoDb, steps: seq<U.UStep>): int {
    if steps == [] then 0
    else
      var rest := Delta(u, steps[..|steps| - 1]);
      match steps[|steps| - 1]
      case Spend(op) => rest - (if op in u.utxo then u.utxo[op].value else 0)
      case Create(_, x) => rest + x.value
  }

  /** No output is spent twice. */
  ghost predicate DistinctSpends(steps: seq<U.UStep>) {
    forall i, j :: 0 <= i < j < |steps| && steps[i].Spend? && steps[j].Spend? ==> steps[i].op != steps[j].op
  }

  lemma {:induction false} SupplyAfterSteps(u: U.UtxoDb, steps: seq<U.UStep>, h: Height)
    requires u.addr == U.AddressMirror(u.utxo) && U.Clean(u, steps) && DistinctSpends(steps)
    ensures Supply(U.ApplySteps(u, steps, h).utxo) == Supply(u.utxo) + Delta(u, steps)
  {
    hide U.AddressMirror, Supply;
    if steps != [] {
      var n := |steps| - 1;
      U.CleanPrefix(u, steps);
      assert DistinctSpends(steps[..n]);
      SupplyAfterSteps(u, steps[..n], h);
      U.ApplyStepsIsEffect(u, steps[..n], h);
      SpendsFrom(steps[..n]);
      hide U.Clean;
      var m := U.ApplySteps(u, steps[..n], h).utxo;
      match steps[n] {
        case Spend(op) =>
          assert op !in U.Spends(steps[..n]);
          assert op in m && m[op] == u.utxo[op];
          SupplyDrop(m, op);
        case Create(op, x) =>
          assert op !in m;
          SupplyAdd(m, op, x);
      }
    }
  }

  lemma {:induction false} DeltaConcat(u: U.UtxoDb, a: seq<U.UStep>, b: seq<U.UStep>)
    ensures Delta(u, a + b) == Delta(u, a) + Delta(u, b)
  {
    if b == [] {
      assert a + b == a;
    } else {
      var n := |b| - 1;
      assert (a + b)[..|a + b| - 1] == a + b[..n];
      DeltaConcat(u, a, b[..n]);
    }
  }

  lemma {:induction false} DeltaSpends(u: U.UtxoDb, tx: Tx, n: nat, h: Height, trackFrom: int)
    requires n <= |tx.ins| && SumInputs(u, tx.ins[..n], h, trackFrom).Total?
    ensures Delta(u, SpendSteps(tx)[..n]) == -SumInputs(u, tx.ins[..n], h, trackFrom).value
    ensures SumInputs(u, tx.ins[..n], h, trackFrom).value >= 0
  {
    if n > 0 {
      assert tx.ins[..n][..n - 1] == tx.ins[..n - 1];
      assert SpendSteps(tx)[..n][..n - 1] == SpendSteps(tx)[..n - 1];
      DeltaSpends(u, tx, n - 1, h, trackFrom);
    }
  }

  lemma {:induction false} DeltaCreates(u: U.UtxoDb, tx: Tx, n: nat, h: Height)
    requires n <= |tx.outs| && SumOutputs(tx.outs[..n]).Total?
    ensures Delta(u, CreateSteps(tx, h)[..n]) == SumOutputs(tx.outs[..n]).value
  {
    if n > 0 {
      assert tx.outs[..n][..n - 1] == tx.outs[..n - 1];
      assert CreateSteps(tx, h)[..n][..n - 1] == CreateSteps(tx, h)[..n - 1];
      DeltaCreates(u, tx, n - 1, h);
    }
  }

  lemma DeltaTx(u: U.UtxoDb, tx: Tx, idx: nat, h: Height, trackFrom: int)
    requires SumOutputs(tx.outs).Total?
    requires idx > 0 ==> SumInputs(u, tx.ins, h, trackFrom).Total?
    ensures Delta(u, TxSteps(tx, idx, h))
         == SumOutputs(tx.outs).value - (if idx > 0 then SumInputs(u, tx.ins, h, trackFrom).value else 0)
  {
    var spends := if idx > 0 then SpendSteps(tx) else [];
    DeltaConcat(u, spends, CreateSteps(tx, h));
    assert tx.outs[..|tx.outs|] == tx.outs && CreateSteps(tx, h)[..|tx.outs|] == CreateSteps(tx, h);
    DeltaCreates(u, tx, |tx.outs|, h);
    if idx > 0 {
      assert tx.ins[..|tx.ins|] == tx.ins && SpendSteps(tx)[..|tx.ins|] == SpendSteps(tx);
      DeltaSpends(u, tx, |tx.ins|, h, trackFrom);
    }
  }

  // ----- btcd's money rules -----

  /** No transaction but the coinbase pays out more than it spends. */
  ghost predicate PaysFromInputs(u: U.UtxoDb, txs: seq<Tx>, h: Height, trackFrom: int) {
    forall i :: 1 <= i < |txs| ==>
                  var spent, paid := SumInputs(u, txs[i].ins, h, trackFrom), SumOutputs(txs[i].outs);
                  spent.Total? && paid.Total? ==> paid.value <= spent.value
  }

  /** What btcd checks about value: distinct inputs, no negative output, outputs at most inputs. */
  ghost predicate MoneyFacts(p: Params, db: Db, b: Block, h: Height) {
    && DistinctSpends(BlockSteps(b.txs, h))
    && (forall i, j :: 0 <= i < |b.txs| && 0 <= j < |b.txs[i].outs| ==> b.txs[i].outs[j].value >= 0)
    && PaysFromInputs(db.u, b.txs, h, p.trackFrom)
  }

  lemma FeesLast(u: U.UtxoDb, txs: seq<Tx>, h: Height, trackFrom: int)
    requires |txs| > 1 && BlockFees(u, txs[1..], h, trackFrom).Total? && PaysFromInputs(u, txs, h, trackFrom)
    ensures var n := |txs| - 1;
            var spent, paid := SumInputs(u, txs[n].ins, h, trackFrom), SumOutputs(txs[n].outs);
            && spent.Total? && paid.Total?
            && BlockFees(u, txs[..n][1..], h, trackFrom).Total?
            && BlockFees(u, txs[1..], h, trackFrom).value
               == BlockFees(u, txs[..n][1..], h, trackFrom).value + (spent.value - paid.value)
            && PaysFromInputs(u, txs[..n], h, trackFrom)
  {
    var n := |txs| - 1;
    assert txs[1..][..n - 1] == txs[..n][1..] && txs[1..][n - 1] == txs[n];
    hide SumInputs, SumOutputs;
    forall i | 1 <= i < n ensures txs[..n][i] == txs[i] { }
  }

  lemma {:induction false} DeltaBlock(u: U.UtxoDb, txs: seq<Tx>, h: Height, trackFrom: int)
    requires txs != [] && SumOutputs(txs[0].outs).Total?
    requires BlockFees(u, txs[1..], h, trackFrom).Total? && PaysFromInputs(u, txs, h, trackFrom)
    ensures Delta(u, BlockSteps(txs, h)) == SumOutputs(txs[0].outs).value - BlockFees(u, txs[1..], h, trackFrom).value
    decreases |txs|
  {
    var n := |txs| - 1;
    hide SumInputs, SumOutputs, TxSteps, Delta, PaysFromInputs;
    DeltaConcat(u, BlockSteps(txs[..n], h), TxSteps(txs[n], n, h));
    if n == 0 {
      assert Delta(u, []) == 0 by { DeltaNone(u); }
      DeltaTx(u, txs[0], 0, h, trackFrom);
    } else {
      FeesLast(u, txs, h, trackFrom);
      hide BlockFees;
      DeltaBlock(u, txs[..n], h, trackFrom);
      DeltaTx(u, txs[n], n, h, trackFrom);
    }
  }

  lemma DeltaNone(u: U.UtxoDb)
    ensures Delta(u, []) == 0
  {
  }

  /** Connecting a valid block raises the supply by at most the block subsidy. */
  lemma ConnectAddsAtMostSubsidy(p: Params, db: Db, b: Block, h: Height)
    requires Inv(db, h - 1) && ValidBlock(p, db, b, h) && MoneyFacts(p, db, b, h)
    ensures Supply(Connect(db, b, h).u.utxo) <= Supply(db.u.utxo) + CalcBlockSubsidy(h, p.interval)
  {
    BlockIsClean(p, db, b, h);
    FeesLive(db.u, b.txs[1..], h, p.trackFrom);
    assert db.u.addr == U.AddressMirror(db.u.utxo);
    DeltaBlock(db.u, b.txs, h, p.trackFrom);
    hide Inv, U.AddressMirror, Supply, NamesOk, Facts, CalcBlockSubsidy, U.Clean, DistinctSpends, U.ApplySteps;
    SupplyAfterSteps(db.u, BlockSteps(b.txs, h), h);
  }

  // ----- the subsidy schedule -----

  ghost function SubsidySum(from: int, last: int, interval: int): nat
    requires interval > 0 && 0 <= from <= last + 1 && last <= MAX_INT32
    decreases last - from + 1
  {
    if from > last then 0 else SubsidySum(from, last - 1, interval) + CalcBlockSubsidy(last, interval)
  }

  /** The subsidy of an era, counted in halvings. */
  function EraSubsidy(era: nat): nat {
    if era >= MAX_HALVINGS then 0 else ShiftRight(INITIAL_SUBSIDY, era)
  }

  /** A bound on all subsidies from height h on: the rest of this era, and all later eras. */
  function Remaining(h: nat, interval: int): nat
    requires interval > 0
  {
    EraSubsidy(h / interval) * (interval - h % interval) + EraSubsidy(h / interval) * interval
  }

  lemma RemainingStep(h: nat, interval: int)
    requires interval > 0 && h <= MAX_INT32
    ensures CalcBlockSubsidy(h, interval) + Remaining(h + 1, interval) <= Remaining(h, interval)
  {
    var e, r := h / interval, h % interval;
    var s, s' := EraSubsidy(e), EraSubsidy(e + 1);
    assert CalcBlockSubsidy(h, interval) == s && 2 * s' <= s;
    hide EraSubsidy, CalcBlockSubsidy, Remaining;
    if r + 1 < interval {
      SameEra(h, e, r, interval, s, interval - (r + 1));
    } else {
      LastOfEra(h, e, interval, s, s');
    }
  }

  lemma SameEra(h: nat, e: nat, r: nat, interval: int, s: nat, k: nat)
    requires interval > 0 && h == e * interval + r && r + 1 + k == interval && k > 0 && s == EraSubsidy(e)
    ensures s + Remaining(h + 1, interval) == Remaining(h, interval)
  {
    hide EraSubsidy, Remaining;
    RemainingAt(h, e, r, interval, s, k + 1);
    RemainingAt(h + 1, e, r + 1, interval, s, k);
    Distribute(s, k);
  }

  lemma LastOfEra(h: nat, e: nat, interval: int, s: nat, s': nat)
    requires interval > 0 && h == e * interval + (interval - 1)
    requires s == EraSubsidy(e) && s' == EraSubsidy(e + 1) && 2 * s' <= s
    ensures s + Remaining(h + 1, interval) <= Remaining(h, interval)
  {
    hide EraSubsidy, Remaining;
    Distribute(e, interval);
    RemainingAt(h, e, interval - 1, interval, s, 1);
    RemainingAt(h + 1, e + 1, 0, interval, s', interval);
    EraEnds(s, s', interval);
  }

  lemma RemainingAt(h: nat, e: nat, r: nat, interval: int, s: nat, k: nat)
    requires interval > 0 && r < interval && h == e * interval + r && s == EraSubsidy(e) && k == interval - r
    ensures Remaining(h, interval) == s * k + s * interval
  {
    DivMod(h, e, r, interval);
  }

  lemma Distribute(s: int, k: int)
    ensures s * (k + 1) == s * k + s
    ensures (s + 1) * k == s * k + k
  {
  }

  lemma EraEnds(s: nat, s': nat, interval: nat)
    requires 2 * s' <= s
    ensures s' * interval + s' * interval <= s * interval
  {
    assert s' * interval + s' * interval == (2 * s') * interval;
    Monotone(2 * s', s, interval);
  }

  lemma Monotone(a: nat, b: nat, k: nat)
    requires a <= b
    ensures a * k <= b * k
  {
  }

  lemma DivMod(x: nat, q: nat, r: nat, d: nat)
    requires r < d && x == q * d + r
    ensures x / d == q && x % d == r
  {
    var q', r' := x / d, x % d;
    assert q' * d + r' == x;
    if q < q' {
      Monotone(q + 1, q', d);
      Distribute(q, d);
    } else if q' < q {
      Monotone(q' + 1, q, d);
      Distribute(q', d);
    }
  }

  lemma {:induction false} SubsidySumBound(from: int, last: int, interval: int)
    requires interval > 0 && 0 <= from <= last + 1 && last <= MAX_INT32
    ensures SubsidySum(from, last, interval) + Remaining(last + 1, interval) <= Remaining(from, interval)
    decreases last - from + 1
  {
    hide Remaining, CalcBlockSubsidy;
    if from <= last {
      SubsidySumBound(from, last - 1, interval);
      RemainingStep(last, interval);
    }
  }

  /** All subsidies after the genesis block together stay below two eras of the initial one. */
  lemma SubsidiesAreBounded(last: int, interval: int)
    requires interval > 0 && 0 <= last <= MAX_INT32
    ensures SubsidySum(1, last, interval) < 2 * INITIAL_SUBSIDY * interval
  {
    hide Remaining, CalcBlockSubsidy, SubsidySum;
    SubsidySumBound(1, last, interval);
    RemainingStep(0, interval);
    FirstSubsidy(interval);
    AllRemaining(interval);
  }

  lemma FirstSubsidy(interval: int)
    requires interval > 0
    ensures CalcBlockSubsidy(0, interval) > 0
  {
    DivMod(0, 0, 0, interval);
    assert ShiftRight(INITIAL_SUBSIDY, 0) == INITIAL_SUBSIDY;
  }

  lemma AllRemaining(interval: int)
    requires interval > 0
    ensures Remaining(0, interval) == 2 * INITIAL_SUBSIDY * interval
  {
    assert EraSubsidy(0) == INITIAL_SUBSIDY;
    RemainingAt(0, 0, 0, interval, INITIAL_SUBSIDY, interval);
  }

  // ----- over whole runs -----

  /** Every block connected in the run also satisfies btcd's money rules. */
  ghost predicate MoneyRun(p: Params, node: Node, events: seq<Event>)
    decreases |events|
  {
    events == [] ||
    (&& (events[0].ConnectBlock? && node.tip < MAX_INT32 ==> MoneyFacts(p, node.db, events[0].block, node.tip + 1))
     && MoneyRun(p, Step(node, events[0]), events[1..]))
  }

  /** Every surviving block keeps the supply within its subsidy. */
  ghost predicate Conserving(p: Params, base: Db, t0: Height, stack: seq<Link>)
    requires t0 + |stack| <= MAX_INT32 && p.Valid()
  {
    stack == [] ||
    var before := Replay(base, t0, stack[..|stack| - 1]);
    && Conserving(p, base, t0, stack[..|stack| - 1])
    && Supply(Connect(before, stack[|stack| - 1].block, t0 + |stack|).u.utxo) <= Supply(before.u.utxo) + CalcBlockSubsidy(t0 + |stack|, p.interval)
  }

  lemma {:induction false} ConservingBound(p: Params, base: Db, t0: Height, stack: seq<Link>)
    requires 0 <= t0 && t0 + |stack| <= MAX_INT32 && p.Valid() && Conserving(p, base, t0, stack)
    ensures Supply(Replay(base, t0, stack).u.utxo) <= Supply(base.u.utxo) + SubsidySum(t0 + 1, t0 + |stack|, p.interval)
  {
    hide Supply, Connect, CalcBlockSubsidy;
    if stack != [] {
      ConservingBound(p, base, t0, stack[..|stack| - 1]);
    }
  }

  /** The invariant of a run in which every block meets the money rules. */
  ghost predicate GoodConserving(p: Params, base: Db, t0: Height, node: Node) {
    p.Valid() && Good(p, base, t0, node) && Conserving(p, base, t0, node.stack)
  }

  lemma {:induction false} RunConserves(p: Params, base: Db, t0: Height, node: Node, events: seq<Event>)
    requires GoodConserving(p, base, t0, node) && AllowedRun(p, base, node, events) && MoneyRun(p, node, events)
    ensures GoodConserving(p, base, t0, Run(node, events))
    decreases |events|
  {
    hide GoodConserving, Good, Allowed, AfterConnect, AfterDisconnect, MoneyFacts;
    if events != [] {
      AllowedEnabled(p, base, node, events[0]);
      OneConserves(p, base, t0, node, events[0]);
      RunConserves(p, base, t0, Step(node, events[0]), events[1..]);
    }
  }

  lemma OneConserves(p: Params, base: Db, t0: Height, node: Node, e: Event)
    requires GoodConserving(p, base, t0, node) && Allowed(p, base, node, e) && Enabled(node, e)
    requires e.ConnectBlock? && node.tip < MAX_INT32 ==> MoneyFacts(p, node.db, e.block, node.tip + 1)
    ensures GoodConserving(p, base, t0, Step(node, e))
  {
    hide Good, Allowed, Conserving, MoneyFacts, AfterConnect;
    match e {
      case ConnectBlock(b) =>
        StepConnect(p, base, t0, node, b);
        StepConserves(p, base, t0, node, b);
      case DisconnectTip =>
        StepDisconnect(p, base, t0, node);
        BelowConserves(p, base, t0, node);
    }
  }

  lemma BelowConserves(p: Params, base: Db, t0: Height, node: Node)
    requires GoodConserving(p, base, t0, node) && node.stack != [] && node.tip > 0
    ensures t0 + |node.stack| - 1 <= MAX_INT32 && Conserving(p, base, t0, AfterDisconnect(node).stack)
  {
    hide Connect, Disconnect, Supply, Sound, Reversible, Prune;
  }

  lemma StepConserves(p: Params, base: Db, t0: Height, node: Node, b: Block)
    requires p.Valid() && Good(p, base, t0, node) && Conserving(p, base, t0, node.stack)
    requires Allowed(p, base, node, ConnectBlock(b)) && MoneyFacts(p, node.db, b, node.tip + 1)
    ensures Conserving(p, base, t0, AfterConnect(node, b, node.tip + 1).stack)
  {
    hide Inv, Supply, Connect, Prune, ValidBlock, ConnectOk, Undoable, KnownTxs, MoneyFacts, EncodableOutputs;
    hide Sound, Reversible, Replay, TxIds, StackIds, PrunesAt, Conserving, CalcBlockSubsidy;
    var h, r := node.tip + 1, Replay(base, t0, node.stack);
    SoundReplay(p, base, t0, node.stack);
    ConnectReplayed(p, r, b, h, node.floor);
    MoneyFactsOnPruned(p, r, b, h, node.floor);
    ConnectAddsAtMostSubsidy(p, r, b, h);
    OneMoreConserving(p, base, t0, node.stack, Link(b, Undoable(node.db, b, h)));
  }

  lemma OneMoreConserving(p: Params, base: Db, t0: Height, stack: seq<Link>, top: Link)
    requires p.Valid() && t0 + |stack| < MAX_INT32 && Conserving(p, base, t0, stack)
    requires var before, h := Replay(base, t0, stack), t0 + |stack| + 1;
             Supply(Connect(before, top.block, h).u.utxo) <= Supply(before.u.utxo) + CalcBlockSubsidy(h, p.interval)
    ensures Conserving(p, base, t0, stack + [top])
  {
    hide Supply, Connect, CalcBlockSubsidy;
    assert (stack + [top])[..|stack|] == stack;
  }

  lemma MoneyFactsOnPruned(p: Params, db: Db, b: Block, h: Height, floor: int)
    requires MoneyFacts(p, Prune(db, floor), b, h)
    ensures MoneyFacts(p, db, b, h)
  {
    forall i | 1 <= i < |b.txs| ensures SumInputs(db.u, b.txs[i].ins, h, p.trackFrom) == SumInputs(Prune(db, floor).u, b.txs[i].ins, h, p.trackFrom) {
      SumInputsSame(db.u, Prune(db, floor).u, b.txs[i].ins, h, p.trackFrom);
    }
    hide SumInputs, DistinctSpends, Prune;
  }

  /** Over any run the supply grows by at most the subsidies of the surviving blocks. */
  lemma RunSupply(p: Params, base: Db, t0: Height, events: seq<Event>)
    requires p.Valid() && Inv(base, t0)
    requires AllowedRun(p, base, Start(base, t0), events) && MoneyRun(p, Start(base, t0), events)
    ensures var node := Run(Start(base, t0), events);
            && t0 <= node.tip
            && Supply(node.db.u.utxo) <= Supply(base.u.utxo) + SubsidySum(t0 + 1, node.tip, p.interval)
  {
    hide Good, Inv, AllowedRun, MoneyRun, Run, Replay, Supply, Conserving, SubsidySum, Prune;
    StartGood(p, base, t0);
    HeightOfInv(base, t0);
    StartConserving(p, base, t0);
    assert GoodConserving(p, base, t0, Start(base, t0));
    RunConserves(p, base, t0, Start(base, t0), events);
    var node := Run(Start(base, t0), events);
    GoodState(p, base, t0, node);
    ConservingBound(p, base, t0, node.stack);
  }

  lemma StartConserving(p: Params, base: Db, t0: Height)
    requires p.Valid()
    ensures Conserving(p, base, t0, Start(base, t0).stack)
  {
  }

  /**
   From an empty database, no run of connects and disconnects makes more than two eras of the
   initial subsidy: 21 million coins with the main network's interval of 210,000 blocks.
   */
  lemma SupplyIsBounded(p: Params, events: seq<Event>)
    requires p.Valid() && AllowedRun(p, EMPTY, Start(EMPTY, 0), events) && MoneyRun(p, Start(EMPTY, 0), events)
    ensures Supply(Run(Start(EMPTY, 0), events).db.u.utxo) < 2 * INITIAL_SUBSIDY * p.interval
    ensures p.interval == 210000 ==> Supply(Run(Start(EMPTY, 0), events).db.u.utxo) < 21000000 * COIN < MAX_INT64
  {
    hide Inv, AllowedRun, MoneyRun, Run, Supply, CalcBlockSubsidy, EMPTY;
    EmptyInv();
    EmptySupply();
    RunSupply(p, EMPTY, 0, events);
    SubsidiesAreBounded(Run(Start(EMPTY, 0), events).tip, p.interval);
  }

  lemma HeightOfInv(db: Db, tip: int)
    requires Inv(db, tip)
    ensures tip >= 0
  {
  }

  lemma EmptySupply()
    ensures Supply(EMPTY.u.utxo) == 0
  {
  }

  lemma EmptyInv()
    ensures Inv(EMPTY, 0)
  {
  }
}
