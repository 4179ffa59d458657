/** Two valid blocks, the first with a transaction that writes two names, of which the second cannot be undone. */
module SharedWitness {
  import opened Bytes
  import opened Records
  import opened Chain
  import opened Validation
  import opened BlockFacts
  import opened Reorg
  import opened Runs
  import opened SharedTransactions
  import Maps
  import N = NameStore
  import NE = NameExpiry
  import NI = NameInvariant
  import NU = NameUndo
  import NH = NameHistory
  import U = UtxoSet

  // ----- a block of an empty coinbase and one transaction with one input -----

  function Pay(reward: Hash, t: Tx): Block {
    Block([Tx(reward, [], []), t], 0)
  }

  lemma PayShape(reward: Hash, t: Tx, h: Height)
    ensures BlockEntries(Pay(reward, t).txs) == TxEntries(t)
    ensures BlockSteps(Pay(reward, t).txs, h) == SpendSteps(t) + CreateSteps(t, h)
  {
    var r, txs := Tx(reward, [], []), Pay(reward, t).txs;
    assert txs[..1] == [r] && [r][..0] == [];
    assert BlockEntries([r][..0]) == [] && BlockSteps([r][..0], h) == [];
    assert TxEntries(r) == [] && TxSteps(r, 0, h) == [] + CreateSteps(r, h) && CreateSteps(r, h) == [];
    assert BlockEntries([r]) == [] && BlockSteps([r], h) == [];
  }

  lemma OneInput(u: U.UtxoDb, op: OutPoint, h: Height, trackFrom: int)
    requires op in u.utxo && u.utxo[op].value >= 0
    ensures SumInputs(u, [op], h, trackFrom) == Total(u.utxo[op].value)
  {
    assert [op][..0] == [];
    assert SumInputs(u, [op][..0], h, trackFrom) == Total(0);
  }

  lemma PaySubsidy(p: Params, u: U.UtxoDb, reward: Hash, t: Tx, paid: int, h: Height)
    requires p.Valid() && 0 <= h && |t.ins| == 1 && t.ins[0] in u.utxo && u.utxo[t.ins[0]].value >= 0
    requires SumOutputs(t.outs) == Total(paid)
    ensures SubsidyOk(p, u, Pay(reward, t), h)
  {
    var b := Pay(reward, t);
    assert t.ins == [t.ins[0]];
    OneInput(u, t.ins[0], h, p.trackFrom);
    assert b.txs[1..] == [t] && [t][..0] == [];
    assert BlockFees(u, [t][..0], h, p.trackFrom) == Total(0);
    hide SumInputs;
    assert SumOutputs(b.txs[0].outs) == Total(0);
    hide CalcBlockSubsidy;
    assert BlockFees(u, [t], h, p.trackFrom).Total? && BlockFees(u, [t], h, p.trackFrom).value >= 0;
  }

  lemma PayIsValid(p: Params, db: Db, reward: Hash, t: Tx, paid: int, h: Height)
    requires p.Valid() && p.trackFrom <= h && 1 <= h
    requires |t.ins| == 1 && t.ins[0] in db.u.utxo && SumOutputs(t.outs) == Total(paid)
    requires db.u.utxo[t.ins[0]].value >= paid + MIN_NAME_OPERATION_FEE && paid >= 0
    requires |t.outs| <= 2 && forall j :: 0 <= j < |t.outs| ==> OutputOk(db.n.live, t, t.outs[j], h)
    requires NoClashes(TxEntries(t))
    requires reward != t.id && reward !in KnownTxs(db) && t.id !in KnownTxs(db)
    ensures ValidBlock(p, db, Pay(reward, t), h)
  {
    var b := Pay(reward, t);
    PayShape(reward, t, h);
    PaySubsidy(p, db.u, reward, t, paid, h);
    assert t.ins == [t.ins[0]];
    OneInput(db.u, t.ins[0], h, p.trackFrom);
    hide SubsidyOk, SumInputs, SumOutputs, BlockEntries, BlockSteps, KnownTxs, OutputOk, TxEntries, NoClashes;
    assert TxOk(p, db, b.txs[0], 0, h);
    assert TxOk(p, db, b.txs[1], 1, h) by {
      assert MIN_RELAY_TX_FEE <= MIN_NAME_OPERATION_FEE;
    }
    hide TxOk;
    assert forall i :: 0 <= i < |b.txs| ==> b.txs[i] == b.txs[0] || b.txs[i] == b.txs[1];
    assert TxIds(b.txs) == {reward, t.id};
  }

  // ----- two such blocks -----

  /** Two names to register, their commitments, a coin, and the ids of the transactions of both blocks. */
  datatype Pair = Pair(a: Name, b: Name, ca: Bytes, cb: Bytes, coin: OutPoint, rewards: (Hash, Hash), both: Hash, again: Hash)
  {
    predicate Apart() {
      && 0 < |a| <= MAX_NAME_LENGTH && 0 < |b| <= MAX_NAME_LENGTH && a != b && ca != cb
      && rewards.0 != coin.tx && both != coin.tx && rewards.0 != both
      && rewards.1 !in {coin.tx, rewards.0, both} && again !in {coin.tx, rewards.0, both, rewards.1}
    }

    /** Both commitments are stored, and there is a coin. */
    function Before(): Db {
      Db(N.NameDb(N.Live(map[], {}, map[], map[], map[ca := 1, cb := 1]), N.Backups(map[], {}, map[], map[])),
         U.UtxoDb(map[coin := Utxo(10 * COIN, [], [], 1)], {AddressOut([], coin)}, map[], {}))
    }

    /** One transaction registers both names. */
    function Register(): Tx {
      Tx(both, [coin], [Output(5 * COIN, [], [], N.FirstUpdateOp(a, [], ca), []), Output(1000, [], [], N.FirstUpdateOp(b, [], cb), [])])
    }

    function First(): Block { Pay(rewards.0, Register()) }

    /** The owner of the first name updates it. */
    function Update(): Tx {
      Tx(again, [OutPoint(both, 0)], [Output(1000, [], [], N.UpdateOp(a, []), [])])
    }

    function Second(): Block { Pay(rewards.1, Update()) }

    function After(): Db { Process(Before(), First(), 20) }
  }

  lemma NoLists<K(!new)>()
    ensures var none: map<K, seq<Hash>> := map[]; Maps.Elements(none) == {} && Maps.Disjoint(none)
  {
  }

  lemma BeforeInv(q: Pair)
    ensures Inv(q.Before(), 19) && N.Complete(q.Before().n) && KnownTxs(q.Before()) == {q.coin.tx}
  {
    NoLists<HeightName>();
    NoLists<Name>();
    hide Maps.Elements, Maps.Disjoint;
    var db := q.Before();
    assert N.LiveInv(db.n.live, 19);
    hide N.LiveInv;
    assert U.Inv(db.u, 19);
    assert N.HistoryMatchesNames(db.n.live);
  }

  lemma RegisterShape(q: Pair, h: Height)
    ensures TxEntries(q.Register()) == [N.Entry(q.both, 0, N.FirstUpdateOp(q.a, [], q.ca), []),
                                          N.Entry(q.both, 1, N.FirstUpdateOp(q.b, [], q.cb), [])]
    ensures SpendSteps(q.Register()) == [U.Spend(q.coin)]
    ensures CreateSteps(q.Register(), h) == [U.Create(OutPoint(q.both, 0), Utxo(5 * COIN, [], [], h)),
                                               U.Create(OutPoint(q.both, 1), Utxo(1000, [], [], h))]
    ensures SumOutputs(q.Register().outs) == Total(5 * COIN + 1000)
  {
    var outs := q.Register().outs;
    assert outs[..1] == [outs[0]] && [outs[0]][..0] == [];
    assert SumOutputs([outs[0]][..0]) == Total(0);
    assert SumOutputs([outs[0]]) == Total(5 * COIN);
  }

  lemma RegisterRules(q: Pair)
    requires q.Apart()
    ensures var t, l := q.Register(), q.Before().n.live; OutputOk(l, t, t.outs[0], 20) && OutputOk(l, t, t.outs[1], 20)
    ensures NoClashes(TxEntries(q.Register())) && NH.Overwritten(TxEntries(q.Register()), q.a)
  {
    RegisterShape(q, 20);
    var es := TxEntries(q.Register());
    hide TxEntries, SpendSteps, CreateSteps, SumOutputs;
    assert es[0].op.Names() && es[1].op.Names() && es[0].tx == es[1].tx && es[0].op.name == q.a;
  }

  lemma FirstIsValid(p: Params, q: Pair)
    requires p.Valid() && p.trackFrom <= 20 && q.Apart()
    ensures ValidBlock(p, q.Before(), q.First(), 20) && EncodableOutputs(q.First().txs)
    ensures !OneNamePerTx(q.First().txs) && NH.Overwritten(BlockEntries(q.First().txs), q.a)
  {
    hide KnownTxs, BlockEntries, BlockSteps, TxEntries, SpendSteps, CreateSteps, SumOutputs, Inv, OutputOk, NoClashes, NH.Overwritten, ValidBlock;
    BeforeInv(q);
    RegisterShape(q, 20);
    RegisterRules(q);
    PayShape(q.rewards.0, q.Register(), 20);
    var outs := q.First().txs[1].outs;
    assert outs[0].op.Names() && outs[1].op.Names();
    PayIsValid(p, q.Before(), q.rewards.0, q.Register(), 5 * COIN + 1000, 20);
  }

  /** The first output of the transaction is unspent and owns the first name. */
  lemma AfterFirst(p: Params, q: Pair)
    requires p.Valid() && p.trackFrom <= 20 && q.Apart()
    ensures var x := q.After();
            && Inv(x, 20) && KnownTxs(x) <= {q.coin.tx, q.rewards.0, q.both}
            && OutPoint(q.both, 0) in x.u.utxo && x.u.utxo[OutPoint(q.both, 0)].value == 5 * COIN
            && OwnedBy(x.n.live, q.a, [OutPoint(q.both, 0)], 21)
  {
    hide Inv, ValidBlock, KnownTxs, Process, N.Complete, OwnedBy, EncodableOutputs;
    BeforeInv(q);
    FirstIsValid(p, q);
    ProcessInv(p, q.Before(), q.First(), 20);
    KnownAfterProcess(p, q.Before(), q.First(), 20);
    assert TxIds(q.First().txs) == {q.rewards.0, q.both};
    CoinAfter(p, q);
    NameAfter(p, q);
  }

  lemma CoinAfter(p: Params, q: Pair)
    requires ValidBlock(p, q.Before(), q.First(), 20) && Inv(q.Before(), 19)
    ensures var utxo := q.After().u.utxo; OutPoint(q.both, 0) in utxo && utxo[OutPoint(q.both, 0)].value == 5 * COIN
  {
    hide ValidBlock, Inv, Process, SumOutputs, TxEntries, BlockEntries, N.ApplyEntries, NE.Without, NE.WithBackups, NE.Only;
    ProcessShape(p, q.Before(), q.First(), 20);
    RegisterShape(q, 20);
    PayShape(q.rewards.0, q.Register(), 20);
    hide BlockSteps, SpendSteps, CreateSteps, U.AddressMirror, U.Spends, U.Creates;
    assert BlockSteps(q.First().txs, 20)
        == [U.Spend(q.coin)] + [U.Create(OutPoint(q.both, 0), Utxo(5 * COIN, [], [], 20)), U.Create(OutPoint(q.both, 1), Utxo(1000, [], [], 20))];
    FirstCreated(q.coin, OutPoint(q.both, 0), OutPoint(q.both, 1), Utxo(5 * COIN, [], [], 20), Utxo(1000, [], [], 20));
  }

  lemma FirstCreated(coin: OutPoint, op: OutPoint, op': OutPoint, x: Utxo, x': Utxo)
    requires op != op'
    ensures var creates := U.Creates([U.Spend(coin)] + [U.Create(op, x), U.Create(op', x')]); op in creates && creates[op] == x
  {
    var steps := [U.Spend(coin)] + [U.Create(op, x), U.Create(op', x')];
    assert steps[..2] == [U.Spend(coin), U.Create(op, x)];
    assert U.Creates(steps[..2])[op] == x;
  }

  lemma NameAfter(p: Params, q: Pair)
    requires ValidBlock(p, q.Before(), q.First(), 20) && Inv(q.Before(), 19) && Inv(q.After(), 20) && N.Complete(q.Before().n)
    ensures OwnedBy(q.After().n.live, q.a, [OutPoint(q.both, 0)], 21)
  {
    var db, es := q.Before(), BlockEntries(q.First().txs);
    var w := NE.Without(db.n.live, NI.Expired(db.n.live, 20));
    hide ValidBlock, Process, SumOutputs, BlockEntries, BlockSteps, N.ApplyEntries, NE.Without, N.Complete, NI.Expired,
      N.Indexed, N.HistoryMatchesNames, NU.Fits;
    CompleteWithout(p, db, q.First(), 20);
    RegisterShape(q, 20);
    PayShape(q.rewards.0, q.Register(), 20);
    hide TxEntries, SpendSteps, CreateSteps;
    NU.ApplyEntriesShape(w, es, 20, 0);
    NU.EarlierFrom(es);
    assert es[0].op.Names() && es[0].op.name == q.a;
    var m := NH.RecordOfLastWriter(w, es, 20, 0, 0);
    assert NH.WrittenBy(w, q.After().n.live, es[0]);
    assert N.RecordInv(q.After().n.live.names[q.a], 20);
  }

  /**
   Both blocks are valid, one after the other; the second only updates the first name, and yet
   undoing it does not give back the database.
   */
  lemma ValidButNotUndone(p: Params, q: Pair)
    requires p.Valid() && p.trackFrom <= 20 && q.Apart()
    ensures ValidBlock(p, q.Before(), q.First(), 20) && !OneNamePerTx(q.First().txs)
    ensures ValidBlock(p, q.After(), q.Second(), 21) && NoReRegistration(q.After().n.live, BlockEntries(q.Second().txs))
    ensures Disconnect(Process(q.After(), q.Second(), 21), q.Second(), 21) != q.After()
  {
    hide Inv, KnownTxs, Process, ValidBlock, Disconnect, OneNamePerTx, NH.Overwritten, EncodableOutputs, OwnedBy, N.Complete;
    BeforeInv(q);
    FirstIsValid(p, q);
    AfterFirst(p, q);
    PayShape(q.rewards.1, q.Update(), 21);
    assert TxEntries(q.Update()) == [N.Entry(q.again, 0, N.UpdateOp(q.a, []), [])];
    var outs := q.Update().outs;
    assert outs[..0] == [] && SumOutputs(outs[..0]) == Total(0);
    assert SumOutputs(outs) == Total(1000);
    assert OutputOk(q.After().n.live, q.Update(), outs[0], 21);
    hide BlockEntries, BlockSteps, TxEntries, SumOutputs, OutputOk;
    PayIsValid(p, q.After(), q.rewards.1, q.Update(), 1000, 21);
    NextBlockUndone(p, q.Before(), q.First(), 20, q.Second());
    assert BlockEntries(q.Second().txs)[0].op == N.UpdateOp(q.a, []);
  }
}
