/** Two-phase registration, from the wallet's scripts to the block rules. */
module Registration {
  import opened Bytes
  import opened Records
  import opened Chain
  import opened Validation
  import opened BlockFacts
  import opened NameScript
  import opened WalletTx
  import opened Runs
  import opened Reorg
  import Outcome
  import Cursor
  import N = NameStore
  import U = UtxoSet

  // ----- scripts as block outputs -----

  /** The name operation of a script; the commitment of a registration is the hash of salt and name. */
  function OpOf(h160: Bytes -> Bytes, script: Bytes): N.NameOp {
    match ParseScript(script)
    case None => N.NoOp
    case Some((p, _)) =>
      match p.op
      case NameNew => N.NewOp(p.extra)
      case NameFirstUpdate => N.FirstUpdateOp(p.name, p.value, ComputeNameNewHash(h160, p.extra, p.name))
      case NameUpdate => N.UpdateOp(p.name, p.value)
  }

  /** The owner's address: the one of the script behind the name prefix. */
  function OwnerOf(addressOf: Bytes -> Bytes, script: Bytes): Bytes {
    if |script| < 2 then []
    else
      match SkipPrefix(script)
      case None => []
      case Some(offset) => if offset >= |script| then [] else addressOf(script[offset..])
  }

  /** A transaction output as the name database sees it. */
  function Decode(h160: Bytes -> Bytes, addressOf: Bytes -> Bytes, w: WireOut): Output {
    Output(w.value, w.script, addressOf(w.script), OpOf(h160, w.script), OwnerOf(addressOf, w.script))
  }

  function DecodeAll(h160: Bytes -> Bytes, addressOf: Bytes -> Bytes, ws: seq<WireOut>): (r: seq<Output>)
    ensures |r| == |ws|
  {
    seq(|ws|, i requires 0 <= i < |ws| => Decode(h160, addressOf, ws[i]))
  }

  /** An output whose script carries an operation has that operation, and belongs to the key hash it names. */
  lemma CarriedOutput(h160: Bytes -> Bytes, addressOf: Bytes -> Bytes, w: WireOut, p: Parsed, pubKeyHash: Bytes)
    requires |pubKeyHash| == PUBKEY_HASH_SIZE && Carries(w.script, p, pubKeyHash)
    ensures Decode(h160, addressOf, w).owner == addressOf(P2PKH(pubKeyHash))
    ensures Decode(h160, addressOf, w).op ==
            match p.op
            case NameNew => N.NewOp(p.extra)
            case NameFirstUpdate => N.FirstUpdateOp(p.name, p.value, h160(p.extra + p.name))
            case NameUpdate => N.UpdateOp(p.name, p.value)
  {
    hide ParseScript;
    hide SkipPrefix;
  }

  /** A plain payment is no name operation. */
  lemma PaymentIsNoName(h160: Bytes -> Bytes, addressOf: Bytes -> Bytes, w: WireOut, pubKeyHash: Bytes)
    requires w.script == P2PKH(pubKeyHash)
    ensures Decode(h160, addressOf, w).op == N.NoOp
  {
    hide ReadPushes, FormatEnd;
  }

  // ----- the first phase: the commitment is stored -----

  /** The operation stores or deletes the commitment. */
  predicate Touches(op: N.NameOp, c: Bytes) {
    (op.NewOp? && op.commit == c) || (op.FirstUpdateOp? && op.commit == c)
  }

  lemma {:induction false} Untouched(l: N.Live, es: seq<N.Entry>, h: Height, time: int, c: Bytes)
    requires forall i :: 0 <= i < |es| ==> !Touches(es[i].op, c)
    ensures var l' := N.ApplyEntries(l, es, h, time);
            (c in l'.nameNew <==> c in l.nameNew) && (c in l.nameNew ==> l'.nameNew[c] == l.nameNew[c])
  {
    if es != [] {
      assert forall i :: 0 <= i < |es| - 1 ==> es[..|es| - 1][i] == es[i];
      Untouched(l, es[..|es| - 1], h, time, c);
    }
  }

  lemma {:induction false} Registers(l: N.Live, es: seq<N.Entry>, j: nat, h: Height, time: int, c: Bytes)
    requires j < |es| && es[j].op == N.NewOp(c)
    requires forall i :: 0 <= i < |es| && i != j ==> !Touches(es[i].op, c)
    ensures var l' := N.ApplyEntries(l, es, h, time); c in l'.nameNew && l'.nameNew[c] == h
    decreases |es|
  {
    var n := |es| - 1;
    assert forall i :: 0 <= i < n ==> es[..n][i] == es[i];
    if j < n {
      Registers(l, es[..n], j, h, time, c);
      assert !Touches(es[n].op, c);
    }
  }

  lemma {:induction false} ExpiryKeepsCommitments(d: N.NameDb, names: seq<Name>, h: Height)
    ensures N.ExpireAll(d, names, h).live.nameNew == d.live.nameNew
  {
    if names != [] {
      ExpiryKeepsCommitments(d, names[..|names| - 1], h);
    }
  }

  /** Connecting a valid block with a NAME_NEW stores its commitment with the block's height. */
  lemma CommitmentStored(p: Params, db: Db, b: Block, h: Height, j: nat, c: Bytes)
    requires ValidBlock(p, db, b, h)
    requires j < |BlockEntries(b.txs)| && BlockEntries(b.txs)[j].op == N.NewOp(c)
    ensures var l := Connect(db, b, h).n.live; c in l.nameNew && l.nameNew[c] == h
  {
    hide ValidBlock, BlockEntries, N.ExpireOne;
    var es := BlockEntries(b.txs);
    forall i | 0 <= i < |es| && i != j ensures !Touches(es[i].op, c) {
      OneRegistration(p, db, b, h, i, j, c);
    }
    var d := ExpireNames(db.n, h);
    Registers(d.live, es, j, h, b.time, c);
  }

  lemma OneRegistration(p: Params, db: Db, b: Block, h: Height, i: nat, j: nat, c: Bytes)
    requires ValidBlock(p, db, b, h)
    requires i < |BlockEntries(b.txs)| && j < |BlockEntries(b.txs)| && i != j && BlockEntries(b.txs)[j].op == N.NewOp(c)
    ensures !Touches(BlockEntries(b.txs)[i].op, c)
  {
    var tx, o := EntryRules(p, db, b, h, i);
    var tx', o' := EntryRules(p, db, b, h, j);
    assert NoClashes(BlockEntries(b.txs));
    hide BlockEntries;
    assert !Clash(BlockEntries(b.txs)[if i < j then i else j].op, BlockEntries(b.txs)[if i < j then j else i].op);
  }

  // ----- in between: the commitment waits -----

  /** No registration in the block uses up the commitment. */
  ghost predicate Spares(b: Block, c: Bytes) {
    forall i :: 0 <= i < |BlockEntries(b.txs)| ==> !(BlockEntries(b.txs)[i].op.FirstUpdateOp? && BlockEntries(b.txs)[i].op.commit == c)
  }

  lemma CommitmentKept(p: Params, db: Db, b: Block, h: Height, c: Bytes)
    requires ValidBlock(p, db, b, h) && Spares(b, c) && c in db.n.live.nameNew
    ensures var l := Connect(db, b, h).n.live; c in l.nameNew && l.nameNew[c] == db.n.live.nameNew[c]
  {
    hide ValidBlock, BlockEntries, N.ExpireOne;
    var es := BlockEntries(b.txs);
    forall i | 0 <= i < |es| ensures !Touches(es[i].op, c) {
      var tx, o := EntryRules(p, db, b, h, i);
    }
    ExpiryKeepsCommitments(db.n, Cursor.GetExpiredNames(db.n.live.expiration, h), h);
    Untouched(ExpireNames(db.n, h).live, es, h, b.time, c);
  }

  /** A block of the chain includes the operation, and no later block of the chain uses the commitment up. */
  ghost predicate Awaits(stack: seq<Link>, m: nat, op: N.NameOp, c: Bytes)
    requires m < |stack|
  {
    && (exists j :: 0 <= j < |BlockEntries(stack[m].block.txs)| && BlockEntries(stack[m].block.txs)[j].op == op)
    && (forall i :: m < i < |stack| ==> Spares(stack[i].block, c))
  }

  /** The commitment stays stored with the height of the block that registered it. */
  lemma {:induction false} CommitmentWaits(p: Params, base: Db, t0: Height, stack: seq<Link>, m: nat, c: Bytes)
    requires t0 + |stack| <= MAX_INT32 && Sound(p, base, t0, stack) && m < |stack| && Awaits(stack, m, N.NewOp(c), c)
    ensures var l := Replay(base, t0, stack).n.live; c in l.nameNew && l.nameNew[c] == t0 + m + 1
  {
    hide Inv, ValidBlock, EncodableOutputs, Connect, Spares;
    var rest, top := stack[..|stack| - 1], stack[|stack| - 1];
    if m == |stack| - 1 {
      var j :| 0 <= j < |BlockEntries(top.block.txs)| && BlockEntries(top.block.txs)[j].op == N.NewOp(c);
      CommitmentStored(p, Replay(base, t0, rest), top.block, t0 + |stack|, j, c);
    } else {
      assert forall i :: 0 <= i < |rest| ==> rest[i] == stack[i];
      CommitmentWaits(p, base, t0, rest, m, c);
      CommitmentKept(p, Replay(base, t0, rest), top.block, t0 + |stack|, c);
    }
  }

  // ----- the second phase -----

  /** The wallet's coins are live outputs with the values it believes they have. */
  predicate Known(u: U.UtxoDb, coins: seq<Coin>) {
    forall i :: 0 <= i < |coins| ==> coins[i].op in u.utxo && u.utxo[coins[i].op].value == coins[i].value && coins[i].value >= 0
  }

  lemma {:induction false} KnownSum(u: U.UtxoDb, coins: seq<Coin>, h: Height, trackFrom: int)
    requires Known(u, coins) && CoinTotal(coins) <= MAX_INT64
    ensures SumInputs(u, Ops(coins), h, trackFrom) == Sum.Total(CoinTotal(coins)) && CoinTotal(coins) >= 0
  {
    if coins != [] {
      var n := |coins| - 1;
      assert forall i :: 0 <= i < n ==> coins[..n][i] == coins[i];
      assert Ops(coins)[..n] == Ops(coins[..n]);
      TotalGrows(u, coins, n);
      KnownSum(u, coins[..n], h, trackFrom);
    }
  }

  lemma TotalGrows(u: U.UtxoDb, coins: seq<Coin>, n: nat)
    requires Known(u, coins) && |coins| == n + 1
    ensures CoinTotal(coins[..n]) <= CoinTotal(coins)
  {
  }

  /** The wallet's registration pays its fee. */
  lemma RegistrationPays(p: Params, u: U.UtxoDb, t: NameTx, outs: seq<Output>, coins: seq<Coin>, changeScript: Bytes, id: Hash, h: Height)
    requires Pays(t, coins, changeScript) && Known(u, coins) && NAME_OUTPUT_VALUE <= CoinTotal(coins) <= MAX_INT64
    requires |outs| == |t.outs| && forall i :: 0 <= i < |outs| ==> outs[i].value == t.outs[i].value
    ensures TransactionFeeOk(p, u, Tx(id, t.ins, outs), NameFirstUpdate, h)
  {
    KnownSum(u, coins, h, p.trackFrom);
    hide SumInputs, CoinTotal;
    assert SumOutputs(outs[..0]) == Sum.Total(0);
    assert outs[..1][..0] == outs[..0] && SumOutputs(outs[..1]) == Sum.Total(outs[0].value);
    if |outs| == 2 {
      assert outs[..|outs| - 1] == outs[..1];
      assert SumOutputs(outs) == Sum.Total(outs[0].value + outs[1].value);
    } else {
      assert outs[..1] == outs;
    }
  }

  /**
   The wallet's registration for a salt and name whose commitment is stored with height h0
   passes the rules of a block at height h exactly when it is 12 to 36000 blocks later and the
   name is free or has expired.
   */
  lemma RegistrationPasses(p: Params, db: Db, h160: Bytes -> Bytes, addressOf: Bytes -> Bytes, t: NameTx, coins: seq<Coin>,
                           name: Name, value: Bytes, rand: Bytes, keyHash: Bytes, changeHash: Bytes, id: Hash, idx: nat, h0: Height, h: Height)
    requires |keyHash| == PUBKEY_HASH_SIZE && |changeHash| == PUBKEY_HASH_SIZE && ParamsOk(name, value, keyHash)
    requires Pays(t, coins, P2PKH(changeHash)) && Known(db.u, coins) && NAME_OUTPUT_VALUE <= CoinTotal(coins) <= MAX_INT64
    requires Carries(t.outs[0].script, Parsed(NameFirstUpdate, name, value, rand), keyHash)
    requires var c := h160(rand + name); c in db.n.live.nameNew && db.n.live.nameNew[c] == h0
    ensures TxOk(p, db, Tx(id, t.ins, DecodeAll(h160, addressOf, t.outs)), idx, h)
            <==> MIN_BLOCKS_BEFORE_FIRST_UPDATE <= h - h0 <= MAX_BLOCKS_BEFORE_FIRST_UPDATE && AvailableAt(db.n.live, name, h)
  {
    hide Carries, P2PKH, TransactionFeeOk, OpOf, OwnerOf, AvailableAt, Known, CoinTotal, SumOutputs, ParseScript, SkipPrefix;
    var outs := DecodeAll(h160, addressOf, t.outs);
    var tx := Tx(id, t.ins, outs);
    CarriedOutput(h160, addressOf, t.outs[0], Parsed(NameFirstUpdate, name, value, rand), keyHash);
    if |outs| == 2 {
      PaymentIsNoName(h160, addressOf, t.outs[1], changeHash);
    }
    RegistrationPays(p, db.u, t, outs, coins, P2PKH(changeHash), id, h);
    assert OutputOk(db.n.live, tx, outs[0], h)
           <==> MIN_BLOCKS_BEFORE_FIRST_UPDATE <= h - h0 <= MAX_BLOCKS_BEFORE_FIRST_UPDATE && AvailableAt(db.n.live, name, h);
    assert |outs| == 2 ==> OutputOk(db.n.live, tx, outs[1], h);
    assert FeesOk(p, db.u, tx, idx, h);
  }

  /**
   Both phases end to end, over any allowed run of connects and disconnects.  On the surviving
   chain one block includes an output with the wallet's NAME_NEW for a salt and a name, and no
   later one uses the commitment up.  Then the wallet's NAME_FIRSTUPDATE for the same salt and
   name passes in the next block exactly inside its window, if the name is free.
   */
  lemma TwoPhaseRegistration(p: Params, base: Db, t0: Height, events: seq<Event>, m: nat, newOut: WireOut,
                             h160: Bytes -> Bytes, addressOf: Bytes -> Bytes, t: NameTx, coins: seq<Coin>,
                             name: Name, value: Bytes, rand: Bytes, newKey: Bytes, keyHash: Bytes, changeHash: Bytes, id: Hash, idx: nat)
    requires Inv(base, t0) && AllowedRun(p, base, Start(base, t0), events)
    requires |newKey| == PUBKEY_HASH_SIZE && Carries(newOut.script, Parsed(NameNew, [], [], h160(rand + name)), newKey)
    requires var node := Run(Start(base, t0), events);
             && node.tip < MAX_INT32 && m < |node.stack|
             && Awaits(node.stack, m, Decode(h160, addressOf, newOut).op, h160(rand + name))
             && Known(node.db.u, coins)
    requires |keyHash| == PUBKEY_HASH_SIZE && |changeHash| == PUBKEY_HASH_SIZE && ParamsOk(name, value, keyHash)
    requires Pays(t, coins, P2PKH(changeHash)) && NAME_OUTPUT_VALUE <= CoinTotal(coins) <= MAX_INT64
    requires Carries(t.outs[0].script, Parsed(NameFirstUpdate, name, value, rand), keyHash)
    ensures var node := Run(Start(base, t0), events);
            var k := |node.stack| - m;
            TxOk(p, node.db, Tx(id, t.ins, DecodeAll(h160, addressOf, t.outs)), idx, node.tip + 1)
            <==> MIN_BLOCKS_BEFORE_FIRST_UPDATE <= k <= MAX_BLOCKS_BEFORE_FIRST_UPDATE && AvailableAt(node.db.n.live, name, node.tip + 1)
  {
    hide *;
    var c, node := h160(rand + name), Run(Start(base, t0), events);
    CarriedOutput(h160, addressOf, newOut, Parsed(NameNew, [], [], c), newKey);
    StartGood(p, base, t0);
    RunGood(p, base, t0, Start(base, t0), events);
    GoodState(p, base, t0, node);
    StoredInRun(p, base, t0, node, m, c);
    RegistrationPasses(p, node.db, h160, addressOf, t, coins, name, value, rand, keyHash, changeHash, id, idx, t0 + m + 1, node.tip + 1);
  }

  lemma StoredInRun(p: Params, base: Db, t0: Height, node: Node, m: nat, c: Bytes)
    requires Good(p, base, t0, node) && m < |node.stack| && Awaits(node.stack, m, N.NewOp(c), c)
    ensures c in node.db.n.live.nameNew && node.db.n.live.nameNew[c] == t0 + m + 1
  {
    hide Awaits, Sound, Reversible, Replay, Prune;
    CommitmentWaits(p, base, t0, node.stack, m, c);
    GoodState(p, base, t0, node);
  }

  /**
   What the registration leaves behind.  When a valid block with the wallet's NAME_FIRSTUPDATE is
   connected, the name resolves to the wallet's value, belongs to the script of the wallet's key
   hash, and expires 36000 blocks later; its record goes back to the block that stored the
   commitment, unless an earlier output of the block has used the commitment.
   */
  lemma RegistrationRecorded(p: Params, base: Db, t0: Height, events: seq<Event>, node: Node, m: nat, newOut: WireOut,
                             h160: Bytes -> Bytes, addressOf: Bytes -> Bytes, t: NameTx,
                             name: Name, value: Bytes, rand: Bytes, newKey: Bytes, keyHash: Bytes, id: Hash, b: Block, i: nat)
    requires Inv(base, t0) && AllowedRun(p, base, Start(base, t0), events) && node == Run(Start(base, t0), events)
    requires |newKey| == PUBKEY_HASH_SIZE && Carries(newOut.script, Parsed(NameNew, [], [], h160(rand + name)), newKey)
    requires m < |node.stack| && Awaits(node.stack, m, Decode(h160, addressOf, newOut).op, h160(rand + name))
    requires node.tip < MAX_INT32 && ValidBlock(p, node.db, b, node.tip + 1)
    requires |keyHash| == PUBKEY_HASH_SIZE && t.outs != [] && Carries(t.outs[0].script, Parsed(NameFirstUpdate, name, value, rand), keyHash)
    requires i < |b.txs| && b.txs[i] == Tx(id, t.ins, DecodeAll(h160, addressOf, t.outs))
    ensures var h, names := node.tip + 1, Connect(node.db, b, node.tip + 1).n.live.names;
            && name in names
            && var r := names[name];
               && r.value == value && r.address == addressOf([0x76, 0xa9, 0x14] + keyHash + [0x88, 0xac])
               && r.txHash == id && r.outIndex == 0
               && r.height == h && r.updatedAt == b.time && r.expiresAt == Outcome.ExpiresAt(h)
               && r.nameNewHeight == if Outcome.UsedBefore(b.txs, i, 0, h160(rand + name)) then h - 12 else t0 + m + 1
  {
    hide *;
    var c := h160(rand + name);
    CarriedOutput(h160, addressOf, newOut, Parsed(NameNew, [], [], c), newKey);
    StartGood(p, base, t0);
    RunGood(p, base, t0, Start(base, t0), events);
    GoodState(p, base, t0, node);
    StoredInRun(p, base, t0, node, m, c);
    FirstOutput(h160, addressOf, t, name, value, rand, keyHash, id, b.txs, i);
    Outcome.NameWritten(p, node.db, b, node.tip + 1, i, 0);
    FieldsOf(Connect(node.db, b, node.tip + 1).n.live.names[name], id, 0, value, b.txs[i].outs[0].owner, node.tip + 1, b.time);
  }

  lemma FirstOutput(h160: Bytes -> Bytes, addressOf: Bytes -> Bytes, t: NameTx, name: Name, value: Bytes, rand: Bytes, keyHash: Bytes,
                    id: Hash, txs: seq<Tx>, i: nat)
    requires |keyHash| == PUBKEY_HASH_SIZE && t.outs != [] && Carries(t.outs[0].script, Parsed(NameFirstUpdate, name, value, rand), keyHash)
    requires i < |txs| && txs[i] == Tx(id, t.ins, DecodeAll(h160, addressOf, t.outs))
    ensures Outcome.Place(txs, i, 0)
    ensures txs[i].outs[0].op == N.FirstUpdateOp(name, value, h160(rand + name)) && txs[i].outs[0].op.Names()
    ensures txs[i].outs[0].owner == addressOf([0x76, 0xa9, 0x14] + keyHash + [0x88, 0xac])
  {
    CarriedOutput(h160, addressOf, t.outs[0], Parsed(NameFirstUpdate, name, value, rand), keyHash);
    hide Carries, OpOf, OwnerOf;
    assert P2PKH(keyHash) == [0x76, 0xa9, 0x14] + keyHash + [0x88, 0xac];
  }

  lemma FieldsOf(r: Record, id: Hash, j: int, value: Bytes, owner: Bytes, h: Height, time: int)
    requires Outcome.RecordIs(r, id, j, value, owner, h, time)
    ensures r.value == value && r.address == owner && r.txHash == id && r.outIndex == j
    ensures r.height == h && r.updatedAt == time && r.expiresAt == Outcome.ExpiresAt(h)
  {
  }
}
