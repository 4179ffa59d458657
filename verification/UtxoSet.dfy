/**
 The UTXO buckets: the live set, its address index, and the height-indexed backup of
 spent outputs that a disconnect restores from.
 */
module UtxoSet {
  import opened Records
  import Maps

  datatype UtxoDb = UtxoDb(
    utxo: map<OutPoint, Utxo>,
    addr: set<AddressOut>,
    spent: map<OutPoint, Utxo>,
    spentIdx: set<HeightOut>)

  // ----- operations -----

  function AddUtxo(u: UtxoDb, op: OutPoint, x: Utxo): UtxoDb {
    u.(utxo := u.utxo[op := x], addr := u.addr + {AddressOut(x.address, op)})
  }

  function RemoveUtxo(u: UtxoDb, op: OutPoint): UtxoDb {
    if op !in u.utxo then u else
      u.(utxo := u.utxo - {op}, addr := u.addr - {AddressOut(u.utxo[op].address, op)})
  }

  function StoreSpent(u: UtxoDb, op: OutPoint, x: Utxo, h: Height): UtxoDb {
    u.(spent := u.spent[op := x], spentIdx := u.spentIdx + {HeightOut(h, op)})
  }

  /** The outputs whose backup is indexed under height h. */
  function SpentAt(u: UtxoDb, h: Height): set<OutPoint> {
    set k | k in u.spentIdx && k.height == h :: k.op
  }

  /** Puts every output backed up at height h back into the live set and drops the backups. */
  function RestoreSpent(u: UtxoDb, h: Height): UtxoDb {
    var ops := SpentAt(u, h);
    var back := Maps.Restrict(u.spent, ops);
    UtxoDb(
      u.utxo + back,
      u.addr + AddressMirror(back),
      u.spent - ops,
      set k | k in u.spentIdx && k.height != h)
  }

  /** The outputs whose backup is indexed under some height below floor. */
  function SpentBefore(u: UtxoDb, floor: int): set<OutPoint> {
    set k | k in u.spentIdx && k.height < floor :: k.op
  }

  /** Drops the backups of outputs spent below floor. */
  function PruneSpent(u: UtxoDb, floor: int): UtxoDb {
    u.(spent := u.spent - SpentBefore(u, floor),
       spentIdx := set k | k in u.spentIdx && k.height >= floor)
  }

  // ----- what a block does to the buckets -----

  datatype UStep = Spend(op: OutPoint) | Create(op: OutPoint, out: Utxo)

  function SpendInput(u: UtxoDb, op: OutPoint, h: Height): UtxoDb {
    if op in u.utxo then RemoveUtxo(StoreSpent(u, op, u.utxo[op], h), op) else RemoveUtxo(u, op)
  }

  function ApplyStep(u: UtxoDb, s: UStep, h: Height): UtxoDb {
    match s
    case Spend(op) => SpendInput(u, op, h)
    case Create(op, x) => AddUtxo(u, op, x)
  }

  function ApplySteps(u: UtxoDb, steps: seq<UStep>, h: Height): UtxoDb {
    if steps == [] then u
    else ApplyStep(ApplySteps(u, steps[..|steps| - 1], h), steps[|steps| - 1], h)
  }

  /** A step fails when it would have to encode an oversized output. */
  predicate StepOk(u: UtxoDb, s: UStep) {
    match s
    case Spend(op) => op in u.utxo ==> Encodable(u.utxo[op])
    case Create(op, x) => Encodable(x)
  }

  predicate StepsOk(u: UtxoDb, steps: seq<UStep>, h: Height) {
    steps == [] ||
    (StepsOk(u, steps[..|steps| - 1], h)
     && StepOk(ApplySteps(u, steps[..|steps| - 1], h), steps[|steps| - 1]))
  }

  /** Removes outputs one after the other. */
  function RemoveAll(u: UtxoDb, ops: seq<OutPoint>): UtxoDb {
    if ops == [] then u else RemoveUtxo(RemoveAll(u, ops[..|ops| - 1]), ops[|ops| - 1])
  }

  // ----- the invariant -----

  function AddressMirror(utxo: map<OutPoint, Utxo>): (r: set<AddressOut>)
    ensures forall k :: k in r <==> k.op in utxo && utxo[k.op].address == k.address
  {
    set op | op in utxo :: AddressOut(utxo[op].address, op)
  }

  ghost predicate UniqueBackups(idx: set<HeightOut>) {
    forall j, k :: j in idx && k in idx && j.op == k.op ==> j == k
  }

  ghost predicate HeightsAtMost(idx: set<HeightOut>, tip: int) {
    forall k :: k in idx ==> k.height <= tip
  }

  /** What every connect and disconnect keeps, with the chain tip at the given height. */
  ghost predicate Inv(u: UtxoDb, tip: int) {
    && u.addr == AddressMirror(u.utxo)
    && UniqueBackups(u.spentIdx)
    && HeightsAtMost(u.spentIdx, tip)
    && u.spent.Keys == (set k | k in u.spentIdx :: k.op)
    && u.utxo.Keys !! u.spent.Keys
    && (forall op :: op in u.utxo ==> Encodable(u.utxo[op]))
    && (forall op :: op in u.spent ==> Encodable(u.spent[op]))
  }

  predicate CreatesEncodable(steps: seq<UStep>) {
    forall i :: 0 <= i < |steps| && steps[i].Create? ==> Encodable(steps[i].out)
  }

  // ----- the effect of a block, in closed form -----

  function Spends(steps: seq<UStep>): set<OutPoint> {
    if steps == [] then {}
    else
      var s := steps[|steps| - 1];
      var ops := Spends(steps[..|steps| - 1]);
      if s.Spend? then ops + {s.op} else ops
  }

  function Creates(steps: seq<UStep>): map<OutPoint, Utxo> {
    if steps == [] then map[]
    else
      var s := steps[|steps| - 1];
      var m := Creates(steps[..|steps| - 1]);
      if s.Create? then m[s.op := s.out] else m
  }

  /** No output is created twice. */
  ghost predicate DistinctCreates(steps: seq<UStep>) {
    forall i, j :: 0 <= i < j < |steps| && steps[i].Create? && steps[j].Create? ==> steps[i].op != steps[j].op
  }

  /**
   The block spends outputs that were live before it and creates outputs unknown before it.
   In particular it never spends what it creates.
   */
  ghost predicate Clean(u: UtxoDb, steps: seq<UStep>) {
    && Spends(steps) <= u.utxo.Keys
    && Creates(steps).Keys !! u.utxo.Keys
    && Creates(steps).Keys !! u.spent.Keys
    && DistinctCreates(steps)
  }

  function IndexAt(h: Height, ops: set<OutPoint>): (r: set<HeightOut>)
    ensures forall k :: k in r <==> k.height == h && k.op in ops
  {
    set op | op in ops :: HeightOut(h, op)
  }

  function Effect(u: UtxoDb, spends: set<OutPoint>, creates: map<OutPoint, Utxo>, h: Height): UtxoDb {
    var utxo := (u.utxo - spends) + creates;
    UtxoDb(
      utxo,
      AddressMirror(utxo),
      u.spent + Maps.Restrict(u.utxo, spends),
      u.spentIdx + IndexAt(h, spends))
  }

  lemma CleanPrefix(u: UtxoDb, steps: seq<UStep>)
    requires Clean(u, steps) && steps != []
    ensures Clean(u, steps[..|steps| - 1])
    ensures Spends(steps[..|steps| - 1]) <= u.utxo.Keys && Creates(steps[..|steps| - 1]).Keys !! u.utxo.Keys
    ensures steps[|steps| - 1].Spend? ==> steps[|steps| - 1].op in u.utxo
    ensures steps[|steps| - 1].Create? ==> steps[|steps| - 1].op !in u.utxo && steps[|steps| - 1].op !in Creates(steps[..|steps| - 1])
  {
    CreatesFrom(steps[..|steps| - 1]);
  }

  lemma {:induction false} CreatesFrom(steps: seq<UStep>)
    ensures forall op :: op in Creates(steps) ==>
                           exists i :: 0 <= i < |steps| && steps[i].Create? && steps[i].op == op && steps[i].out == Creates(steps)[op]
  {
    if steps != [] {
      var n := |steps| - 1;
      CreatesFrom(steps[..n]);
      forall op | op in Creates(steps)
        ensures exists i :: 0 <= i < |steps| && steps[i].Create? && steps[i].op == op && steps[i].out == Creates(steps)[op]
      {
        if steps[n].Create? && steps[n].op == op {
        } else {
          assert op in Creates(steps[..n]);
          var i :| 0 <= i < n && steps[..n][i].Create? && steps[..n][i].op == op && steps[..n][i].out == Creates(steps[..n])[op];
          assert steps[i] == steps[..n][i];
        }
      }
    }
  }

  lemma {:induction false} ApplyStepsIsEffect(u: UtxoDb, steps: seq<UStep>, h: Height)
    requires u.addr == AddressMirror(u.utxo)
    requires Clean(u, steps)
    ensures ApplySteps(u, steps, h) == Effect(u, Spends(steps), Creates(steps), h)
  {
    if steps == [] {
      EffectNone(u, h);
    } else {
      hide AddressMirror, Effect, SpendInput, AddUtxo, Clean;
      var n := |steps| - 1;
      CleanPrefix(u, steps);
      ApplyStepsIsEffect(u, steps[..n], h);
      var spends, creates := Spends(steps[..n]), Creates(steps[..n]);
      match steps[n] {
        case Spend(op) => EffectSpend(u, spends, creates, op, h);
        case Create(op, x) => EffectCreate(u, spends, creates, op, x, h);
      }
    }
  }

  lemma EffectNone(u: UtxoDb, h: Height)
    requires u.addr == AddressMirror(u.utxo)
    ensures u == Effect(u, {}, map[], h)
  {
    hide AddressMirror, IndexAt, Maps.Restrict;
    var e := Effect(u, {}, map[], h);
    assert e.utxo == u.utxo;
    assert e.spent == u.spent;
    assert e.spentIdx == u.spentIdx;
  }

  lemma EffectSpend(u: UtxoDb, spends: set<OutPoint>, creates: map<OutPoint, Utxo>, op: OutPoint, h: Height)
    requires spends <= u.utxo.Keys && creates.Keys !! u.utxo.Keys && op in u.utxo
    ensures SpendInput(Effect(u, spends, creates, h), op, h) == Effect(u, spends + {op}, creates, h)
  {
    hide AddressMirror, IndexAt, Maps.Restrict;
    var e, e' := Effect(u, spends, creates, h), Effect(u, spends + {op}, creates, h);
    if op in spends {
      assert spends + {op} == spends;
    } else {
      Maps.DropOneMore(u.utxo, spends, creates, op);
      Maps.BackUpOneMore(u.utxo, u.spent, spends, op);
      MirrorDrop(e.utxo, op);
      assert e.spentIdx + {HeightOut(h, op)} == e'.spentIdx;
    }
  }

  lemma EffectCreate(u: UtxoDb, spends: set<OutPoint>, creates: map<OutPoint, Utxo>, op: OutPoint, x: Utxo, h: Height)
    requires creates.Keys !! u.utxo.Keys && op !in u.utxo && op !in creates
    ensures AddUtxo(Effect(u, spends, creates, h), op, x) == Effect(u, spends, creates[op := x], h)
  {
    hide AddressMirror, IndexAt, Maps.Restrict;
    Maps.AddOneMore(u.utxo, spends, creates, op, x);
    MirrorAdd(Effect(u, spends, creates, h).utxo, op, x);
  }

  lemma MirrorDrop(utxo: map<OutPoint, Utxo>, op: OutPoint)
    requires op in utxo
    ensures AddressMirror(utxo) - {AddressOut(utxo[op].address, op)} == AddressMirror(utxo - {op})
  {
    hide AddressMirror;
  }

  lemma MirrorAdd(utxo: map<OutPoint, Utxo>, op: OutPoint, x: Utxo)
    requires op !in utxo
    ensures AddressMirror(utxo) + {AddressOut(x.address, op)} == AddressMirror(utxo[op := x])
  {
    hide AddressMirror;
  }

  lemma {:induction false} RemoveAllEffect(u: UtxoDb, ops: seq<OutPoint>)
    requires u.addr == AddressMirror(u.utxo)
    ensures var utxo := u.utxo - Maps.Members(ops);
            RemoveAll(u, ops) == u.(utxo := utxo, addr := AddressMirror(utxo))
  {
    if ops == [] {
      assert u.utxo - Maps.Members(ops) == u.utxo;
    } else {
      var n := |ops| - 1;
      RemoveAllEffect(u, ops[..n]);
      var r := RemoveAll(u, ops[..n]);
      assert Maps.Members(ops) == Maps.Members(ops[..n]) + {ops[n]};
      assert RemoveAll(u, ops).utxo == u.utxo - Maps.Members(ops);
      assert RemoveAll(u, ops).addr == AddressMirror(RemoveAll(u, ops).utxo);
    }
  }

  // ----- connecting keeps the invariant -----

  lemma EffectInv(u: UtxoDb, spends: set<OutPoint>, creates: map<OutPoint, Utxo>, h: Height)
    requires Inv(u, h - 1)
    requires spends <= u.utxo.Keys && creates.Keys !! u.utxo.Keys && creates.Keys !! u.spent.Keys
    requires forall op :: op in creates ==> Encodable(creates[op])
    ensures Inv(Effect(u, spends, creates, h), h)
  {
    hide AddressMirror, IndexAt, Maps.Restrict;
    EffectIndex(u, spends, creates, h);
    EffectApart(u, spends, creates, h);
    hide UniqueBackups, HeightsAtMost;
  }

  /** Every outpoint keeps at most one backup entry, and every backup has one. */
  lemma EffectIndex(u: UtxoDb, spends: set<OutPoint>, creates: map<OutPoint, Utxo>, h: Height)
    requires UniqueBackups(u.spentIdx) && HeightsAtMost(u.spentIdx, h - 1)
    requires u.spent.Keys == (set k | k in u.spentIdx :: k.op) && spends <= u.utxo.Keys && u.utxo.Keys !! u.spent.Keys
    ensures var e := Effect(u, spends, creates, h);
            UniqueBackups(e.spentIdx) && HeightsAtMost(e.spentIdx, h) && e.spent.Keys == (set k | k in e.spentIdx :: k.op)
  {
    hide AddressMirror;
    var e := Effect(u, spends, creates, h);
    assert forall op :: op in spends ==> HeightOut(h, op) in e.spentIdx;
  }

  lemma EffectApart(u: UtxoDb, spends: set<OutPoint>, creates: map<OutPoint, Utxo>, h: Height)
    requires creates.Keys !! u.utxo.Keys && creates.Keys !! u.spent.Keys && u.utxo.Keys !! u.spent.Keys && spends <= u.utxo.Keys
    ensures var e := Effect(u, spends, creates, h); e.utxo.Keys !! e.spent.Keys
  {
    hide AddressMirror, IndexAt;
  }

  lemma PruneSpentInv(u: UtxoDb, tip: int, floor: int)
    requires Inv(u, tip)
    ensures Inv(PruneSpent(u, floor), tip)
  {
    var p := PruneSpent(u, floor);
    assert p.spent.Keys == (set k | k in p.spentIdx :: k.op);
  }

  lemma PruneSpentTwice(u: UtxoDb, f: int, g: int)
    requires UniqueBackups(u.spentIdx)
    ensures PruneSpent(PruneSpent(u, f), g) == PruneSpent(u, if f < g then g else f)
  {
    var m := if f < g then g else f;
    var a, b := PruneSpent(PruneSpent(u, f), g), PruneSpent(u, m);
    assert a.spentIdx == b.spentIdx;
    assert SpentBefore(u, m) == SpentBefore(u, f) + SpentBefore(PruneSpent(u, f), g);
    assert a.spent == b.spent;
  }

  // ----- undo -----

  /** A block changes no backup below its own height. */
  lemma EffectBackups(u: UtxoDb, spends: set<OutPoint>, creates: map<OutPoint, Utxo>, h: Height, floor: int)
    requires Inv(u, h - 1) && floor <= h
    requires spends <= u.utxo.Keys
    ensures SpentBefore(Effect(u, spends, creates, h), floor) == SpentBefore(u, floor)
    ensures SpentAt(Effect(u, spends, creates, h), h) == spends
    ensures SpentBefore(u, floor) !! spends
  {
    hide AddressMirror;
    var e := Effect(u, spends, creates, h);
    assert forall op :: op in spends ==> HeightOut(h, op) in e.spentIdx;
  }

  lemma EffectPrune(u: UtxoDb, spends: set<OutPoint>, creates: map<OutPoint, Utxo>, h: Height, floor: int)
    requires Inv(u, h - 1) && floor <= h
    requires spends <= u.utxo.Keys
    ensures Effect(PruneSpent(u, floor), spends, creates, h) == PruneSpent(Effect(u, spends, creates, h), floor)
  {
    var e := Effect(u, spends, creates, h);
    EffectBackups(u, spends, creates, h, floor);
    hide AddressMirror, SpentBefore, Inv;
    var a, b := Effect(PruneSpent(u, floor), spends, creates, h), PruneSpent(e, floor);
    Maps.DropBelow(u.spent, SpentBefore(u, floor), Maps.Restrict(u.utxo, spends));
    assert a.spentIdx == b.spentIdx;
  }

  /**
   Disconnecting a block undoes it: removing the outputs it created, in any order, and
   restoring the outputs it spent gives back every bucket.
   */
  lemma UndoEffect(u: UtxoDb, spends: set<OutPoint>, creates: map<OutPoint, Utxo>, h: Height, created: seq<OutPoint>)
    requires Inv(u, h - 1)
    requires spends <= u.utxo.Keys && creates.Keys !! u.utxo.Keys && creates.Keys !! u.spent.Keys
    requires Maps.Members(created) == creates.Keys
    ensures RestoreSpent(RemoveAll(Effect(u, spends, creates, h), created), h) == u
  {
    var e := Effect(u, spends, creates, h);
    RemoveAllEffect(e, created);
    var r := RemoveAll(e, created);
    EffectBackups(u, spends, creates, h, h);
    assert SpentAt(r, h) == spends;
    Maps.DropAdded(u.utxo, spends, creates);
    Maps.Reinsert(u.utxo, spends);
    Maps.RestrictAdded(u.spent, u.utxo, spends);
    MirrorUnion(u.utxo - spends, Maps.Restrict(u.utxo, spends));
    hide AddressMirror, SpentAt, Maps.Restrict;
    assert (set k | k in e.spentIdx && k.height != h) == u.spentIdx;
  }

  lemma MirrorUnion(a: map<OutPoint, Utxo>, b: map<OutPoint, Utxo>)
    requires a.Keys !! b.Keys
    ensures AddressMirror(a) + AddressMirror(b) == AddressMirror(a + b)
  {
    hide AddressMirror;
  }

  // ----- pruning commutes with everything above the floor -----

  lemma {:induction false} RemoveAllPrune(u: UtxoDb, ops: seq<OutPoint>, floor: int)
    ensures RemoveAll(PruneSpent(u, floor), ops) == PruneSpent(RemoveAll(u, ops), floor)
    ensures RemoveAll(u, ops).spent == u.spent && RemoveAll(u, ops).spentIdx == u.spentIdx
  {
    if ops != [] {
      RemoveAllPrune(u, ops[..|ops| - 1], floor);
    }
  }

  lemma RestoreSpentPrune(u: UtxoDb, h: Height, floor: int)
    requires floor <= h && UniqueBackups(u.spentIdx)
    ensures RestoreSpent(PruneSpent(u, floor), h) == PruneSpent(RestoreSpent(u, h), floor)
  {
    var p, r := PruneSpent(u, floor), RestoreSpent(u, h);
    assert SpentAt(p, h) == SpentAt(u, h);
    assert SpentBefore(r, floor) == SpentBefore(u, floor);
    assert SpentAt(u, h) !! SpentBefore(u, floor);
    hide AddressMirror, SpentAt, SpentBefore;
    Maps.RestrictOutside(u.spent, SpentAt(u, h), SpentBefore(u, floor));
    assert RestoreSpent(p, h).spent == PruneSpent(r, floor).spent;
    assert RestoreSpent(p, h).spentIdx == PruneSpent(r, floor).spentIdx;
  }
}
