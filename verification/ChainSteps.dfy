/** What the block loops of the chain code have done after a number of transactions. */
module ChainSteps {
  import opened Records
  import opened Chain
  import N = NameStore
  import U = UtxoSet

  lemma {:induction false} ApplyStepsConcat(u: U.UtxoDb, a: seq<U.UStep>, b: seq<U.UStep>, h: Height)
    ensures U.ApplySteps(u, a + b, h) == U.ApplySteps(U.ApplySteps(u, a, h), b, h)
    ensures U.StepsOk(u, a + b, h) <==> U.StepsOk(u, a, h) && U.StepsOk(U.ApplySteps(u, a, h), b, h)
    decreases |b|
  {
    if b == [] {
      assert a + b == a;
    } else {
      var n := |b| - 1;
      assert (a + b)[..|a + b| - 1] == a + b[..n];
      ApplyStepsConcat(u, a, b[..n], h);
    }
  }

  lemma {:induction false} ApplyEntriesConcat(l: N.Live, a: seq<N.Entry>, b: seq<N.Entry>, h: Height, time: int)
    ensures N.ApplyEntries(l, a + b, h, time) == N.ApplyEntries(N.ApplyEntries(l, a, h, time), b, h, time)
    ensures N.EntriesOk(l, a + b, h, time) <==> N.EntriesOk(l, a, h, time) && N.EntriesOk(N.ApplyEntries(l, a, h, time), b, h, time)
    decreases |b|
  {
    if b == [] {
      assert a + b == a;
    } else {
      var n := |b| - 1;
      assert (a + b)[..|a + b| - 1] == a + b[..n];
      ApplyEntriesConcat(l, a, b[..n], h, time);
    }
  }

  /** A prefix of a block that fails makes the block fail. */
  lemma {:induction false} PrefixOk(l: N.Live, u: U.UtxoDb, txs: seq<Tx>, i: nat, h: Height, time: int)
    requires i <= |txs|
    requires N.EntriesOk(l, BlockEntries(txs), h, time) && U.StepsOk(u, BlockSteps(txs, h), h)
    ensures N.EntriesOk(l, BlockEntries(txs[..i]), h, time) && U.StepsOk(u, BlockSteps(txs[..i], h), h)
    decreases |txs|
  {
    if i == |txs| {
      assert txs[..i] == txs;
    } else {
      var n := |txs| - 1;
      ApplyStepsConcat(u, BlockSteps(txs[..n], h), TxSteps(txs[n], n, h), h);
      ApplyEntriesConcat(l, BlockEntries(txs[..n]), TxEntries(txs[n]), h, time);
      PrefixOk(l, u, txs[..n], i, h, time);
      assert txs[..n][..i] == txs[..i];
    }
  }

  lemma {:induction false} StepsPrefixOk(u: U.UtxoDb, steps: seq<U.UStep>, i: nat, h: Height)
    requires i <= |steps| && U.StepsOk(u, steps, h)
    ensures U.StepsOk(u, steps[..i], h)
    decreases |steps|
  {
    if i == |steps| {
      assert steps[..i] == steps;
    } else {
      StepsPrefixOk(u, steps[..|steps| - 1], i, h);
      assert steps[..|steps| - 1][..i] == steps[..i];
    }
  }

  lemma {:induction false} EntriesPrefixOk(l: N.Live, es: seq<N.Entry>, i: nat, h: Height, time: int)
    requires i <= |es| && N.EntriesOk(l, es, h, time)
    ensures N.EntriesOk(l, es[..i], h, time)
    decreases |es|
  {
    if i == |es| {
      assert es[..i] == es;
    } else {
      EntriesPrefixOk(l, es[..|es| - 1], i, h, time);
      assert es[..|es| - 1][..i] == es[..i];
    }
  }

  lemma {:induction false} UndoEntriesConcat(s: N.Undoing, a: seq<N.Entry>, b: seq<N.Entry>, h: Height)
    ensures N.UndoEntries(s, a + b, h) == N.UndoEntries(N.UndoEntries(s, b, h), a, h)
    decreases |b|
  {
    if b == [] {
      assert a + b == a;
    } else {
      var n := |b| - 1;
      assert (a + b)[..|a + b| - 1] == a + b[..n];
      UndoEntriesConcat(N.UndoEntry(s, b[n], h), a, b[..n], h);
    }
  }

  lemma {:induction false} RemoveAllConcat(u: U.UtxoDb, a: seq<OutPoint>, b: seq<OutPoint>)
    ensures U.RemoveAll(u, a + b) == U.RemoveAll(U.RemoveAll(u, a), b)
    decreases |b|
  {
    if b == [] {
      assert a + b == a;
    } else {
      var n := |b| - 1;
      assert (a + b)[..|a + b| - 1] == a + b[..n];
      RemoveAllConcat(u, a, b[..n]);
    }
  }
}
