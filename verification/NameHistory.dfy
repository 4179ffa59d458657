/**
 The histories of names.  A history record is keyed by its transaction alone, so two names
 written by one transaction share a record, which is that of the last one.  Here is which
 histories stay complete, and what undoing an update finds in the others.
 */
module NameHistory {
  import opened Records
  import opened NameStore
  import opened NameUndo
  import Maps

  // ----- one writer for each transaction: histories stay complete -----

  /** Two operations on names sit in two transactions. */
  ghost predicate NamedApart(es: seq<Entry>) {
    forall i, j :: 0 <= i < j < |es| && es[i].op.Names() && es[j].op.Names() ==> es[i].tx != es[j].tx
  }

  /** The name is written by an entry whose transaction writes a name again further on. */
  ghost predicate Overwritten(es: seq<Entry>, n: Name) {
    exists i, j :: 0 <= i < j < |es| && es[i].op.Names() && es[i].op.name == n && es[j].op.Names() && es[j].tx == es[i].tx
  }

  lemma WriteNameHistory(l: Live, l': Live, tx: Hash, name: Name, r: Record)
    requires HistoryMatchesNames(l) && tx !in l.history
    requires l'.names == l.names[name := r] && l'.history == l.history[tx := r]
    requires l'.histIdx == l.histIdx[name := HistoryOf(l, name) + [tx]]
    ensures HistoryMatchesNames(l')
  {
    hide Maps.Disjoint, HistoryOk;
    FreshTx(l, tx);
    Maps.DisjointAppend(l.histIdx, name, HistoryOf(l, name), tx);
    forall n | n in l'.histIdx ensures HistoryOk(l', n) {
      if n != name {
        HistoryOkElsewhere(l, l', tx, n);
      } else {
        HistoryOkAppended(l, l', tx, name, r);
      }
    }
  }

  /** A transaction without a history record is in no complete history. */
  lemma FreshTx(l: Live, tx: Hash)
    requires HistoryMatchesNames(l) && tx !in l.history
    ensures forall n, i :: n in l.histIdx && 0 <= i < |l.histIdx[n]| ==> l.histIdx[n][i] != tx
  {
    hide Maps.Disjoint;
    forall n, i | n in l.histIdx && 0 <= i < |l.histIdx[n]| ensures l.histIdx[n][i] != tx {
      assert HistoryOk(l, n);
    }
  }

  lemma HistoryOkAppended(l: Live, l': Live, tx: Hash, name: Name, r: Record)
    requires name in l.histIdx ==> HistoryOk(l, name)
    requires l'.names == l.names[name := r] && l'.history == l.history[tx := r]
    requires l'.histIdx == l.histIdx[name := HistoryOf(l, name) + [tx]]
    ensures HistoryOk(l', name)
  {
  }

  lemma HistoryOkElsewhere(l: Live, l': Live, tx: Hash, n: Name)
    requires n in l.histIdx && HistoryOk(l, n) && tx !in l.history
    requires n in l'.histIdx && n in l'.names && l'.histIdx[n] == l.histIdx[n] && l'.names[n] == l.names[n]
    requires forall t :: t in l.history ==> t in l'.history && l'.history[t] == l.history[t]
    ensures HistoryOk(l', n)
  {
  }

  lemma {:induction false} ApplyEntriesComplete(x: Live, es: seq<Entry>, h: Height, time: int)
    requires Indexed(x) && Fits(x, es) && NamedApart(es) && HistoryMatchesNames(x)
    ensures HistoryMatchesNames(ApplyEntries(x, es, h, time))
  {
    if es != [] {
      var n := |es| - 1;
      var e := es[n];
      hide Indexed, HistoryMatchesNames, ApplyEntry;
      assert forall i :: 0 <= i < n ==> es[..n][i] == es[i];
      ApplyEntriesComplete(x, es[..n], h, time);
      if e.op.Names() {
        NewTx(x, es, h, time);
      }
      ApplyEntryComplete(ApplyEntries(x, es[..n], h, time), e, h, time);
    }
  }

  lemma NewTx(x: Live, es: seq<Entry>, h: Height, time: int)
    requires Indexed(x) && Fits(x, es) && NamedApart(es) && es != [] && es[|es| - 1].op.Names()
    ensures es[|es| - 1].tx !in ApplyEntries(x, es[..|es| - 1], h, time).history
  {
    var n := |es| - 1;
    ApplyEntriesShape(x, es[..n], h, time);
    EarlierFrom(es[..n]);
    hide Indexed, CommitsFrame, ApplyEntries;
  }

  lemma ApplyEntryComplete(l: Live, e: Entry, h: Height, time: int)
    requires HistoryMatchesNames(l) && (e.op.Names() ==> e.tx !in l.history)
    ensures HistoryMatchesNames(ApplyEntry(l, e, h, time))
  {
    hide HistoryMatchesNames;
    var l' := ApplyEntry(l, e, h, time);
    if e.op.Names() {
      var r := WrittenRecord(l, e, h, time);
      hide WrittenRecord;
      WriteNameHistory(l, l', e.tx, e.op.name, r);
    } else {
      SameHistories(l, l');
    }
  }

  lemma SameHistories(l: Live, l': Live)
    requires HistoryMatchesNames(l) && l'.names == l.names && l'.history == l.history && l'.histIdx == l.histIdx
    ensures HistoryMatchesNames(l')
  {
    hide Maps.Disjoint;
    forall n | n in l'.histIdx ensures HistoryOk(l', n) { assert HistoryOk(l, n); }
  }

  // ----- two writers: the record is that of the last one -----

  /** No two outputs of a transaction have one index. */
  ghost predicate IndexesApart(es: seq<Entry>) {
    forall i, j :: 0 <= i < j < |es| && es[i].tx == es[j].tx ==> es[i].index != es[j].index
  }

  /** m is the last entry that writes a name in the transaction of entry i. */
  ghost predicate LastWriter(es: seq<Entry>, i: nat, m: nat) {
    && i <= m < |es| && es[m].op.Names() && es[m].tx == es[i].tx
    && forall k :: m < k < |es| && es[k].op.Names() ==> es[k].tx != es[i].tx
  }

  /** After the entries: the record entry i has written, and the end of the history it has written to. */
  ghost predicate WrittenBy(x: Live, l: Live, e: Entry)
    requires e.op.Names()
  {
    && e.op.name in l.names && l.names[e.op.name].txHash == e.tx && l.names[e.op.name].outIndex == e.index
    && HistoryOf(l, e.op.name) == HistoryOf(x, e.op.name) + [e.tx]
  }

  /** The record on file for the transaction of entry i is the one that entry m has written. */
  ghost predicate OnFile(x: Live, l: Live, es: seq<Entry>, i: nat, m: nat)
    requires i < |es| && es[i].op.Names()
  {
    && LastWriter(es, i, m) && WrittenBy(x, l, es[i]) && WrittenBy(x, l, es[m])
    && es[i].tx in l.history && l.history[es[i].tx] == l.names[es[m].op.name]
  }

  lemma {:induction false} RecordOfLastWriter(x: Live, es: seq<Entry>, h: Height, time: int, i: nat) returns (m: nat)
    requires Indexed(x) && Fits(x, es) && i < |es| && es[i].op.Names()
    ensures OnFile(x, ApplyEntries(x, es, h, time), es, i, m)
    decreases |es|
  {
    hide Indexed, EntryFits, ApplyEntry;
    var n := |es| - 1;
    var l := ApplyEntries(x, es[..n], h, time);
    assert forall j :: 0 <= j < n ==> es[..n][j] == es[j];
    if es[n].op.Names() {
      UntouchedYet(x, es, h, time);
    }
    if i == n {
      m := n;
      hide Fits;
      WritesLast(x, l, es[n], h, time);
    } else {
      m := RecordOfLastWriter(x, es[..n], h, time, i);
      OneEntryEach(x, es, i);
      OneEntryEach(x, es, m);
      hide Fits, WrittenBy;
      m := NextWriter(x, l, es, h, time, i, m);
    }
  }

  lemma UntouchedYet(x: Live, es: seq<Entry>, h: Height, time: int)
    requires Indexed(x) && Fits(x, es) && es != [] && es[|es| - 1].op.Names()
    ensures HistoryOf(ApplyEntries(x, es[..|es| - 1], h, time), es[|es| - 1].op.name) == HistoryOf(x, es[|es| - 1].op.name)
  {
    ApplyEntriesShape(x, es[..|es| - 1], h, time);
    hide Indexed, CommitsFrame, ApplyEntries;
  }

  /** One more entry: it keeps the record on file, or takes its place when it writes in the same transaction. */
  lemma NextWriter(x: Live, l: Live, es: seq<Entry>, h: Height, time: int, i: nat, m: nat) returns (m': nat)
    requires i < |es| - 1 && es[i].op.Names() && es[..|es| - 1][i] == es[i] && OnFile(x, l, es[..|es| - 1], i, m)
    requires var e := es[|es| - 1];
             e.op.Names() ==> e.op.name != es[i].op.name && e.op.name != es[m].op.name && HistoryOf(l, e.op.name) == HistoryOf(x, e.op.name)
    ensures OnFile(x, ApplyEntry(l, es[|es| - 1], h, time), es, i, m')
  {
    hide ApplyEntry, HistoryOf;
    var n := |es| - 1;
    var e := es[n];
    assert forall j :: 0 <= j < n ==> es[..n][j] == es[j];
    KeepsWritten(x, l, es[i], e, h, time);
    KeepsWritten(x, l, es[m], e, h, time);
    if e.op.Names() && e.tx == es[i].tx {
      m' := n;
      WritesLast(x, l, e, h, time);
    } else {
      m' := m;
      KeepsRecord(l, es[i].tx, es[m].op.name, e, h, time);
    }
  }

  lemma WritesLast(x: Live, l: Live, e: Entry, h: Height, time: int)
    requires e.op.Names() && HistoryOf(l, e.op.name) == HistoryOf(x, e.op.name)
    ensures var l' := ApplyEntry(l, e, h, time);
            WrittenBy(x, l', e) && e.tx in l'.history && l'.history[e.tx] == l'.names[e.op.name]
  {
    var r := WrittenRecord(l, e, h, time);
    assert r.txHash == e.tx && r.outIndex == e.index;
    hide WrittenRecord;
  }

  lemma KeepsWritten(x: Live, l: Live, e: Entry, next: Entry, h: Height, time: int)
    requires e.op.Names() && WrittenBy(x, l, e) && (next.op.Names() ==> next.op.name != e.op.name)
    ensures WrittenBy(x, ApplyEntry(l, next, h, time), e)
    ensures ApplyEntry(l, next, h, time).names[e.op.name] == l.names[e.op.name]
  {
    hide WrittenRecord;
  }

  lemma KeepsRecord(l: Live, tx: Hash, name: Name, next: Entry, h: Height, time: int)
    requires tx in l.history && name in l.names && l.history[tx] == l.names[name]
    requires next.op.Names() ==> next.op.name != name && next.tx != tx
    ensures var l' := ApplyEntry(l, next, h, time); tx in l'.history && name in l'.names && l'.history[tx] == l'.names[name]
  {
    hide WrittenRecord;
  }

  /** Which histories end in the live record after the entries: those that did, except the overwritten ones. */
  lemma EndsLiveAfter(x: Live, es: seq<Entry>, h: Height, time: int, n: Name)
    requires Indexed(x) && Fits(x, es) && IndexesApart(es)
    requires n in TouchedNames(es) || EndsLive(x, n)
    ensures EndsLive(ApplyEntries(x, es, h, time), n) <==> !Overwritten(es, n)
  {
    hide Fits, Indexed, ApplyEntries, EndsLive;
    EarlierFrom(es);
    if n in TouchedNames(es) {
      var i :| 0 <= i < |es| && es[i].op.Names() && es[i].op.name == n;
      WrittenEndsLive(x, es, h, time, i);
    } else {
      UntouchedEndsLive(x, es, h, time, n);
    }
  }

  lemma UntouchedEndsLive(x: Live, es: seq<Entry>, h: Height, time: int, n: Name)
    requires Indexed(x) && Fits(x, es) && n !in TouchedNames(es) && EndsLive(x, n)
    ensures EndsLive(ApplyEntries(x, es, h, time), n)
  {
    hide Indexed, Fits, CommitsFrame, ApplyEntries;
    ApplyEntriesShape(x, es, h, time);
    FitsSeparates(x, es);
    LastIsListed(x, n);
    hide Maps.Elements;
    SameEnd(x, ApplyEntries(x, es, h, time), n, TouchedNames(es), NamedTxs(es), h);
  }

  lemma LastIsListed(x: Live, n: Name)
    requires HistoryOf(x, n) != []
    ensures HistoryOf(x, n)[|HistoryOf(x, n)| - 1] in Maps.Elements(x.histIdx)
  {
  }

  lemma SameEnd(x: Live, l: Live, n: Name, touched: set<Name>, txs: set<Hash>, h: Height)
    requires EndsLive(x, n) && NamesFrame(x, l, touched, txs, h) && n !in touched
    requires HistoryOf(x, n)[|HistoryOf(x, n)| - 1] !in txs
    ensures EndsLive(l, n)
  {
    assert HistoryOf(l, n) == HistoryOf(x, n);
  }

  lemma WrittenEndsLive(x: Live, es: seq<Entry>, h: Height, time: int, i: nat)
    requires Indexed(x) && Fits(x, es) && IndexesApart(es) && i < |es| && es[i].op.Names()
    ensures EndsLive(ApplyEntries(x, es, h, time), es[i].op.name) <==> !Overwritten(es, es[i].op.name)
  {
    OneEntryEach(x, es, i);
    var m := RecordOfLastWriter(x, es, h, time, i);
    hide Fits, Indexed, ApplyEntries;
    assert Overwritten(es, es[i].op.name) <==> m > i;
    hide Overwritten, LastWriter;
    assert m > i ==> es[m].index != es[i].index;
  }

  /** A name is written once. */
  lemma {:induction false} OneEntryEach(x: Live, es: seq<Entry>, i: nat)
    requires Fits(x, es) && i < |es| && es[i].op.Names()
    ensures forall j :: 0 <= j < |es| && j != i && es[j].op.Names() ==> es[j].op.name != es[i].op.name
  {
    var n := |es| - 1;
    assert forall j :: 0 <= j < n ==> es[..n][j] == es[j];
    EarlierFrom(es[..n]);
    if i < n {
      OneEntryEach(x, es[..n], i);
    }
  }

  /** The histories are complete after the entries exactly when no two share a transaction. */
  lemma CompleteExactly(x: Live, es: seq<Entry>, h: Height, time: int)
    requires Indexed(x) && Fits(x, es) && IndexesApart(es) && HistoryMatchesNames(x)
    ensures HistoryMatchesNames(ApplyEntries(x, es, h, time)) <==> NamedApart(es)
  {
    if NamedApart(es) {
      ApplyEntriesComplete(x, es, h, time);
    } else {
      var i, j :| 0 <= i < j < |es| && es[i].op.Names() && es[j].op.Names() && es[i].tx == es[j].tx;
      var n, l := es[i].op.name, ApplyEntries(x, es, h, time);
      EarlierFrom(es);
      assert Overwritten(es, n);
      ApplyEntriesShape(x, es, h, time);
      EndsLiveAfter(x, es, h, time, n);
      assert n in l.names && !HistoryOk(l, n);
    }
  }

  // ----- undoing without complete histories -----

  /** What undoing an update of the name makes of its record: the record its last history entry has now. */
  function FoundRecord(x: Live, n: Name, otherwise: Record): Record {
    var list := HistoryOf(x, n);
    if list != [] && list[|list| - 1] in x.history then x.history[list[|list| - 1]] else otherwise
  }

  /** As much of the state of the undo pass as does not depend on the histories. */
  ghost predicate HistoryUndone(l: Live, applied: Live, es: seq<Entry>) {
    && l.histIdx == applied.histIdx
    && AgreeOutside(l.history, applied.history, NamedTxs(es))
    && forall n :: n in TouchedNames(es) ==> n in l.names && n in applied.names && l.names[n] == applied.names[n]
  }

  /**
   The undo pass always gives back the history buckets.  An updated name gets the record that
   its last history entry has, whether or not this is the record the name had.
   */
  lemma {:induction false} UndoEntriesFinds(x: Live, es: seq<Entry>, s: Undoing, h: Height, time: int, i: nat)
    requires Indexed(x) && Fits(x, es) && HistoryUndone(s.live, ApplyEntries(x, es, h, time), es)
    ensures UndoEntries(s, es, h).live.history == x.history && UndoEntries(s, es, h).live.histIdx == x.histIdx
    ensures i < |es| && es[i].op.UpdateOp? ==>
              var n, l := es[i].op.name, UndoEntries(s, es, h).live;
              && n in l.names && n in ApplyEntries(x, es, h, time).names
              && l.names[n] == FoundRecord(x, n, ApplyEntries(x, es, h, time).names[n])
    decreases |es|
  {
    if es == [] {
      assert s.live.history == x.history;
    } else {
      var k := |es| - 1;
      var l, s' := ApplyEntries(x, es[..k], h, time), UndoEntry(s, es[k], h);
      assert forall j :: 0 <= j < k ==> es[..k][j] == es[j];
      UndoEntryFinds(x, es, s, h, time);
      hide HistoryUndone, EntryFits, Indexed, ApplyEntry, UndoEntry;
      UndoEntriesFinds(x, es[..k], s', h, time, i);
      if i == k && es[k].op.UpdateOp? {
        UndoKeeps(s', es[..k], h, es[k].op.name);
      } else if i < k && es[i].op.UpdateOp? {
        KeptByLast(x, es, h, time, i);
      }
    }
  }

  lemma KeptByLast(x: Live, es: seq<Entry>, h: Height, time: int, i: nat)
    requires Indexed(x) && Fits(x, es) && i < |es| - 1 && es[i].op.Names()
    ensures var l, l', n := ApplyEntries(x, es[..|es| - 1], h, time), ApplyEntries(x, es, h, time), es[i].op.name;
            n in l.names && n in l'.names && l'.names[n] == l.names[n]
  {
    var k := |es| - 1;
    OneEntryEach(x, es, i);
    EarlierFrom(es[..k]);
    assert es[..k][i] == es[i];
    ApplyEntriesShape(x, es[..k], h, time);
    hide WrittenRecord, Indexed, Fits, CommitsFrame;
  }

  lemma UndoEntryFinds(x: Live, es: seq<Entry>, s: Undoing, h: Height, time: int)
    requires es != [] && Indexed(x) && Fits(x, es) && HistoryUndone(s.live, ApplyEntries(x, es, h, time), es)
    ensures var e, s' := es[|es| - 1], UndoEntry(s, es[|es| - 1], h);
            && HistoryUndone(s'.live, ApplyEntries(x, es[..|es| - 1], h, time), es[..|es| - 1])
            && (e.op.UpdateOp? ==>
                  && e.op.name in s'.live.names && e.op.name in ApplyEntries(x, es, h, time).names
                  && e.op.name !in TouchedNames(es[..|es| - 1])
                  && s'.live.names[e.op.name] == FoundRecord(x, e.op.name, ApplyEntries(x, es, h, time).names[e.op.name]))
  {
    var k := |es| - 1;
    var e, l, l' := es[k], ApplyEntries(x, es[..k], h, time), ApplyEntries(x, es, h, time);
    assert l' == ApplyEntry(l, e, h, time);
    hide ApplyEntries;
    if e.op.Names() {
      hide UndoEntry, FoundRecord, AgreeOutside, ApplyEntry, Maps.Elements;
      EntryBefore(x, es, h, time);
      UndoNamedFinds(l, e, s, h, time, TouchedNames(es[..k]), NamedTxs(es[..k]), l');
      if e.op.UpdateOp? {
        UpdateFinds(x, es, s, h, time);
      }
    }
  }

  lemma EntryBefore(x: Live, es: seq<Entry>, h: Height, time: int)
    requires es != [] && Indexed(x) && Fits(x, es) && es[|es| - 1].op.Names()
    ensures var e, l := es[|es| - 1], ApplyEntries(x, es[..|es| - 1], h, time);
            && Indexed(l) && e.op.name !in TouchedNames(es[..|es| - 1])
            && (e.tx in l.history ==> e.tx in NamedTxs(es[..|es| - 1]))
  {
    ApplyEntriesShape(x, es[..|es| - 1], h, time);
    hide Indexed, CommitsFrame, ApplyEntries, Maps.Elements;
  }

  lemma UndoNamedFinds(l: Live, e: Entry, s: Undoing, h: Height, time: int, touched: set<Name>, txs: set<Hash>, l': Live)
    requires Indexed(l) && e.op.Names() && l' == ApplyEntry(l, e, h, time) && e.op.name !in touched
    requires e.tx in l.history ==> e.tx in txs
    requires s.live.histIdx == l'.histIdx && AgreeOutside(s.live.history, l'.history, txs + {e.tx})
    requires forall n :: n in touched + {e.op.name} ==> n in s.live.names && n in l'.names && s.live.names[n] == l'.names[n]
    ensures var s' := UndoEntry(s, e, h);
            && s'.live.histIdx == l.histIdx && AgreeOutside(s'.live.history, l.history, txs)
            && forall n :: n in touched ==> n in s'.live.names && n in l.names && s'.live.names[n] == l.names[n]
  {
    var name, r := e.op.name, WrittenRecord(l, e, h, time);
    assert name in l.histIdx ==> l.histIdx[name] != [];
    hide WrittenRecord, AgreeOutside, Indexed;
    WrittenBuckets(l, e, h, time);
    AgreeDrop(s.live.history, l.history, txs, e.tx, r);
    hide ApplyEntry, UndoEntry, WriteName;
    UndoNamedHistory(l, e, s, h);
    UndoNamedOthers(s, e, h);
  }

  lemma WrittenBuckets(l: Live, e: Entry, h: Height, time: int)
    requires e.op.Names()
    ensures var l', r := ApplyEntry(l, e, h, time), WrittenRecord(l, e, h, time);
            && l'.names == l.names[e.op.name := r] && l'.history == l.history[e.tx := r]
            && l'.histIdx == l.histIdx[e.op.name := HistoryOf(l, e.op.name) + [e.tx]]
  {
    hide WrittenRecord;
  }

  lemma UndoNamedHistory(l: Live, e: Entry, s: Undoing, h: Height)
    requires e.op.Names() && (e.op.name in l.histIdx ==> l.histIdx[e.op.name] != [])
    requires s.live.histIdx == l.histIdx[e.op.name := HistoryOf(l, e.op.name) + [e.tx]]
    ensures UndoEntry(s, e, h).live.histIdx == l.histIdx && UndoEntry(s, e, h).live.history == s.live.history - {e.tx}
  {
    ForgetLast(l, s.live, e.op.name, e.tx);
    hide RemoveLastHistory, PreviousRecord;
  }

  lemma UndoNamedOthers(s: Undoing, e: Entry, h: Height)
    requires e.op.Names()
    ensures forall n :: n in s.live.names && n != e.op.name ==>
              n in UndoEntry(s, e, h).live.names && UndoEntry(s, e, h).live.names[n] == s.live.names[n]
  {
    RemoveKeepsNames(s.live, e.op);
    hide RemoveLastHistory, PreviousRecord;
  }

  lemma UpdateFinds(x: Live, es: seq<Entry>, s: Undoing, h: Height, time: int)
    requires es != [] && Indexed(x) && Fits(x, es) && es[|es| - 1].op.UpdateOp?
    requires HistoryUndone(s.live, ApplyEntries(x, es, h, time), es)
    ensures var n, l', s' := es[|es| - 1].op.name, ApplyEntries(x, es, h, time), UndoEntry(s, es[|es| - 1], h);
            && n in s'.live.names && n in l'.names && s'.live.names[n] == FoundRecord(x, n, l'.names[n])
  {
    var e, l := es[|es| - 1], ApplyEntries(x, es[..|es| - 1], h, time);
    var list := HistoryOf(x, e.op.name);
    UpdateBefore(x, es, h, time);
    assert ApplyEntries(x, es, h, time).histIdx == l.histIdx[e.op.name := list + [e.tx]] by {
      assert ApplyEntries(x, es, h, time) == ApplyEntry(l, e, h, time);
      hide WrittenRecord, ApplyEntries;
    }
    assert e.op.name in TouchedNames(es) && e.tx in NamedTxs(es);
    hide ApplyEntries, Fits, Indexed, HistoryOf, UndoEntry, Maps.Elements;
    FindsPrevious(l, e, s, h, x.history, list);
  }

  lemma UpdateBefore(x: Live, es: seq<Entry>, h: Height, time: int)
    requires es != [] && Indexed(x) && Fits(x, es) && es[|es| - 1].op.UpdateOp?
    ensures var n, l, list := es[|es| - 1].op.name, ApplyEntries(x, es[..|es| - 1], h, time), HistoryOf(x, es[|es| - 1].op.name);
            && list != [] && HistoryOf(l, n) == list && n in l.histIdx
            && list[|list| - 1] !in NamedTxs(es) && AgreeOutside(ApplyEntries(x, es, h, time).history, x.history, NamedTxs(es))
  {
    UntouchedYet(x, es, h, time);
    ApplyEntriesShape(x, es, h, time);
    FitsSeparates(x, es);
    assert HistoryOf(x, es[|es| - 1].op.name) != [];
    LastIsListed(x, es[|es| - 1].op.name);
    hide Indexed, Fits, CommitsFrame, ApplyEntries, Maps.Elements, AgreeOutside;
  }

  lemma FindsPrevious(l: Live, e: Entry, s: Undoing, h: Height, history: map<Hash, Record>, list: seq<Hash>)
    requires e.op.UpdateOp? && list != [] && HistoryOf(l, e.op.name) == list && e.op.name in l.histIdx
    requires s.live.histIdx == l.histIdx[e.op.name := list + [e.tx]] && e.op.name in s.live.names
    requires var last := list[|list| - 1];
             last != e.tx && (last in s.live.history <==> last in history) && (last in history ==> s.live.history[last] == history[last])
    ensures var names, last := UndoEntry(s, e, h).live.names, list[|list| - 1];
            e.op.name in names && names[e.op.name] == if last in history then history[last] else s.live.names[e.op.name]
  {
    FoundAgain(l, s.live, e.op.name, e.tx);
    RemoveKeepsNames(s.live, e.op);
    hide RemoveLastHistory, PreviousRecord;
  }

  lemma {:induction false} UndoKeeps(s: Undoing, es: seq<Entry>, h: Height, n: Name)
    requires n !in TouchedNames(es)
    ensures var l := UndoEntries(s, es, h).live;
            (n in l.names <==> n in s.live.names) && (n in l.names ==> l.names[n] == s.live.names[n])
    decreases |es|
  {
    if es != [] {
      hide RemoveLastHistory, PreviousRecord;
      UndoKeeps(UndoEntry(s, es[|es| - 1], h), es[..|es| - 1], h, n);
      RemoveKeepsNames(s.live, es[|es| - 1].op);
    }
  }

  lemma RemoveKeepsNames(l: Live, op: NameOp)
    ensures op.Names() ==> RemoveLastHistory(l, op.name).names == l.names
  {
  }
}
