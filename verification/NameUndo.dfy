/** What the name operations of a block change, and what undoing them, last first, gives back. */
module NameUndo {
  import opened Bytes
  import opened Records
  import opened NameStore
  import Maps

  // ----- what the entries of a block touch -----

  function TouchedNames(es: seq<Entry>): set<Name> {
    if es == [] then {}
    else
      var rest := TouchedNames(es[..|es| - 1]);
      var e := es[|es| - 1];
      if e.op.Names() then rest + {e.op.name} else rest
  }

  function NamedTxs(es: seq<Entry>): set<Hash> {
    if es == [] then {}
    else
      var rest := NamedTxs(es[..|es| - 1]);
      var e := es[|es| - 1];
      if e.op.Names() then rest + {e.tx} else rest
  }

  /** The commitments the block consumes. */
  function Consumed(es: seq<Entry>): set<Bytes> {
    if es == [] then {}
    else
      var rest := Consumed(es[..|es| - 1]);
      var e := es[|es| - 1];
      if e.op.FirstUpdateOp? then rest + {e.op.commit} else rest
  }

  /** The commitments the block registers. */
  function Registered(es: seq<Entry>): set<Bytes> {
    if es == [] then {}
    else
      var rest := Registered(es[..|es| - 1]);
      var e := es[|es| - 1];
      if e.op.NewOp? then rest + {e.op.commit} else rest
  }

  lemma {:induction false} EarlierFrom(es: seq<Entry>)
    ensures forall n :: n in TouchedNames(es) <==> exists i :: 0 <= i < |es| && es[i].op.Names() && es[i].op.name == n
    ensures forall t :: t in NamedTxs(es) <==> exists i :: 0 <= i < |es| && es[i].op.Names() && es[i].tx == t
    ensures forall c :: c in Registered(es) ==> exists i :: 0 <= i < |es| && es[i].op.NewOp? && es[i].op.commit == c
  {
    if es != [] {
      var n := |es| - 1;
      EarlierFrom(es[..n]);
      assert forall i :: 0 <= i < n ==> es[i] == es[..n][i];
    }
  }

  /** A transaction no history mentions, whether on record or not. */
  predicate Unheard(l: Live, tx: Hash) {
    tx !in l.history && tx !in Maps.Elements(l.histIdx)
  }

  /** What validation establishes about an entry, given the live buckets and the earlier entries. */
  predicate EntryFits(l: Live, earlier: seq<Entry>, e: Entry) {
    && (e.op.NewOp? ==> e.op.commit !in l.nameNew && e.op.commit !in Registered(earlier))
    && (e.op.FirstUpdateOp? ==> e.op.name !in l.names && e.op.commit in l.nameNew)
    && (e.op.UpdateOp? ==> e.op.name in l.names)
    && (e.op.Names() ==> e.op.name !in TouchedNames(earlier) && e.op.name != [] && Unheard(l, e.tx))
  }

  predicate Fits(l: Live, es: seq<Entry>) {
    es == [] || (Fits(l, es[..|es| - 1]) && EntryFits(l, es[..|es| - 1], es[|es| - 1]))
  }

  lemma {:induction false} FitsSeparates(l: Live, es: seq<Entry>)
    requires Fits(l, es)
    ensures Registered(es) !! l.nameNew.Keys
    ensures Consumed(es) <= l.nameNew.Keys
    ensures NamedTxs(es) !! l.history.Keys && NamedTxs(es) !! Maps.Elements(l.histIdx)
  {
    hide Maps.Elements;
    if es != [] {
      FitsSeparates(l, es[..|es| - 1]);
    }
  }

  // ----- the shape of the live buckets while a block is applied -----

  lemma WriteNameIndexed(l: Live, tx: Hash, name: Name, r: Record)
    requires Indexed(l)
    ensures Indexed(WriteName(l, tx, name, r))
  {
    hide WriteName, ExpirationMirror;
  }

  /** Two maps agree on every key outside the given set. */
  ghost predicate AgreeOutside<K(!new), V(!new)>(a: map<K, V>, b: map<K, V>, except: set<K>) {
    forall c :: c !in except ==> (c in a <==> c in b) && (c in a ==> a[c] == b[c])
  }

  /** Only the touched names change, to records of height h, and only the history of the given transactions. */
  ghost predicate NamesFrame(x: Live, l: Live, touched: set<Name>, txs: set<Hash>, h: Height) {
    && AgreeOutside(l.names, x.names, touched)
    && AgreeOutside(l.histIdx, x.histIdx, touched)
    && AgreeOutside(l.history, x.history, txs)
    && (forall n :: n in touched ==> n in l.names && l.names[n].height == h)
  }

  /** Registered commitments appear, consumed ones disappear, and all others stay. */
  ghost predicate CommitsFrame(x: Live, l: Live, consumed: set<Bytes>, registered: set<Bytes>, h: Height) {
    && (forall c :: c in l.nameNew <==> (c in x.nameNew && c !in consumed) || c in registered)
    && (forall c :: c in l.nameNew ==> l.nameNew[c] == if c in registered then h else x.nameNew[c])
  }

  lemma EntryNamesFrame(x: Live, l: Live, touched: set<Name>, txs: set<Hash>, e: Entry, h: Height, time: int)
    requires NamesFrame(x, l, touched, txs, h)
    ensures e.op.Names() ==> NamesFrame(x, ApplyEntry(l, e, h, time), touched + {e.op.name}, txs + {e.tx}, h)
    ensures !e.op.Names() ==> NamesFrame(x, ApplyEntry(l, e, h, time), touched, txs, h)
  {
    if e.op.Names() {
      var name, r := e.op.name, WrittenRecord(l, e, h, time);
      var list := HistoryOf(l, name) + [e.tx];
      assert r.height == h;
      hide WriteName, WrittenRecord, HistoryOf, AgreeOutside;
      AgreePut(l.names, x.names, touched, name, r);
      AgreePut(l.histIdx, x.histIdx, touched, name, list);
      AgreePut(l.history, x.history, txs, e.tx, r);
    }
  }

  lemma AgreePut<K(!new), V(!new)>(a: map<K, V>, b: map<K, V>, except: set<K>, k: K, v: V)
    requires AgreeOutside(a, b, except)
    ensures AgreeOutside(a[k := v], b, except + {k})
  {
  }

  lemma AgreeDrop<K(!new), V(!new)>(a: map<K, V>, b: map<K, V>, except: set<K>, k: K, v: V)
    requires AgreeOutside(a, b[k := v], except + {k}) && (k in b ==> k in except)
    ensures AgreeOutside(a - {k}, b, except)
  {
  }

  lemma EntryCommitsFrame(x: Live, l: Live, consumed: set<Bytes>, registered: set<Bytes>, e: Entry, h: Height, time: int)
    requires CommitsFrame(x, l, consumed, registered, h)
    requires registered !! x.nameNew.Keys
    requires e.op.NewOp? ==> e.op.commit !in x.nameNew && e.op.commit !in registered
    requires e.op.FirstUpdateOp? ==> e.op.commit in x.nameNew
    ensures CommitsFrame(x, ApplyEntry(l, e, h, time),
                         if e.op.FirstUpdateOp? then consumed + {e.op.commit} else consumed,
                         if e.op.NewOp? then registered + {e.op.commit} else registered, h)
  {
    hide WriteName, WrittenRecord;
  }

  lemma ApplyEntryIndexed(l: Live, e: Entry, h: Height, time: int)
    requires Indexed(l)
    ensures Indexed(ApplyEntry(l, e, h, time))
  {
    if e.op.Names() {
      WriteNameIndexed(l, e.tx, e.op.name, WrittenRecord(l, e, h, time));
    }
    hide WriteName, WrittenRecord, ExpirationMirror;
  }

  lemma {:induction false} ApplyEntriesShape(x: Live, es: seq<Entry>, h: Height, time: int)
    requires Indexed(x) && Fits(x, es)
    ensures Indexed(ApplyEntries(x, es, h, time))
    ensures NamesFrame(x, ApplyEntries(x, es, h, time), TouchedNames(es), NamedTxs(es), h)
    ensures CommitsFrame(x, ApplyEntries(x, es, h, time), Consumed(es), Registered(es), h)
  {
    if es == [] {
      hide Indexed;
    } else {
      var n := |es| - 1;
      ApplyEntriesShape(x, es[..n], h, time);
      var l := ApplyEntries(x, es[..n], h, time);
      FitsSeparates(x, es[..n]);
      hide Indexed, NamesFrame, CommitsFrame, ApplyEntry, Maps.Elements;
      EntryNamesFrame(x, l, TouchedNames(es[..n]), NamedTxs(es[..n]), es[n], h, time);
      EntryCommitsFrame(x, l, Consumed(es[..n]), Registered(es[..n]), es[n], h, time);
      ApplyEntryIndexed(l, es[n], h, time);
    }
  }

  // ----- one entry undone -----

  /** The history buckets after a touched name has lost its last entry again. */
  lemma ForgetLast(l: Live, l': Live, name: Name, tx: Hash)
    requires name in l.histIdx ==> l.histIdx[name] != []
    requires l'.histIdx == l.histIdx[name := HistoryOf(l, name) + [tx]]
    ensures RemoveLastHistory(l', name).histIdx == l.histIdx
    ensures RemoveLastHistory(l', name).history == l'.history - {tx}
    ensures RemoveLastHistory(l', name).names == l'.names && RemoveLastHistory(l', name).nameNew == l'.nameNew
    ensures RemoveLastHistory(l', name).expiration == l'.expiration
  {
    var list := HistoryOf(l, name);
    assert HistoryOf(l', name) == list + [tx] && (list + [tx])[..|list|] == list;
    if name in l.histIdx {
      Maps.PutTwice(l.histIdx, name, list + [tx]);
    } else {
      Maps.PutAndDrop(l.histIdx, name, list + [tx]);
    }
  }

  /** The record a rollback finds for an updated name: what the last history entry before the block says now. */
  lemma FoundAgain(l: Live, l': Live, name: Name, tx: Hash)
    requires name in l.histIdx && l.histIdx[name] != []
    requires l'.histIdx == l.histIdx[name := HistoryOf(l, name) + [tx]]
    ensures var last := HistoryOf(l, name)[|HistoryOf(l, name)| - 1];
            last != tx ==> PreviousRecord(l', name) == if last in l'.history then Some(l'.history[last]) else None
  {
    var list := HistoryOf(l, name);
    assert HistoryOf(l', name) == list + [tx];
  }

  lemma UndoFirstUpdateStep(l: Live, e: Entry, h: Height, time: int, nn: map<Bytes, Height>, hist: map<Hash, Record>)
    requires Indexed(l) && e.op.FirstUpdateOp? && e.op.name !in l.names
    ensures var c := e.op.commit;
            UndoFirstUpdate(ApplyEntry(l, e, h, time).(nameNew := nn, history := hist), e.op.name, c, h)
              == l.(nameNew := nn[c := RestoredHeight(l, c, h)], history := hist - {e.tx})
  {
    hide ExpirationMirror;
    var name := e.op.name;
    var r := WrittenRecord(l, e, h, time);
    hide WriteName, WrittenRecord;
    Maps.PutAndDrop(l.names, name, r);
    ForgetLast(l, ApplyEntry(l, e, h, time).(nameNew := nn, history := hist), name, e.tx);
    var m := HeightName(r.expiresAt, name);
    assert m !in l.expiration && (l.expiration + {m}) - {m} == l.expiration;
  }

  lemma UndoUpdateStep(l: Live, e: Entry, h: Height, time: int, nn: map<Bytes, Height>, hist: map<Hash, Record>)
    requires Indexed(l) && e.op.UpdateOp? && e.op.name in l.names
    requires var last := l.histIdx[e.op.name][|l.histIdx[e.op.name]| - 1];
             last != e.tx && last in hist && hist[last] == l.names[e.op.name]
    ensures UndoUpdate(ApplyEntry(l, e, h, time).(nameNew := nn, history := hist), e.op.name)
         == l.(nameNew := nn, history := hist - {e.tx})
  {
    hide ExpirationMirror;
    var name := e.op.name;
    var r := WrittenRecord(l, e, h, time);
    hide WriteName, WrittenRecord;
    var l' := ApplyEntry(l, e, h, time).(nameNew := nn, history := hist);
    ForgetLast(l, l', name, e.tx);
    FoundAgain(l, l', name, e.tx);
    hide RemoveLastHistory, PreviousRecord;
    Maps.PutTwice(l.names, name, r);
    UpdateMarks(l, name, r);
  }

  lemma UpdateMarks(l: Live, name: Name, r: Record)
    requires l.expiration == ExpirationMirror(l.names) && name in l.names
    ensures var marks := WithoutMark(l, name) + {HeightName(r.expiresAt, name)};
            (marks - {HeightName(r.expiresAt, name)}) + {HeightName(l.names[name].expiresAt, name)} == l.expiration
  {
    hide ExpirationMirror;
  }

  // ----- all of them undone -----

  /** Before the block, the history of every name it updates ended in the live record. */
  predicate UpdatesRecorded(l: Live, es: seq<Entry>) {
    forall i :: 0 <= i < |es| && es[i].op.UpdateOp? ==> EndsLive(l, es[i].op.name)
  }

  /**
   The state of the undo pass when the entries es are still to be undone: the buckets after those
   entries, except for the commitments and the history records that the entries account for.
   */
  ghost predicate Undone(s: Undoing, applied: Live, es: seq<Entry>) {
    && s.live == applied.(nameNew := s.live.nameNew, history := s.live.history)
    && AgreeOutside(s.live.nameNew, applied.nameNew, Consumed(es))
    && AgreeOutside(s.live.history, applied.history, NamedTxs(es))
    && s.restored !! Registered(es)
  }

  /**
   The undo pass, started on the applied live buckets, ends on the original ones, if the history
   of every updated name ended in its live record.  Two entries may share a transaction and with
   it a history record; two first updates may consume the same commitment, because a salt and a
   name are concatenated without a separator.  Only the earlier one saw the original, and it is
   undone last.
   */
  lemma {:induction false} UndoEntriesInverts(x: Live, es: seq<Entry>, s: Undoing, h: Height, time: int)
    requires Indexed(x) && Fits(x, es) && UpdatesRecorded(x, es)
    requires forall c :: c in x.nameNew ==> x.nameNew[c] >= 1
    requires Undone(s, ApplyEntries(x, es, h, time), es)
    ensures UndoEntries(s, es, h).live == x
    decreases |es|
  {
    if es == [] {
      assert s.live.nameNew == x.nameNew && s.live.history == x.history;
    } else {
      var n := |es| - 1;
      assert forall i :: 0 <= i < n ==> es[..n][i] == es[i];
      UndoEntryAgrees(x, es, s, h, time);
      hide EndsLive, EntryFits, Indexed;
      UndoEntriesInverts(x, es[..n], UndoEntry(s, es[n], h), h, time);
    }
  }

  lemma UndoEntryAgrees(x: Live, es: seq<Entry>, s: Undoing, h: Height, time: int)
    requires es != [] && Indexed(x) && Fits(x, es) && UpdatesRecorded(x, es)
    requires forall c :: c in x.nameNew ==> x.nameNew[c] >= 1
    requires Undone(s, ApplyEntries(x, es, h, time), es)
    ensures Undone(UndoEntry(s, es[|es| - 1], h), ApplyEntries(x, es[..|es| - 1], h, time), es[..|es| - 1])
  {
    var n := |es| - 1;
    var e, l := es[n], ApplyEntries(x, es[..n], h, time);
    ApplyEntriesShape(x, es[..n], h, time);
    FitsSeparates(x, es);
    if e.op.UpdateOp? {
      LastRecord(x, es, s, h, time);
    }
    assert e.op.FirstUpdateOp? ==> e.op.name !in l.names;
    assert e.op.NewOp? ==> e.op.commit !in l.nameNew;
    assert e.op.FirstUpdateOp? && e.op.commit !in Consumed(es[..n]) ==> NameNewHeight(l, e.op.commit, h) >= 1;
    assert e.op.Names() ==> e.tx in l.history ==> e.tx in NamedTxs(es[..n]);
    hide Indexed, NamesFrame, CommitsFrame, ApplyEntries, Fits, UpdatesRecorded, Maps.Elements, EndsLive;
    UndoOne(l, e, s, h, time, Consumed(es[..n]), NamedTxs(es[..n]));
  }

  /** When an update is undone, the last history entry before it is on record as it was before the block. */
  lemma LastRecord(x: Live, es: seq<Entry>, s: Undoing, h: Height, time: int)
    requires es != [] && Indexed(x) && Fits(x, es) && UpdatesRecorded(x, es) && es[|es| - 1].op.UpdateOp?
    requires AgreeOutside(s.live.history, ApplyEntries(x, es, h, time).history, NamedTxs(es))
    ensures var name, tx, l := es[|es| - 1].op.name, es[|es| - 1].tx, ApplyEntries(x, es[..|es| - 1], h, time);
            && name in l.names && name in l.histIdx && l.histIdx[name] != []
            && var last := l.histIdx[name][|l.histIdx[name]| - 1];
               last != tx && last in s.live.history && s.live.history[last] == l.names[name]
  {
    var n := |es| - 1;
    var name, l := es[n].op.name, ApplyEntries(x, es[..n], h, time);
    ApplyEntriesShape(x, es[..n], h, time);
    ApplyEntriesShape(x, es, h, time);
    FitsSeparates(x, es);
    assert EndsLive(x, name);
    hide ApplyEntries, Fits, CommitsFrame, UpdatesRecorded;
    var list := x.histIdx[name];
    assert l.histIdx[name] == list && l.names[name] == x.names[name];
    assert list[|list| - 1] in Maps.Elements(x.histIdx);
  }

  lemma UndoOne(l: Live, e: Entry, s: Undoing, h: Height, time: int, consumed: set<Bytes>, txs: set<Hash>)
    requires Indexed(l)
    requires s.live == ApplyEntry(l, e, h, time).(nameNew := s.live.nameNew, history := s.live.history)
    requires AgreeOutside(s.live.nameNew, ApplyEntry(l, e, h, time).nameNew, if e.op.FirstUpdateOp? then consumed + {e.op.commit} else consumed)
    requires AgreeOutside(s.live.history, ApplyEntry(l, e, h, time).history, if e.op.Names() then txs + {e.tx} else txs)
    requires e.op.Names() ==> e.tx in l.history ==> e.tx in txs
    requires e.op.NewOp? ==> e.op.commit !in l.nameNew && e.op.commit !in s.restored
    requires e.op.FirstUpdateOp? ==> e.op.name !in l.names
    requires e.op.FirstUpdateOp? && e.op.commit !in consumed ==> e.op.commit in l.nameNew && l.nameNew[e.op.commit] != 0
    requires e.op.UpdateOp? ==>
               && e.op.name in l.names && e.op.name in l.histIdx && l.histIdx[e.op.name] != []
               && var last := l.histIdx[e.op.name][|l.histIdx[e.op.name]| - 1];
                  last != e.tx && last in s.live.history && s.live.history[last] == l.names[e.op.name]
    ensures var s' := UndoEntry(s, e, h);
            && s'.live == l.(nameNew := s'.live.nameNew, history := s'.live.history)
            && AgreeOutside(s'.live.nameNew, l.nameNew, consumed)
            && AgreeOutside(s'.live.history, l.history, txs)
            && s'.restored == if e.op.FirstUpdateOp? then s.restored + {e.op.commit} else s.restored
  {
    hide Indexed, WriteName, WrittenRecord, UndoFirstUpdate, UndoUpdate;
    if e.op.Names() {
      AgreeDrop(s.live.history, l.history, txs, e.tx, WrittenRecord(l, e, h, time));
    }
    match e.op {
      case NoOp =>
      case NewOp(c) =>
      case FirstUpdateOp(name, value, c) =>
        hide AgreeOutside;
        UndoFirstUpdateStep(l, e, h, time, s.live.nameNew, s.live.history);
        CommitBack(s.live.nameNew, l.nameNew, consumed, c, RestoredHeight(l, c, h));
      case UpdateOp(name, value) =>
        hide AgreeOutside;
        UndoUpdateStep(l, e, h, time, s.live.nameNew, s.live.history);
    }
  }

  /** The height a rollback gives the commitment of a first update applied to l. */
  function RestoredHeight(l: Live, c: Bytes, h: Height): Height {
    var nnh := NameNewHeight(l, c, h);
    if nnh != 0 then nnh else if h - MIN_BLOCKS_BEFORE_FIRST_UPDATE < 0 then 0 else h - MIN_BLOCKS_BEFORE_FIRST_UPDATE
  }

  lemma CommitBack(nn: map<Bytes, Height>, before: map<Bytes, Height>, consumed: set<Bytes>, c: Bytes, height: Height)
    requires AgreeOutside(nn, before - {c}, consumed + {c})
    requires c !in consumed ==> c in before && before[c] == height
    ensures AgreeOutside(nn[c := height], before, consumed)
  {
  }
}
