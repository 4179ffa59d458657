/**
 The name buckets: the live ones, and the height-indexed backups of expired names that a
 disconnect restores from.  The values below say what each database operation does to them.
 */
module NameStore {
  import opened Bytes
  import opened Records
  import Maps

  /** The buckets validation reads: names, expiration, history, history_index, name_new. */
  datatype Live = Live(
    names: map<Name, Record>,
    expiration: set<HeightName>,
    history: map<Hash, Record>,
    histIdx: map<Name, seq<Hash>>,
    nameNew: map<Bytes, Height>)

  /** The buckets expired_names, expired_names_idx, expired_hist, expired_hist_idx. */
  datatype Backups = Backups(
    expired: map<HeightName, Record>,
    idx: set<HeightName>,
    hist: map<Hash, Record>,
    histIdx: map<HeightName, seq<Hash>>)

  datatype NameDb = NameDb(live: Live, back: Backups)

  // ----- operations on the live buckets -----

  /** The expiration index without the entry of the name's current record. */
  function WithoutMark(l: Live, name: Name): set<HeightName> {
    if name in l.names then l.expiration - {HeightName(l.names[name].expiresAt, name)} else l.expiration
  }

  function PutName(l: Live, name: Name, r: Record): Live {
    l.(names := l.names[name := r],
       expiration := WithoutMark(l, name) + {HeightName(r.expiresAt, name)})
  }

  function DeleteName(l: Live, name: Name): Live {
    l.(names := l.names - {name}, expiration := WithoutMark(l, name))
  }

  function HistoryOf(l: Live, name: Name): seq<Hash> {
    if name in l.histIdx then l.histIdx[name] else []
  }

  function AddHistory(l: Live, tx: Hash, name: Name, r: Record): Live {
    l.(history := l.history[tx := r], histIdx := l.histIdx[name := HistoryOf(l, name) + [tx]])
  }

  function DeleteHistory(l: Live, name: Name): Live {
    l.(history := l.history - Maps.Members(HistoryOf(l, name)), histIdx := l.histIdx - {name})
  }

  function RemoveLastHistory(l: Live, name: Name): Live {
    var list := HistoryOf(l, name);
    if list == [] then l
    else
      var shorter := list[..|list| - 1];
      l.(history := l.history - {list[|list| - 1]},
         histIdx := if shorter == [] then l.histIdx - {name} else l.histIdx[name := shorter])
  }

  /** The record RemoveLastHistory returns: the entry before the removed one, if there is one. */
  function PreviousRecord(l: Live, name: Name): Option<Record> {
    var list := HistoryOf(l, name);
    if |list| < 2 then None
    else
      var history := l.history - {list[|list| - 1]};
      var tx := list[|list| - 2];
      if tx in history then Some(history[tx]) else None
  }

  // ----- name operations in a block -----

  datatype NameOp =
    | NoOp
    | NewOp(commit: Bytes)
    | FirstUpdateOp(name: Name, value: Bytes, commit: Bytes)
    | UpdateOp(name: Name, value: Bytes)
  {
    predicate Names() {
      FirstUpdateOp? || UpdateOp?
    }
  }

  /** An output of the block, in block order: where it is, what it does and who owns it. */
  datatype Entry = Entry(tx: Hash, index: Uint32, op: NameOp, owner: Bytes)

  /** The NAME_NEW height a NAME_FIRSTUPDATE records, estimated when the commitment is gone. */
  function NameNewHeight(l: Live, commit: Bytes, h: Height): Height {
    if commit in l.nameNew then l.nameNew[commit]
    else if h - MIN_BLOCKS_BEFORE_FIRST_UPDATE < 0 then 0
    else h - MIN_BLOCKS_BEFORE_FIRST_UPDATE
  }

  function NewRecord(e: Entry, value: Bytes, h: Height, time: int, nameNewHeight: Height): Record {
    Record(value, e.tx, e.index, h, SafeCalcExpiresAt(h), e.owner, time, nameNewHeight)
  }

  /** The record a NAME_FIRSTUPDATE or a NAME_UPDATE writes. */
  function WrittenRecord(l: Live, e: Entry, h: Height, time: int): Record
    requires e.op.Names()
  {
    var nameNewHeight :=
      if e.op.FirstUpdateOp? then NameNewHeight(l, e.op.commit, h)
      else if e.op.name in l.names then l.names[e.op.name].nameNewHeight
      else 0;
    NewRecord(e, e.op.value, h, time, nameNewHeight)
  }

  /** Stores a record and adds it to the name's history. */
  function WriteName(l: Live, tx: Hash, name: Name, r: Record): (l': Live)
    ensures l'.names == l.names[name := r]
    ensures l'.expiration == WithoutMark(l, name) + {HeightName(r.expiresAt, name)}
    ensures l'.history == l.history[tx := r]
    ensures l'.histIdx == l.histIdx[name := HistoryOf(l, name) + [tx]]
    ensures l'.nameNew == l.nameNew
  {
    AddHistory(PutName(l, name, r), tx, name, r)
  }

  function ApplyEntry(l: Live, e: Entry, h: Height, time: int): Live {
    match e.op
    case NoOp => l
    case NewOp(c) => l.(nameNew := l.nameNew[c := h])
    case FirstUpdateOp(name, _, c) =>
      var l' := WriteName(l, e.tx, name, WrittenRecord(l, e, h, time));
      l'.(nameNew := l'.nameNew - {c})
    case UpdateOp(name, _) =>
      WriteName(l, e.tx, name, WrittenRecord(l, e, h, time))
  }

  function ApplyEntries(l: Live, es: seq<Entry>, h: Height, time: int): Live {
    if es == [] then l
    else ApplyEntry(ApplyEntries(l, es[..|es| - 1], h, time), es[|es| - 1], h, time)
  }

  /** A key that a bucket of the key/value store accepts: not empty, and not too long. */
  predicate LegalKey(key: Bytes) {
    0 < |key| <= MAX_KEY_SIZE
  }

  /** A name operation fails only for a NAME_NEW, whose commitment is stored already or is no legal key. */
  predicate EntryOk(l: Live, e: Entry) {
    e.op.NewOp? ==> LegalKey(e.op.commit) && e.op.commit !in l.nameNew
  }

  predicate EntriesOk(l: Live, es: seq<Entry>, h: Height, time: int) {
    es == [] ||
    (EntriesOk(l, es[..|es| - 1], h, time)
     && EntryOk(ApplyEntries(l, es[..|es| - 1], h, time), es[|es| - 1]))
  }

  // ----- undoing the name operations of a block, last first -----

  datatype Undoing = Undoing(live: Live, restored: set<Bytes>)

  /** The NAME_NEW height a rollback restores; a recorded height of 0 counts as unknown. */
  function RollbackHeight(l: Live, name: Name, h: Height): Height {
    if name in l.names && l.names[name].nameNewHeight != 0 then l.names[name].nameNewHeight
    else if h - MIN_BLOCKS_BEFORE_FIRST_UPDATE < 0 then 0
    else h - MIN_BLOCKS_BEFORE_FIRST_UPDATE
  }

  function UndoFirstUpdate(l: Live, name: Name, commit: Bytes, h: Height): Live {
    var l' := DeleteName(RemoveLastHistory(l, name), name);
    l'.(nameNew := l'.nameNew[commit := RollbackHeight(l, name, h)])
  }

  function UndoUpdate(l: Live, name: Name): Live {
    var l' := RemoveLastHistory(l, name);
    match PreviousRecord(l, name)
    case None => l'
    case Some(r) => PutName(l', name, r)
  }

  function UndoEntry(s: Undoing, e: Entry, h: Height): Undoing {
    match e.op
    case NoOp => s
    case NewOp(c) => if c in s.restored then s else s.(live := s.live.(nameNew := s.live.nameNew - {c}))
    case FirstUpdateOp(name, value, c) => Undoing(UndoFirstUpdate(s.live, name, c, h), s.restored + {c})
    case UpdateOp(name, value) => s.(live := UndoUpdate(s.live, name))
  }

  function UndoEntries(s: Undoing, es: seq<Entry>, h: Height): Undoing
    decreases |es|
  {
    if es == [] then s else UndoEntries(UndoEntry(s, es[|es| - 1], h), es[..|es| - 1], h)
  }

  // ----- expiring names -----

  /** Backs up the record of an expired name and the history its list of transactions refers to. */
  function StoreExpired(b: Backups, history: map<Hash, Record>, list: seq<Hash>, name: Name, r: Record, h: Height): Backups {
    var k := HeightName(h, name);
    var b' := b.(expired := b.expired[k := r], idx := b.idx + {k});
    if list == [] then b'
    else b'.(histIdx := b.histIdx[k := list],
             hist := b.hist + Maps.Restrict(history, Maps.Members(list)))
  }

  function ExpireOne(d: NameDb, name: Name, h: Height): NameDb {
    NameDb(
      DeleteHistory(DeleteName(d.live, name), name),
      if name !in d.live.names then d.back
      else StoreExpired(d.back, d.live.history, HistoryOf(d.live, name), name, d.live.names[name], h))
  }

  function ExpireAll(d: NameDb, names: seq<Name>, h: Height): NameDb {
    if names == [] then d
    else ExpireOne(ExpireAll(d, names[..|names| - 1], h), names[|names| - 1], h)
  }

  // ----- restoring and pruning the backups -----

  /** The names backed up at height h. */
  function ExpiredAt(b: Backups, h: Height): set<Name> {
    set k | k in b.idx && k.height == h && k in b.expired && k.name != [] :: k.name
  }

  function AtHeight(h: Height, names: set<Name>): (r: set<HeightName>)
    ensures forall k :: k in r <==> k.height == h && k.name in names
  {
    set n | n in names :: HeightName(h, n)
  }

  /** The part of a height-keyed bucket that sits at height h, keyed by name. */
  function Slice<V>(m: map<HeightName, V>, h: Height, names: set<Name>): (r: map<Name, V>)
    ensures forall n :: n in r <==> n in names && HeightName(h, n) in m
    ensures forall n :: n in r ==> r[n] == m[HeightName(h, n)]
  {
    map n | n in names && HeightName(h, n) in m :: m[HeightName(h, n)]
  }

  function ExpirationMirror(names: map<Name, Record>): (r: set<HeightName>)
    ensures forall k :: k in r <==> k.name in names && names[k.name].expiresAt == k.height
  {
    set n | n in names :: HeightName(names[n].expiresAt, n)
  }

  /** Moves the given names back from the backups at height h. */
  function RestoreNames(d: NameDb, h: Height, names: set<Name>): NameDb {
    var l, b := d.live, d.back;
    var records := Slice(b.expired, h, names);
    var lists := Slice(b.histIdx, h, names);
    var txs := Maps.Elements(lists);
    NameDb(
      Live(
        l.names + records,
        l.expiration + ExpirationMirror(records),
        l.history + Maps.Restrict(b.hist, txs),
        l.histIdx + lists,
        l.nameNew),
      Backups(
        b.expired - AtHeight(h, names),
        b.idx - AtHeight(h, names),
        b.hist - txs,
        b.histIdx - AtHeight(h, names)))
  }

  function RestoreExpired(d: NameDb, h: Height): NameDb {
    RestoreNames(d, h, ExpiredAt(d.back, h))
  }

  function KeysBefore(b: Backups, floor: int): set<HeightName> {
    set k | k in b.idx && k.height < floor
  }

  /** Drops the given backups and their history. */
  function DropBackups(b: Backups, keys: set<HeightName>): Backups {
    Backups(
      b.expired - keys,
      b.idx - keys,
      b.hist - Maps.Elements(Maps.Restrict(b.histIdx, keys)),
      b.histIdx - keys)
  }

  /** Drops the backups of names that expired below floor. */
  function PruneExpired(b: Backups, floor: int): Backups {
    DropBackups(b, KeysBefore(b, floor))
  }

  // ----- the invariants -----

  /** The expiration index mirrors the names, and every name, and no other, has a history. */
  ghost predicate Indexed(l: Live) {
    && l.expiration == ExpirationMirror(l.names)
    && l.histIdx.Keys == l.names.Keys
    && forall n :: n in l.histIdx ==> l.histIdx[n] != []
  }

  /** A live record at chain height tip. */
  predicate RecordInv(r: Record, tip: int) {
    && r.height <= tip <= r.expiresAt
    && r.expiresAt == SafeCalcExpiresAt(r.height)
    && 1 <= r.nameNewHeight
    && r.nameNewHeight + MIN_BLOCKS_BEFORE_FIRST_UPDATE <= r.height
  }

  ghost predicate LiveInv(l: Live, tip: int) {
    && Indexed(l)
    && [] !in l.names
    && (forall n :: n in l.names ==> RecordInv(l.names[n], tip))
    && (forall c :: c in l.nameNew ==> 1 <= l.nameNew[c] <= tip)
  }

  ghost predicate BackInv(b: Backups, tip: int) {
    && b.expired.Keys == b.idx
    && b.histIdx.Keys == b.idx
    && (forall k :: k in b.idx ==> k.height <= tip && k.name != [])
  }

  /** No history record is live and backed up, or live and listed in a backup. */
  ghost predicate Separate(l: Live, b: Backups) {
    l.history.Keys !! b.hist.Keys && l.history.Keys !! Maps.Elements(b.histIdx)
  }

  /** What every valid block keeps. */
  ghost predicate Inv(d: NameDb, tip: int) {
    LiveInv(d.live, tip) && BackInv(d.back, tip) && Separate(d.live, d.back)
  }

  // ----- complete histories -----

  /** The last entry of the name's history is on record, and is its live record. */
  predicate EndsLive(l: Live, n: Name) {
    var list := HistoryOf(l, n);
    && n in l.names && list != []
    && list[|list| - 1] in l.history && l.history[list[|list| - 1]] == l.names[n]
  }

  /** Every entry of the name's history is on record, and the last one is its live record. */
  predicate HistoryOk(l: Live, n: Name) {
    EndsLive(l, n) && forall tx :: tx in HistoryOf(l, n) ==> tx in l.history
  }

  /** Every name has a complete history, and no two names share an entry. */
  ghost predicate HistoryMatchesNames(l: Live) {
    && l.histIdx.Keys == l.names.Keys
    && (forall n :: n in l.histIdx ==> HistoryOk(l, n))
    && Maps.Disjoint(l.histIdx)
  }

  /** Every backed-up history is complete, and no two share an entry. */
  ghost predicate BackupsComplete(b: Backups) {
    Maps.Elements(b.histIdx) <= b.hist.Keys && Maps.Disjoint(b.histIdx)
  }

  /** What a valid block keeps exactly when none of its transactions writes two names. */
  ghost predicate Complete(d: NameDb) {
    HistoryMatchesNames(d.live) && BackupsComplete(d.back)
  }
}
