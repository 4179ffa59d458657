/** How much a rate limiter lets through, and that sweeping it changes no decision. */
module RateBounds {
  import opened Bytes
  import opened Records
  import opened Lru
  import opened RateLimiting

  // ----- how full an address's bucket is -----

  /** The tokens an address would find in its bucket; an unknown address finds a full one. */
  function Level(m: Table, ip: Ip, rate: real, now: real): real {
    match Find(m, ip)
    case None => rate
    case Some(b) => Refill(b, rate, now).tokens
  }

  predicate BucketOk(b: Bucket, rate: real, now: real) {
    0.0 <= b.tokens <= rate && b.lastRefill == b.lastUsed <= now
  }

  predicate TableOk(m: Table, rate: real, now: real) {
    Distinct(m) && forall i :: 0 <= i < |m| ==> BucketOk(m[i].value, rate, now)
  }

  lemma {:induction false} FoundOk(m: Table, ip: Ip, rate: real, now: real)
    requires TableOk(m, rate, now) && Find(m, ip).Some?
    ensures BucketOk(Find(m, ip).value, rate, now)
    ensures exists i :: 0 <= i < |m| && m[i] == Item(ip, Find(m, ip).value)
  {
    Absent(m, ip);
    var i := IndexOf(m, ip);
    RemoveAt(m, ip, i);
  }

  lemma EarnedGrows(b: Bucket, rate: real, t: real, t': real)
    requires rate >= 0.0 && b.lastRefill <= t <= t'
    ensures 0.0 <= Earned(b, rate, t) <= Earned(b, rate, t')
    ensures Earned(b, rate, t') == Earned(b, rate, t) + (t' - t) * rate
    ensures (t' - t) * rate >= 0.0
  {
    Product(t - b.lastRefill, rate);
    Product(t' - t, rate);
    Distribute(t - b.lastRefill, t' - t, rate);
  }

  lemma Product(x: real, y: real)
    requires x >= 0.0 && y >= 0.0
    ensures x * y >= 0.0
  {
  }

  lemma Distribute(x: real, y: real, z: real)
    ensures (x + y) * z == x * z + y * z
  {
  }

  /** Levels rise with the rate, up to a full bucket. */
  lemma LevelLater(m: Table, ip: Ip, rate: real, t: real, t': real)
    requires rate >= 0.0 && t <= t' && TableOk(m, rate, t)
    ensures (t' - t) * rate >= 0.0
    ensures Level(m, ip, rate, t') == Capped(Level(m, ip, rate, t) + (t' - t) * rate, rate)
    ensures 0.0 <= Level(m, ip, rate, t) <= rate
  {
    hide Earned;
    Product(t' - t, rate);
    if Find(m, ip).Some? {
      FoundOk(m, ip, rate, t);
      EarnedGrows(Find(m, ip).value, rate, t, t');
    }
  }

  lemma LevelInRange(m: Table, ip: Ip, rate: real, t: real)
    requires rate >= 0.0 && TableOk(m, rate, t)
    ensures 0.0 <= Level(m, ip, rate, t) <= rate
  {
    LevelLater(m, ip, rate, t, t);
  }

  // ----- steps -----

  /** The request drops the last address of a full table. */
  predicate Evicts(m: Table, maxSize: int, ip: Ip) {
    Find(m, ip).None? && |m| >= maxSize && m != []
  }

  lemma {:induction false} FindAfterRemove(m: Table, ip: Ip, x: Ip)
    requires x != ip
    ensures Find(Remove(m, ip), x) == Find(m, x)
  {
    if m != [] && m[0].key != ip {
      FindAfterRemove(m[1..], ip, x);
      assert ([m[0]] + Remove(m[1..], ip))[1..] == Remove(m[1..], ip);
    }
  }

  lemma {:induction false} FindInFront(m: Table, x: Ip)
    requires m != [] && m[|m| - 1].key != x
    ensures Find(m[..|m| - 1], x) == Find(m, x)
  {
    if |m| > 1 && m[0].key != x {
      FindInFront(m[1..], x);
      assert m[..|m| - 1][1..] == m[1..][..|m| - 2];
    }
  }

  /** What a request leaves at the front, and what it does to the other addresses. */
  lemma AdmitFinds(m: Table, rate: real, maxSize: int, ip: Ip, now: real, x: Ip)
    requires x != ip && !(Evicts(m, maxSize, ip) && m[|m| - 1].key == x)
    ensures Find(Admit(m, rate, maxSize, ip, now)[1..], x) == Find(m, x)
  {
    FindAfterRemove(m, ip, x);
    if Evicts(m, maxSize, ip) {
      FindInFront(m, x);
    }
    assert forall b, r: Table :: ([Item(ip, b)] + r)[1..] == r;
  }

  /** A request is allowed exactly when its address has a whole token, which it then takes. */
  lemma RequestLevels(m: Table, rate: real, maxSize: int, ip: Ip, now: real, x: Ip)
    requires rate >= 0.0 && TableOk(m, rate, now)
    ensures IsAllowed(m, rate, maxSize, ip, now) <==> Level(m, ip, rate, now) >= 1.0
    ensures x == ip ==> Level(AfterRequest(m, rate, maxSize, ip, now), x, rate, now) ==
                        Level(m, x, rate, now) - if Level(m, ip, rate, now) >= 1.0 then 1.0 else 0.0
    ensures x != ip && !(Evicts(m, maxSize, ip) && m[|m| - 1].key == x) ==>
              Level(AfterRequest(m, rate, maxSize, ip, now), x, rate, now) == Level(m, x, rate, now)
  {
    var a, m' := Admit(m, rate, maxSize, ip, now), AfterRequest(m, rate, maxSize, ip, now);
    FrontLevel(m, rate, maxSize, ip, now);
    assert m'[0] == Item(ip, Take(Refill(a[0].value, rate, now)));
    NoTimePasses(Take(Refill(a[0].value, rate, now)), rate);
    if x != ip && !(Evicts(m, maxSize, ip) && m[|m| - 1].key == x) {
      AdmitFinds(m, rate, maxSize, ip, now, x);
      assert m'[1..] == a[1..];
    }
  }

  lemma NoTimePasses(b: Bucket, rate: real)
    ensures Refill(b, rate, b.lastRefill).tokens == b.tokens
  {
    assert Earned(b, rate, b.lastRefill) == 0.0;
  }

  lemma FrontLevel(m: Table, rate: real, maxSize: int, ip: Ip, now: real)
    ensures Refill(Admit(m, rate, maxSize, ip, now)[0].value, rate, now).tokens == Level(m, ip, rate, now)
  {
    if Find(m, ip).None? {
      NoTimePasses(Bucket(rate, now, now), rate);
    }
  }

  lemma RequestOk(m: Table, rate: real, maxSize: int, ip: Ip, now: real)
    requires rate >= 0.0 && TableOk(m, rate, now)
    ensures TableOk(AfterRequest(m, rate, maxSize, ip, now), rate, now)
  {
    var a, m' := Admit(m, rate, maxSize, ip, now), AfterRequest(m, rate, maxSize, ip, now);
    FrontLevel(m, rate, maxSize, ip, now);
    LevelLater(m, ip, rate, now, now);
    hide Refill, Level;
    RestOfTable(m, rate, maxSize, ip, now);
    assert forall i :: 0 < i < |m'| ==> m'[i] == a[1..][i - 1];
  }

  lemma AdmitRest(m: Table, rate: real, maxSize: int, ip: Ip, now: real)
    ensures Find(m, ip).Some? ==> Admit(m, rate, maxSize, ip, now)[1..] == Remove(m, ip)
    ensures Find(m, ip).None? ==> Admit(m, rate, maxSize, ip, now)[1..] == if |m| >= maxSize && m != [] then m[..|m| - 1] else m
  {
  }

  lemma RemovedOk(m: Table, rate: real, ip: Ip, now: real)
    requires TableOk(m, rate, now)
    ensures TableOk(Remove(m, ip), rate, now)
    ensures forall i :: 0 <= i < |Remove(m, ip)| ==> Remove(m, ip)[i].key != ip
  {
    hide Keys, Remove, BucketOk;
    RemoveDistinct(m, ip);
    Survivors(m, ip);
    var r := Remove(m, ip);
    forall i | 0 <= i < |r| ensures BucketOk(r[i].value, rate, now) {
      var j :| 0 <= j < |m| && m[j] == r[i];
    }
  }

  lemma RestOfTable(m: Table, rate: real, maxSize: int, ip: Ip, now: real)
    requires TableOk(m, rate, now)
    ensures TableOk(Admit(m, rate, maxSize, ip, now)[1..], rate, now)
    ensures forall i :: 0 <= i < |Admit(m, rate, maxSize, ip, now)[1..]| ==> Admit(m, rate, maxSize, ip, now)[1..][i].key != ip
  {
    hide Admit, Remove, Find, BucketOk;
    AdmitRest(m, rate, maxSize, ip, now);
    RemovedOk(m, rate, ip, now);
    Absent(m, ip);
    if Find(m, ip).None? {
      assert forall i :: 0 <= i < |m| ==> m[i].key in Keys(m);
    }
  }

  /** An address that has been idle for ten minutes has a full bucket again. */
  lemma StaleIsFull(b: Bucket, rate: real, now: real)
    requires rate >= 0.0 && BucketOk(b, rate, now) && Stale(b, now)
    ensures Refill(b, rate, now).tokens == rate
  {
    var d := now - b.lastRefill - 1.0;
    Product(d, rate);
    Distribute(d, 1.0, rate);
    assert Earned(b, rate, now) == d * rate + rate;
  }

  lemma SweepLevels(m: Table, rate: real, now: real, x: Ip)
    requires rate >= 0.0 && TableOk(m, rate, now)
    ensures Level(Swept(m, now), x, rate, now) == Level(m, x, rate, now)
    ensures TableOk(Swept(m, now), rate, now)
  {
    var s := Swept(m, now);
    SweptShape(m, now);
    SweptKeys(m, now);
    Absent(m, x);
    Absent(s, x);
    if x in Keys(m) {
      var i := IndexOf(m, x);
      RemoveAt(m, x, i);
      if Stale(m[i].value, now) {
        StaleIsFull(m[i].value, rate, now);
        forall j | 0 <= j < |s| ensures s[j].key != x { SameItem(m, s[j], i); }
      } else {
        var j :| 0 <= j < |s| && s[j] == m[i];
        RemoveAt(s, x, j);
      }
    }
  }

  lemma SweptKeys(m: Table, now: real)
    requires Distinct(m)
    ensures Keys(Swept(m, now)) <= Keys(m)
  {
    SweptShape(m, now);
    var s := Swept(m, now);
    forall k | k in Keys(s) ensures k in Keys(m) {
      var i := IndexOf(s, k);
      var j :| 0 <= j < |m| && m[j] == s[i];
      assert m[j].key == k;
    }
  }

  /** An item of the table with the key at i is the item at i. */
  lemma SameItem(m: Table, item: Item<Ip, Bucket>, i: nat)
    requires Distinct(m) && item in m && i < |m|
    ensures item.key == m[i].key ==> item == m[i]
  {
  }

  // ----- runs -----

  datatype Event = Request(ip: Ip, time: real) | Sweep(time: real)

  /** Times do not go back. */
  ghost predicate InOrder(events: seq<Event>, from: real) {
    events == [] || (InOrder(events[..|events| - 1], from) && LastTime(events[..|events| - 1], from) <= events[|events| - 1].time)
  }

  function LastTime(events: seq<Event>, from: real): real {
    if events == [] then from else events[|events| - 1].time
  }

  function Step(m: Table, rate: real, maxSize: int, e: Event): Table {
    match e
    case Request(ip, t) => AfterRequest(m, rate, maxSize, ip, t)
    case Sweep(t) => Swept(m, t)
  }

  function Run(m: Table, rate: real, maxSize: int, events: seq<Event>): Table {
    if events == [] then m else Step(Run(m, rate, maxSize, events[..|events| - 1]), rate, maxSize, events[|events| - 1])
  }

  /** The decisions about the requests of a run. */
  function Decisions(m: Table, rate: real, maxSize: int, events: seq<Event>): seq<bool> {
    if events == [] then []
    else
      var before, e := events[..|events| - 1], events[|events| - 1];
      Decisions(m, rate, maxSize, before)
      + if e.Request? then [IsAllowed(Run(m, rate, maxSize, before), rate, maxSize, e.ip, e.time)] else []
  }

  /** How many requests of an address a run allows. */
  function Count(m: Table, rate: real, maxSize: int, events: seq<Event>, x: Ip): nat {
    if events == [] then 0
    else
      var before, e := events[..|events| - 1], events[|events| - 1];
      Count(m, rate, maxSize, before, x)
      + if e.Request? && e.ip == x && IsAllowed(Run(m, rate, maxSize, before), rate, maxSize, x, e.time) then 1 else 0
  }

  /** The address is never dropped to make room. */
  ghost predicate NeverEvicted(m: Table, rate: real, maxSize: int, events: seq<Event>, x: Ip) {
    events == [] ||
    var before, e := events[..|events| - 1], events[|events| - 1];
    var s := Run(m, rate, maxSize, before);
    NeverEvicted(m, rate, maxSize, before, x) && !(e.Request? && Evicts(s, maxSize, e.ip) && s[|s| - 1].key == x)
  }

  lemma {:induction false} RunOk(m: Table, rate: real, maxSize: int, events: seq<Event>, from: real)
    requires rate >= 0.0 && TableOk(m, rate, from) && InOrder(events, from)
    ensures TableOk(Run(m, rate, maxSize, events), rate, LastTime(events, from))
    ensures from <= LastTime(events, from)
  {
    if events != [] {
      hide TableOk, AfterRequest, Swept;
      var before, e := events[..|events| - 1], events[|events| - 1];
      RunOk(m, rate, maxSize, before, from);
      var s := Run(m, rate, maxSize, before);
      OkLater(s, rate, LastTime(before, from), e.time);
      match e {
        case Request(ip, t) => RequestOk(s, rate, maxSize, ip, t);
        case Sweep(t) => SweepLevels(s, rate, t, []);
      }
    }
  }

  lemma OkLater(m: Table, rate: real, t: real, t': real)
    requires TableOk(m, rate, t) && t <= t'
    ensures TableOk(m, rate, t')
  {
  }

  /** What has been allowed and what is left in the bucket never exceed a full bucket and what was earned. */
  lemma {:induction false} Budget(m: Table, rate: real, maxSize: int, events: seq<Event>, x: Ip, from: real)
    requires rate >= 0.0 && TableOk(m, rate, from) && InOrder(events, from)
    requires NeverEvicted(m, rate, maxSize, events, x)
    ensures var t := LastTime(events, from);
            Count(m, rate, maxSize, events, x) as real + Level(Run(m, rate, maxSize, events), x, rate, t) <= rate + (t - from) * rate
  {
    hide TableOk, Step, Level, IsAllowed, Evicts;
    if events == [] {
      LevelLater(m, x, rate, from, from);
    } else {
      var before, e := events[..|events| - 1], events[|events| - 1];
      Budget(m, rate, maxSize, before, x, from);
      RunOk(m, rate, maxSize, before, from);
      var s, t := Run(m, rate, maxSize, before), LastTime(before, from);
      StepBudget(s, rate, maxSize, e, x, t);
      Distribute(t - from, e.time - t, rate);
      assert (t - from) + (e.time - t) == e.time - from;
    }
  }

  /** One event: a request that is allowed takes a token, and time earns no more than the rate. */
  lemma StepBudget(s: Table, rate: real, maxSize: int, e: Event, x: Ip, t: real)
    requires rate >= 0.0 && TableOk(s, rate, t) && t <= e.time
    requires !(e.Request? && Evicts(s, maxSize, e.ip) && s[|s| - 1].key == x)
    ensures var taken := if e.Request? && e.ip == x && IsAllowed(s, rate, maxSize, x, e.time) then 1.0 else 0.0;
            taken + Level(Step(s, rate, maxSize, e), x, rate, e.time) <= Level(s, x, rate, t) + (e.time - t) * rate
  {
    hide TableOk, AfterRequest, Swept, Level, IsAllowed, Evicts;
    LevelLater(s, x, rate, t, e.time);
    OkLater(s, rate, t, e.time);
    match e {
      case Request(ip, u) => RequestLevels(s, rate, maxSize, ip, u, x);
      case Sweep(u) => SweepLevels(s, rate, u, x);
    }
  }

  /**
   Over any window of minutes in which an address is not dropped for lack of room, at most
   rate requests are allowed, and rate more for each minute.
   */
  lemma AllowedAtMost(m: Table, rate: real, maxSize: int, events: seq<Event>, x: Ip, from: real, minutes: real)
    requires rate >= 0.0 && TableOk(m, rate, from) && InOrder(events, from) && LastTime(events, from) <= from + minutes
    requires NeverEvicted(m, rate, maxSize, events, x)
    ensures Count(m, rate, maxSize, events, x) as real <= rate * (1.0 + minutes)
  {
    hide Level, Count, Run, NeverEvicted, TableOk, InOrder, LastTime;
    Budget(m, rate, maxSize, events, x, from);
    RunOk(m, rate, maxSize, events, from);
    var t := LastTime(events, from);
    LevelInRange(Run(m, rate, maxSize, events), x, rate, t);
    WithinBudget(Count(m, rate, maxSize, events, x) as real, Level(Run(m, rate, maxSize, events), x, rate, t), rate, t - from, minutes);
  }

  lemma WithinBudget(count: real, level: real, rate: real, elapsed: real, minutes: real)
    requires rate >= 0.0 && level >= 0.0 && elapsed <= minutes
    requires count + level <= rate + elapsed * rate
    ensures count <= rate * (1.0 + minutes)
  {
    Product(minutes - elapsed, rate);
    Distribute(elapsed, minutes - elapsed, rate);
    Distribute(1.0, minutes, rate);
  }

  // ----- sweeping -----

  function WithoutSweeps(events: seq<Event>): seq<Event> {
    if events == [] then []
    else
      var e := events[|events| - 1];
      WithoutSweeps(events[..|events| - 1]) + if e.Sweep? then [] else [e]
  }

  /** No request meets a full table. */
  ghost predicate RoomEnough(m: Table, rate: real, maxSize: int, events: seq<Event>) {
    events == [] ||
    var before, e := events[..|events| - 1], events[|events| - 1];
    RoomEnough(m, rate, maxSize, before) && (e.Request? ==> !Evicts(Run(m, rate, maxSize, before), maxSize, e.ip))
  }

  /** Two tables that answer alike from now on; the first may have forgotten full buckets. */
  ghost predicate Alike(s: Table, w: Table, rate: real, now: real) {
    && TableOk(s, rate, now) && TableOk(w, rate, now)
    && Keys(s) <= Keys(w)
    && forall x: Ip :: Level(s, x, rate, now) == Level(w, x, rate, now)
  }

  lemma AlikeLater(s: Table, w: Table, rate: real, t: real, t': real)
    requires rate >= 0.0 && t <= t' && Alike(s, w, rate, t)
    ensures Alike(s, w, rate, t')
  {
    forall x: Ip ensures Level(s, x, rate, t') == Level(w, x, rate, t') {
      LevelLater(s, x, rate, t, t');
      LevelLater(w, x, rate, t, t');
      assert Level(s, x, rate, t) == Level(w, x, rate, t);
    }
  }

  lemma AlikeSweep(s: Table, w: Table, rate: real, now: real)
    requires rate >= 0.0 && Alike(s, w, rate, now)
    ensures Alike(Swept(s, now), w, rate, now)
  {
    hide Level;
    forall x: Ip ensures Level(Swept(s, now), x, rate, now) == Level(w, x, rate, now) {
      SweepLevels(s, rate, now, x);
    }
    SweepLevels(s, rate, now, []);
    SweptKeys(s, now);
  }

  lemma KeysAfterRequest(m: Table, rate: real, maxSize: int, ip: Ip, now: real)
    requires Distinct(m) && !Evicts(m, maxSize, ip)
    ensures Keys(AfterRequest(m, rate, maxSize, ip, now)) == Keys(m) + {ip}
  {
    var a, m' := Admit(m, rate, maxSize, ip, now), AfterRequest(m, rate, maxSize, ip, now);
    assert m' == [m'[0]] + a[1..];
    KeysOfCons(m'[0], a[1..]);
    RemoveDistinct(m, ip);
    Absent(m, ip);
    if Find(m, ip).Some? {
      assert a[1..] == Remove(m, ip);
    } else {
      assert a[1..] == m;
    }
  }

  lemma AlikeRequest(s: Table, w: Table, rate: real, maxSize: int, ip: Ip, now: real)
    requires rate >= 0.0 && Alike(s, w, rate, now) && !Evicts(s, maxSize, ip) && !Evicts(w, maxSize, ip)
    ensures IsAllowed(s, rate, maxSize, ip, now) <==> IsAllowed(w, rate, maxSize, ip, now)
    ensures Alike(AfterRequest(s, rate, maxSize, ip, now), AfterRequest(w, rate, maxSize, ip, now), rate, now)
  {
    hide Level, AfterRequest, IsAllowed;
    RequestOk(s, rate, maxSize, ip, now);
    RequestOk(w, rate, maxSize, ip, now);
    RequestLevels(s, rate, maxSize, ip, now, ip);
    RequestLevels(w, rate, maxSize, ip, now, ip);
    assert Level(s, ip, rate, now) == Level(w, ip, rate, now);
    var s', w' := AfterRequest(s, rate, maxSize, ip, now), AfterRequest(w, rate, maxSize, ip, now);
    forall x: Ip ensures Level(s', x, rate, now) == Level(w', x, rate, now) {
      RequestLevels(s, rate, maxSize, ip, now, x);
      RequestLevels(w, rate, maxSize, ip, now, x);
      assert Level(s, x, rate, now) == Level(w, x, rate, now);
    }
    KeysAfterRequest(s, rate, maxSize, ip, now);
    KeysAfterRequest(w, rate, maxSize, ip, now);
  }

  /** With room in the larger table there is room in the smaller one. */
  lemma RoomInSwept(s: Table, w: Table, maxSize: int, ip: Ip)
    requires Distinct(s) && Distinct(w) && Keys(s) <= Keys(w) && !Evicts(w, maxSize, ip) && |w| <= Max(maxSize, 1)
    ensures !Evicts(s, maxSize, ip)
  {
    KeysCount(s);
    KeysCount(w);
    Absent(s, ip);
    Absent(w, ip);
    hide Keys, Distinct, Find;
    if ip in Keys(w) && ip !in Keys(s) {
      Smaller(Keys(s), Keys(w) - {ip});
    } else {
      Smaller(Keys(s), Keys(w));
    }
  }

  lemma {:induction false} Smaller<T>(a: set<T>, b: set<T>)
    requires a <= b
    ensures |a| <= |b|
    decreases |a|
  {
    if x :| x in a {
      Smaller(a - {x}, b - {x});
    }
  }

  lemma {:induction false} RunsAlike(m: Table, rate: real, maxSize: int, events: seq<Event>, from: real)
    requires rate >= 0.0 && TableOk(m, rate, from) && |m| <= Max(maxSize, 1) && InOrder(events, from)
    requires RoomEnough(m, rate, maxSize, WithoutSweeps(events))
    ensures Alike(Run(m, rate, maxSize, events), Run(m, rate, maxSize, WithoutSweeps(events)), rate, LastTime(events, from))
    ensures |Run(m, rate, maxSize, WithoutSweeps(events))| <= Max(maxSize, 1)
    ensures Decisions(m, rate, maxSize, events) == Decisions(m, rate, maxSize, WithoutSweeps(events))
  {
    hide Alike, AfterRequest, Swept, IsAllowed, Evicts;
    if events == [] {
      assert Alike(m, m, rate, from) by { AlikeItself(m, rate, from); }
    } else {
      var before, e := events[..|events| - 1], events[|events| - 1];
      var requests := WithoutSweeps(before);
      if e.Request? {
        assert WithoutSweeps(events)[..|requests|] == requests;
      } else {
        assert WithoutSweeps(events) == requests;
      }
      RunsAlike(m, rate, maxSize, before, from);
      var s, w := Run(m, rate, maxSize, before), Run(m, rate, maxSize, requests);
      AlikeLater(s, w, rate, LastTime(before, from), e.time);
      match e {
        case Request(ip, t) =>
          AlikeRoom(s, w, rate, maxSize, ip, t);
          AlikeRequest(s, w, rate, maxSize, ip, t);
        case Sweep(t) =>
          AlikeSweep(s, w, rate, t);
      }
    }
  }

  lemma AlikeItself(m: Table, rate: real, now: real)
    requires TableOk(m, rate, now)
    ensures Alike(m, m, rate, now)
  {
  }

  lemma AlikeRoom(s: Table, w: Table, rate: real, maxSize: int, ip: Ip, now: real)
    requires Alike(s, w, rate, now) && !Evicts(w, maxSize, ip) && |w| <= Max(maxSize, 1)
    ensures !Evicts(s, maxSize, ip)
    ensures |AfterRequest(w, rate, maxSize, ip, now)| <= Max(maxSize, 1)
  {
    RoomInSwept(s, w, maxSize, ip);
    SizeBound(w, rate, maxSize, ip, now);
  }

  /**
   Sweeping is unobservable: as long as no request meets a full table, a limiter that sweeps
   idle addresses at any times decides every request as one that never sweeps.
   */
  lemma SweepingIsUnobservable(m: Table, rate: real, maxSize: int, events: seq<Event>, from: real)
    requires rate >= 0.0 && TableOk(m, rate, from) && |m| <= Max(maxSize, 1) && InOrder(events, from)
    requires RoomEnough(m, rate, maxSize, WithoutSweeps(events))
    ensures Decisions(m, rate, maxSize, events) == Decisions(m, rate, maxSize, WithoutSweeps(events))
  {
    RunsAlike(m, rate, maxSize, events, from);
  }
}
