/**
 The per-address rate limiter: token buckets kept in a bounded recency list.  Times are in
 minutes and tokens are real numbers, so rounding is not modelled.
 */
module RateLimiting {
  import opened Records
  import opened Bytes
  import opened Lru

  type Ip = Bytes

  const STALE_AFTER: real := 10.0

  datatype Bucket = Bucket(tokens: real, lastRefill: real, lastUsed: real)

  type Table = seq<Item<Ip, Bucket>>

  // ----- one bucket -----

  function Capped(x: real, rate: real): real {
    if x > rate then rate else x
  }

  /** The tokens earned since the last refill. */
  function Earned(b: Bucket, rate: real, now: real): real {
    (now - b.lastRefill) * rate
  }

  /** The bucket brought up to date. */
  function Refill(b: Bucket, rate: real, now: real): Bucket {
    var added := Earned(b, rate, now);
    Bucket(if added > 0.0 then Capped(b.tokens + added, rate) else b.tokens, now, now)
  }

  /** The bucket after a request: a token is taken if there is one. */
  function Take(b: Bucket): Bucket {
    if b.tokens >= 1.0 then b.(tokens := b.tokens - 1.0) else b
  }

  // ----- the table -----

  /** The table with the address at its front; a new address drops the last one of a full table. */
  function Admit(m: Table, rate: real, maxSize: int, ip: Ip, now: real): (r: Table)
    ensures r != [] && r[0].key == ip
  {
    match Find(m, ip)
    case Some(b) => [Item(ip, b)] + Remove(m, ip)
    case None => [Item(ip, Bucket(rate, now, now))] + if |m| >= maxSize && m != [] then m[..|m| - 1] else m
  }

  function AfterRequest(m: Table, rate: real, maxSize: int, ip: Ip, now: real): Table {
    var a := Admit(m, rate, maxSize, ip, now);
    [Item(ip, Take(Refill(a[0].value, rate, now)))] + a[1..]
  }

  predicate IsAllowed(m: Table, rate: real, maxSize: int, ip: Ip, now: real) {
    Refill(Admit(m, rate, maxSize, ip, now)[0].value, rate, now).tokens >= 1.0
  }

  predicate Stale(b: Bucket, now: real) {
    now - b.lastUsed > STALE_AFTER
  }

  function Swept(m: Table, now: real): Table {
    if m == [] then []
    else
      var rest, last := Swept(m[..|m| - 1], now), m[|m| - 1];
      if Stale(last.value, now) then rest else rest + [last]
  }

  // ----- the limiter -----

  class RateLimiter {
    const rate: int
    const maxSize: int
    const buckets: RecencyList<Ip, Bucket>

    ghost predicate Valid()
      reads this, buckets, buckets.Repr
    {
      this !in buckets.Repr && buckets.Valid()
    }

    constructor (rate: int, maxSize: int)
      ensures Valid() && fresh(buckets) && fresh(buckets.Repr)
      ensures this.rate == rate && this.maxSize == maxSize && buckets.Model == []
    {
      this.rate, this.maxSize := rate, maxSize;
      buckets := new RecencyList();
    }

    /** Puts the address at the front of the table, with a full bucket if it is new. */
    method Touch(ip: Ip, now: real)
      requires Valid()
      modifies buckets
      ensures Valid() && fresh(buckets.Repr - old(buckets.Repr))
      ensures buckets.Model == Admit(old(buckets.Model), rate as real, maxSize, ip, now)
    {
      hide Keys, Distinct, Find, Remove, RecencyList.Valid;
      buckets.SameLength();
      if ip !in buckets.items {
        buckets.Missing(ip);
        if |buckets.items| >= maxSize {
          if |buckets.list| > 0 {
            buckets.RemoveBack();
          }
        }
        buckets.StaysAway(ip);
        buckets.PushFront(ip, Bucket(rate as real, now, now));
      } else {
        ghost var i := buckets.Position(ip);
        buckets.MoveToFront(buckets.items[ip]);
      }
    }

    method Allow(ip: Ip, now: real) returns (allowed: bool)
      requires Valid()
      modifies buckets, buckets.Repr
      ensures Valid() && fresh(buckets.Repr - old(buckets.Repr))
      ensures allowed <==> IsAllowed(old(buckets.Model), rate as real, maxSize, ip, now)
      ensures buckets.Model == AfterRequest(old(buckets.Model), rate as real, maxSize, ip, now)
    {
      hide Admit, Keys, Distinct, Earned;
      ghost var a := Admit(buckets.Model, rate as real, maxSize, ip, now);
      Touch(ip, now);
      var bkt := buckets.list[0].value;
      assert a[0] == Item(ip, bkt);
      var tokens := bkt.tokens;
      var tokensToAdd := Earned(bkt, rate as real, now);
      if tokensToAdd > 0.0 {
        tokens := tokens + tokensToAdd;
        if tokens > rate as real {
          tokens := rate as real;
        }
      }
      allowed := tokens >= 1.0;
      if allowed {
        tokens := tokens - 1.0;
      }
      assert Bucket(tokens, now, now) == Take(Refill(bkt, rate as real, now));
      buckets.SetFront(Bucket(tokens, now, now));
    }

    /** Drops every bucket that has not been used for more than ten minutes. */
    method Sweep(now: real)
      requires Valid()
      modifies buckets
      ensures Valid() && buckets.Repr == old(buckets.Repr)
      ensures buckets.Model == Swept(old(buckets.Model), now)
    {
      hide Keys, Distinct, Remove, Find, Swept, Stale, RecencyList.Valid;
      ghost var m := buckets.Model;
      ghost var k := 0;
      ghost var kept: Table := [];
      var i := 0;
      SweepStart(m, now);
      buckets.SameLength();
      while i < |buckets.list|
        invariant Valid() && buckets.Repr == old(buckets.Repr)
        invariant k <= |m| && kept == Swept(m[..k], now) && i == |kept|
        invariant buckets.Model == kept + m[k..]
        invariant |buckets.list| == |buckets.Model|
        decreases |m| - k
      {
        SweepStep(m, k, now);
        Place(kept, m, k);
        var e := buckets.At(i);
        if Stale(e.value, now) {
          buckets.RemoveAtPlace(i);
          buckets.SameLength();
        } else {
          kept := kept + [m[k]];
          i := i + 1;
        }
        k := k + 1;
      }
      assert m[..|m|] == m && kept + [] == kept;
    }
  }

  // ----- shape -----

  lemma SweepStart(m: Table, now: real)
    ensures Swept(m[..0], now) == [] && m == [] + m[0..]
  {
  }

  lemma SweepStep(m: Table, k: nat, now: real)
    requires k < |m|
    ensures Swept(m[..k + 1], now) == if Stale(m[k].value, now) then Swept(m[..k], now) else Swept(m[..k], now) + [m[k]]
  {
    assert m[..k + 1][..k] == m[..k];
    hide Stale;
  }

  /** The next item follows the ones kept; taking it out, or keeping it, moves on by one. */
  lemma Place<T>(kept: seq<T>, m: seq<T>, k: nat)
    requires k < |m|
    ensures var all := kept + m[k..];
            && all[|kept|] == m[k]
            && all[..|kept|] + all[|kept| + 1..] == kept + m[k + 1..]
            && all == (kept + [m[k]]) + m[k + 1..]
  {
  }

  /** The number of tracked addresses never exceeds the maximum, or 1 if the maximum is not positive. */
  lemma SizeBound(m: Table, rate: real, maxSize: int, ip: Ip, now: real)
    requires Distinct(m) && |m| <= Max(maxSize, 1)
    ensures |AfterRequest(m, rate, maxSize, ip, now)| <= Max(maxSize, 1)
    ensures |Swept(m, now)| <= |m|
  {
    Absent(m, ip);
    if ip in Keys(m) {
      var i := IndexOf(m, ip);
      RemoveAt(m, ip, i);
    }
    SweptShape(m, now);
  }

  lemma {:induction false} SweptShape(m: Table, now: real)
    requires Distinct(m)
    ensures |Swept(m, now)| <= |m| && Distinct(Swept(m, now))
    ensures forall i :: 0 <= i < |Swept(m, now)| ==> Swept(m, now)[i] in m && !Stale(Swept(m, now)[i].value, now)
    ensures forall i :: 0 <= i < |m| && !Stale(m[i].value, now) ==> m[i] in Swept(m, now)
  {
    if m != [] {
      var n := |m| - 1;
      assert forall i :: 0 <= i < n ==> m[..n][i] == m[i];
      SweptShape(m[..n], now);
      var r := Swept(m[..n], now);
      forall i | 0 <= i < |r| ensures r[i].key != m[n].key {
        var j :| 0 <= j < n && m[..n][j] == r[i];
        assert m[j].key != m[n].key;
      }
    }
  }
}
