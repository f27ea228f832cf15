/** The portal's token bucket per key, with idle buckets pruned
    (backend/ratelimit.go). Times are seconds. */
module RateLimiter {
  datatype Bucket = Bucket(tokens: real, last: real)
  datatype Call = Call(key: string, at: real)

  type Buckets = map<string, Bucket>

  function Min(a: real, b: real): real { if a < b then a else b }

  /** What is in the bucket at `now`. */
  function Refilled(b: Bucket, perSec: real, now: real): real { b.tokens + (now - b.last) * perSec }

  // --- a limiter that never prunes ---------------------------------------------------------------

  /** A key never seen has a full bucket. */
  function Level(all: Buckets, burst: real, perSec: real, key: string, now: real): real {
    if key in all then Min(burst, Refilled(all[key], perSec, now)) else burst
  }

  predicate Allows(all: Buckets, burst: real, perSec: real, c: Call) { Level(all, burst, perSec, c.key, c.at) >= 1.0 }

  function Served(all: Buckets, burst: real, perSec: real, c: Call): Buckets {
    var level := Level(all, burst, perSec, c.key, c.at);
    all[c.key := Bucket(if level >= 1.0 then level - 1.0 else level, c.at)]
  }

  function After(calls: seq<Call>, burst: real, perSec: real): Buckets {
    if calls == [] then map[] else Served(After(calls[..|calls| - 1], burst, perSec), burst, perSec, calls[|calls| - 1])
  }

  // --- the limiter -------------------------------------------------------------------------------

  /** A bucket is either kept as it is or was full when it was dropped. */
  ghost predicate Matches(buckets: Buckets, all: Buckets, burst: real, perSec: real, clock: real) {
    && (forall k :: k in buckets ==> k in all && buckets[k] == all[k])
    && (forall k :: k in all && k !in buckets ==> Refilled(all[k], perSec, clock) >= burst)
    && (forall k :: k in all ==> all[k].last <= clock)
  }

  lemma Later(b: Bucket, perSec: real, t: real, now: real)
    requires perSec >= 0.0 && t <= now
    ensures Refilled(b, perSec, t) <= Refilled(b, perSec, now)
  {
    assert (now - b.last) * perSec - (t - b.last) * perSec == (now - t) * perSec;
  }

  /** A dropped bucket would have been found full, so a new one answers alike. */
  lemma DroppedIsFull(buckets: Buckets, all: Buckets, burst: real, perSec: real, clock: real, now: real, k: string)
    requires Matches(buckets, all, burst, perSec, clock) && perSec >= 0.0 && clock <= now && k !in buckets
    ensures Level(all, burst, perSec, k, now) == burst
  {
    if k in all {
      Later(all[k], perSec, clock, now);
    }
  }

  lemma MatchesLater(buckets: Buckets, all: Buckets, burst: real, perSec: real, clock: real, now: real)
    requires Matches(buckets, all, burst, perSec, clock) && perSec >= 0.0 && clock <= now
    ensures Matches(buckets, all, burst, perSec, now)
  {
    forall k | k in all && k !in buckets
      ensures Refilled(all[k], perSec, now) >= burst
    {
      Later(all[k], perSec, clock, now);
    }
  }

  /** Pruning what is full keeps the match. */
  lemma MatchesPruned(before: Buckets, after: Buckets, all: Buckets, burst: real, perSec: real, now: real)
    requires Matches(before, all, burst, perSec, now)
    requires forall k :: k in after <==> k in before && Refilled(before[k], perSec, now) < burst
    requires forall k :: k in after ==> after[k] == before[k]
    ensures Matches(after, all, burst, perSec, now)
  {
  }

  lemma MatchesServed(buckets: Buckets, all: Buckets, burst: real, perSec: real, c: Call)
    requires Matches(buckets, all, burst, perSec, c.at)
    ensures var all' := Served(all, burst, perSec, c); Matches(buckets[c.key := all'[c.key]], all', burst, perSec, c.at)
  {
  }

  class Limiter {
    const burst: real
    const perSec: real
    var buckets: Buckets
    var pruned: real
    /** What a limiter that never prunes would hold, and the time of the last call. */
    ghost var all: Buckets
    ghost var clock: real

    ghost predicate Valid()
      reads this
    {
      perSec >= 0.0 && Matches(buckets, all, burst, perSec, clock)
    }

    /** Time zero precedes every call. */
    constructor (burst: nat, per: real)
      requires per > 0.0
      ensures Valid() && all == map[] && clock == 0.0
      ensures this.burst == burst as real && perSec * per == burst as real
    {
      this.burst, perSec := burst as real, burst as real / per;
      buckets, pruned, all, clock := map[], 0.0, map[], 0.0;
      assert burst as real / per >= 0.0;
    }

    /** Drops exactly the buckets that are full. */
    method Prune(now: real)
      modifies `buckets
      ensures forall k :: k in buckets <==> k in old(buckets) && Refilled(old(buckets)[k], perSec, now) < burst
      ensures forall k :: k in buckets ==> buckets[k] == old(buckets)[k]
    {
      var todo := buckets.Keys;
      while todo != {}
        invariant todo <= old(buckets).Keys
        invariant forall k :: k in buckets <==> k in old(buckets) && (k in todo || Refilled(old(buckets)[k], perSec, now) < burst)
        invariant forall k :: k in buckets ==> buckets[k] == old(buckets)[k]
        decreases |todo|
      {
        var k :| k in todo;
        if Refilled(buckets[k], perSec, now) >= burst {
          buckets := buckets - {k};
        }
        todo := todo - {k};
      }
    }

    /** Answers as the limiter that never prunes. */
    method Allow(key: string, now: real) returns (ok: bool)
      requires Valid() && clock <= now
      modifies this
      ensures Valid() && clock == now
      ensures ok == Allows(old(all), burst, perSec, Call(key, now))
      ensures all == Served(old(all), burst, perSec, Call(key, now))
    {
      MatchesLater(buckets, all, burst, perSec, clock, now);
      var b;
      if key in buckets {
        b := buckets[key];
      } else {
        DroppedIsFull(buckets, all, burst, perSec, now, now, key);
        if |buckets| > 10000 && now - pruned > 60.0 {
          Prune(now);
          MatchesPruned(old(buckets), buckets, all, burst, perSec, now);
          pruned := now;
        }
        b := Bucket(burst, now);
        AtOnce(b, perSec, now);
      }
      var tokens := Min(burst, Refilled(b, perSec, now));
      ok := tokens >= 1.0;
      b := Bucket(if ok then tokens - 1.0 else tokens, now);
      MatchesServed(buckets, all, burst, perSec, Call(key, now));
      all := Served(all, burst, perSec, Call(key, now));
      buckets := buckets[key := b];
      clock := now;
    }
  }

  // --- how much a window lets through ------------------------------------------------------------

  predicate InOrder(calls: seq<Call>) {
    forall i, j :: 0 <= i <= j < |calls| ==> calls[i].at <= calls[j].at
  }

  /** Calls of the key from `from` on that were allowed. */
  function Allowed(calls: seq<Call>, from: nat, key: string, burst: real, perSec: real): nat {
    if |calls| <= from then 0
    else
      var front, last := calls[..|calls| - 1], calls[|calls| - 1];
      Allowed(front, from, key, burst, perSec)
      + if last.key == key && Allows(After(front, burst, perSec), burst, perSec, last) then 1 else 0
  }

  /** Buckets hold no debt and are not ahead of the clock. */
  predicate Solvent(all: Buckets, clock: real) {
    forall k :: k in all ==> all[k].tokens >= 0.0 && all[k].last <= clock
  }

  lemma {:induction false} RunSolvent(calls: seq<Call>, burst: real, perSec: real)
    requires InOrder(calls) && burst >= 0.0 && perSec >= 0.0
    ensures calls != [] ==> Solvent(After(calls, burst, perSec), calls[|calls| - 1].at)
    ensures calls == [] ==> After(calls, burst, perSec) == map[]
  {
    if calls != [] {
      var front, last := calls[..|calls| - 1], calls[|calls| - 1];
      RunSolvent(front, burst, perSec);
      var all := After(front, burst, perSec);
      assert Level(all, burst, perSec, last.key, last.at) >= 0.0 by {
        if last.key in all {
          Later(all[last.key], perSec, all[last.key].last, last.at);
        }
      }
    }
  }

  /** Between calls a level rises by no more than the refill. */
  lemma LevelRises(all: Buckets, burst: real, perSec: real, key: string, t: real, now: real)
    requires perSec >= 0.0 && t <= now
    ensures Level(all, burst, perSec, key, now) <= Level(all, burst, perSec, key, t) + (now - t) * perSec
  {
    if key in all {
      assert Refilled(all[key], perSec, now) == Refilled(all[key], perSec, t) + (now - t) * perSec by {
        assert (now - all[key].last) * perSec == (t - all[key].last) * perSec + (now - t) * perSec;
      }
    }
    assert (now - t) * perSec >= 0.0;
  }

  /** `n` calls let through since `a` and `level` left at `now` fit the burst and the refill. */
  predicate Fits(n: nat, level: real, burst: real, a: real, now: real, perSec: real) {
    n as real + level <= burst + (now - a) * perSec
  }

  lemma Carry(n: nat, level: real, later: real, burst: real, a: real, t: real, now: real, perSec: real)
    requires Fits(n, level, burst, a, t, perSec) && later <= level + (now - t) * perSec
    ensures Fits(n, later, burst, a, now, perSec)
  {
    assert (t - a) * perSec + (now - t) * perSec == (now - a) * perSec;
  }

  lemma Spend(n: nat, level: real, burst: real, a: real, now: real, perSec: real)
    requires Fits(n, level, burst, a, now, perSec)
    ensures Fits(n + 1, level - 1.0, burst, a, now, perSec)
  {
  }

  lemma Fresh(level: real, burst: real, a: real, perSec: real)
    requires level <= burst
    ensures Fits(0, level, burst, a, a, perSec)
  {
    assert a - a == 0.0;
  }

  /** What was let through and what is left never exceed the burst and the refill. */
  lemma {:induction false} Budget(calls: seq<Call>, from: nat, key: string, burst: real, perSec: real)
    requires InOrder(calls) && from < |calls| && burst >= 0.0 && perSec >= 0.0
    ensures var now := calls[|calls| - 1].at;
            Fits(Allowed(calls, from, key, burst, perSec), Level(After(calls, burst, perSec), burst, perSec, key, now),
                 burst, calls[from].at, now, perSec)
  {
    var front, last := calls[..|calls| - 1], calls[|calls| - 1];
    var all, a, n := After(front, burst, perSec), calls[from].at, Allowed(front, from, key, burst, perSec);
    var level := Level(all, burst, perSec, key, last.at);
    if |front| > from {
      var t := front[|front| - 1].at;
      Budget(front, from, key, burst, perSec);
      LevelRises(all, burst, perSec, key, t, last.at);
      Carry(n, Level(all, burst, perSec, key, t), level, burst, a, t, last.at, perSec);
    } else {
      Fresh(level, burst, a, perSec);
    }
    Spend(n, level, burst, a, last.at, perSec);
    Spends(all, burst, perSec, last, key);
  }

  lemma AtOnce(b: Bucket, perSec: real, now: real)
    requires b.last == now
    ensures Refilled(b, perSec, now) == b.tokens
  {
    assert now - b.last == 0.0;
  }

  /** An allowed call costs the key one token, and no call costs another key any. */
  lemma Spends(all: Buckets, burst: real, perSec: real, c: Call, key: string)
    requires burst >= 0.0
    ensures Level(Served(all, burst, perSec, c), burst, perSec, key, c.at)
            == Level(all, burst, perSec, key, c.at) - if c.key == key && Allows(all, burst, perSec, c) then 1.0 else 0.0
  {
    var all' := Served(all, burst, perSec, c);
    if c.key == key {
      assert all'[key].last == c.at;
      AtOnce(all'[key], perSec, c.at);
    }
  }

  /** A key's bucket dates from a call of that key. */
  lemma {:induction false} LastCall(calls: seq<Call>, key: string, burst: real, perSec: real, t: real)
    requires forall i :: 0 <= i < |calls| && calls[i].key == key ==> calls[i].at <= t
    ensures key in After(calls, burst, perSec) ==> After(calls, burst, perSec)[key].last <= t
  {
    if calls != [] {
      LastCall(calls[..|calls| - 1], key, burst, perSec, t);
    }
  }

  lemma LongerBringsMore(x: real, y: real, perSec: real)
    requires x <= y && perSec >= 0.0
    ensures x * perSec <= y * perSec
  {
    var d := y - x;
    assert d * perSec >= 0.0;
    assert y * perSec == (x + d) * perSec == x * perSec + d * perSec;
  }

  lemma RefilledSince(b: Bucket, perSec: real, t: real, now: real)
    requires b.tokens >= 0.0 && b.last <= t && perSec >= 0.0
    ensures Refilled(b, perSec, now) >= (now - t) * perSec
  {
    var x, y := (now - t) * perSec, (now - b.last) * perSec;
    assert x <= y by {
      LongerBringsMore(now - t, now - b.last, perSec);
    }
    assert Refilled(b, perSec, now) == b.tokens + y;
  }

  /** On every run a key that has made no call since `t` has at `now` at least what those
      seconds bring, up to the burst; so it is let through once they bring one. */
  lemma QuietKeyAllowed(calls: seq<Call>, key: string, burst: real, perSec: real, t: real, now: real)
    requires InOrder(calls) && burst >= 0.0 && perSec >= 0.0
    requires forall i :: 0 <= i < |calls| ==> calls[i].at <= now && (calls[i].key == key ==> calls[i].at <= t)
    ensures var level := Level(After(calls, burst, perSec), burst, perSec, key, now);
            level == burst || level >= (now - t) * perSec
    ensures burst >= 1.0 && (now - t) * perSec >= 1.0 ==> Allows(After(calls, burst, perSec), burst, perSec, Call(key, now))
  {
    var all := After(calls, burst, perSec);
    LastCall(calls, key, burst, perSec, t);
    RunSolvent(calls, burst, perSec);
    if key in all {
      RefilledSince(all[key], perSec, t, now);
    }
  }

  /** In every window of every run, at most the burst plus the refill of the window. */
  lemma WindowBound(calls: seq<Call>, from: nat, key: string, burst: real, perSec: real)
    requires InOrder(calls) && from < |calls| && burst >= 0.0 && perSec >= 0.0
    ensures Allowed(calls, from, key, burst, perSec) as real <= burst + (calls[|calls| - 1].at - calls[from].at) * perSec
  {
    Budget(calls, from, key, burst, perSec);
    RunSolvent(calls, burst, perSec);
    var all, now := After(calls, burst, perSec), calls[|calls| - 1].at;
    if key in all {
      Later(all[key], perSec, all[key].last, now);
    }
  }
}
