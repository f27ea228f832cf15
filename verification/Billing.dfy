/** Rate-weighted draws on volume entitlements, earliest-expiring first, and the
    ingestion of one usage report (backend/store/usage.go). */
module Billing {
  import opened AuthzLog
  import M = Metering

  datatype Kind = Volume | TimePass

  /** A row of the entitlements table. */
  datatype Ent = Ent(acct: Account, kind: Kind, volume: nat, used: nat, starts: Time, expires: Time)

  // --- weighting -----------------------------------------------------------------------

  const MAX_SAMPLE_BYTES: nat := 0x100_0000_0000
  const PPM: nat := 1_000_000
  const INT64: nat := 0x8000_0000_0000_0000
  /** The least rate at which a clamped sample can leave the int64 range. */
  const RATE_LIMIT: nat := 8_388_608_000_000

  function Clamp(bytes: nat): nat { if bytes > MAX_SAMPLE_BYTES then MAX_SAMPLE_BYTES else bytes }

  /** The divide-first form. */
  function Weighted(b: nat, rate: nat): nat { b / PPM * rate + b % PPM * rate / PPM }

  /** It is the exact floor of the product. */
  lemma WeightedExact(b: nat, rate: nat)
    ensures Weighted(b, rate) == b * rate / PPM
  {
    var q, r := b / PPM, b % PPM;
    assert b * rate == PPM * (q * rate) + r * rate by {
      assert b == PPM * q + r;
    }
    FloorShift(q * rate, r * rate);
  }

  lemma FloorShift(k: nat, x: nat)
    ensures (PPM * k + x) / PPM == k + x / PPM
  {
  }

  /** Every intermediate value of the divide-first form. */
  predicate InRange(b: nat, rate: nat) {
    b / PPM * rate < INT64 && b % PPM * rate < INT64 && Weighted(b, rate) < INT64
  }

  /** No clamped sample overflows exactly when the rate is below the limit. */
  lemma NoOverflowIff(rate: nat)
    ensures (forall bytes: nat :: InRange(Clamp(bytes), rate)) <==> rate < RATE_LIMIT
  {
    if rate < RATE_LIMIT {
      forall bytes: nat
        ensures InRange(Clamp(bytes), rate)
      {
        BelowLimit(Clamp(bytes), rate);
      }
    } else {
      AtLimit(rate);
      assert Clamp(MAX_SAMPLE_BYTES) == MAX_SAMPLE_BYTES;
    }
  }

  lemma BelowLimit(b: nat, rate: nat)
    requires b <= MAX_SAMPLE_BYTES && rate < RATE_LIMIT
    ensures InRange(b, rate)
  {
    WeightedExact(b, rate);
    var q, r := b / PPM, b % PPM;
    MulMono(b, MAX_SAMPLE_BYTES, rate, RATE_LIMIT - 1);
    assert b * rate / PPM <= MAX_SAMPLE_BYTES * (RATE_LIMIT - 1) / PPM;
    MulMono(r, PPM - 1, rate, RATE_LIMIT - 1);
    MulMono(q, MAX_SAMPLE_BYTES / PPM, rate, RATE_LIMIT - 1);
  }

  lemma AtLimit(rate: nat)
    requires rate >= RATE_LIMIT
    ensures !InRange(MAX_SAMPLE_BYTES, rate)
  {
    WeightedExact(MAX_SAMPLE_BYTES, rate);
    assert MAX_SAMPLE_BYTES * rate / PPM >= MAX_SAMPLE_BYTES * RATE_LIMIT / PPM;
  }

  lemma MulMono(a: nat, b: nat, c: nat, d: nat)
    requires a <= b && c <= d
    ensures a * c <= b * d
  {
    assert a * c <= b * c <= b * d;
  }

  // --- capacity -----------------------------------------------------------------------

  /** A volume entitlement of the account that is running. */
  predicate Running(e: Ent, acct: Account, now: Time) {
    e.acct == acct && e.kind.Volume? && e.starts <= now <= e.expires
  }

  predicate Open(e: Ent, acct: Account, now: Time) { Running(e, acct, now) && e.used < e.volume }

  function Room(e: Ent, acct: Account, now: Time): nat {
    if Open(e, acct, now) then e.volume - e.used else 0
  }

  function Capacity(ents: seq<Ent>, acct: Account, now: Time): nat {
    if ents == [] then 0 else Room(ents[0], acct, now) + Capacity(ents[1..], acct, now)
  }

  /** What the account has used in all. */
  function Used(ents: seq<Ent>, acct: Account): nat {
    if ents == [] then 0 else (if ents[0].acct == acct then ents[0].used else 0) + Used(ents[1..], acct)
  }

  /** An entitlement that authorizes its account: running, and a pass or not used up. */
  predicate Current(e: Ent, now: Time) {
    e.starts <= now <= e.expires && (e.kind.TimePass? || e.used < e.volume)
  }

  predicate Entitled(ents: seq<Ent>, acct: Account, now: Time) {
    exists i :: 0 <= i < |ents| && ents[i].acct == acct && Current(ents[i], now)
  }

  predicate HasPass(ents: seq<Ent>, acct: Account, now: Time) {
    exists i :: 0 <= i < |ents| && ents[i].acct == acct && ents[i].kind.TimePass? && ents[i].starts <= now <= ents[i].expires
  }

  function Min(a: nat, b: nat): nat { if a < b then a else b }

  // --- what a draw is ------------------------------------------------------------------

  /** Only `used` may differ. */
  predicate SameRows(b: seq<Ent>, a: seq<Ent>) {
    |a| == |b| && forall i :: 0 <= i < |b| ==> a[i] == b[i].(used := a[i].used)
  }

  /** A row grows only if it is for a volume, while it runs, and never past its volume. */
  predicate Grew(b: Ent, a: Ent, now: Time) {
    b.used <= a.used && (b.used < a.used ==> b.kind.Volume? && b.starts <= now <= b.expires && a.used <= b.volume)
  }

  predicate Grown(b: seq<Ent>, a: seq<Ent>, acct: Account, now: Time) {
    SameRows(b, a) && forall i :: 0 <= i < |b| && b[i].acct == acct ==> Grew(b[i], a[i], now)
  }

  /** A row is touched only when every open row that expires earlier is full. */
  predicate EarliestFirst(b: seq<Ent>, a: seq<Ent>, acct: Account, now: Time)
    requires |a| == |b|
  {
    forall i, j | 0 <= i < |b| && 0 <= j < |b| && b[j].acct == acct && b[j].used < a[j].used
                  && Open(b[i], acct, now) && b[i].expires < b[j].expires ::
      a[i].used >= a[i].volume
  }

  /** `w` bytes were drawn for the account, or all it had. */
  predicate Drawn(b: seq<Ent>, a: seq<Ent>, acct: Account, now: Time, w: nat) {
    && Grown(b, a, acct, now)
    && Used(a, acct) == Used(b, acct) + Min(w, Capacity(b, acct, now))
    && EarliestFirst(b, a, acct, now)
  }

  /** What is used up is what capacity loses. */
  lemma {:induction false} CapacityFalls(b: seq<Ent>, a: seq<Ent>, acct: Account, now: Time)
    requires Grown(b, a, acct, now)
    ensures Used(a, acct) + Capacity(a, acct, now) == Used(b, acct) + Capacity(b, acct, now)
  {
    if b != [] {
      assert Grown(b[1..], a[1..], acct, now) by {
        assert forall i :: 0 <= i < |b| - 1 ==> b[1..][i] == b[i + 1] && a[1..][i] == a[i + 1];
      }
      CapacityFalls(b[1..], a[1..], acct, now);
      assert a[0] == b[0].(used := a[0].used);
    }
  }

  lemma GrownTransitive(b: seq<Ent>, m: seq<Ent>, a: seq<Ent>, acct: Account, now: Time)
    requires Grown(b, m, acct, now) && Grown(m, a, acct, now)
    ensures Grown(b, a, acct, now)
  {
    forall i | 0 <= i < |b|
      ensures a[i] == b[i].(used := a[i].used) && (b[i].acct == acct ==> Grew(b[i], a[i], now))
    {
      assert m[i] == b[i].(used := m[i].used);
      assert a[i] == m[i].(used := a[i].used);
    }
  }

  /** Drawing twice is drawing the sum. */
  lemma DrawnAdds(b: seq<Ent>, m: seq<Ent>, a: seq<Ent>, acct: Account, now: Time, v: nat, w: nat)
    requires Drawn(b, m, acct, now, v) && Drawn(m, a, acct, now, w)
    ensures Drawn(b, a, acct, now, v + w)
  {
    GrownTransitive(b, m, a, acct, now);
    CapacityFalls(b, m, acct, now);
    forall i, j | 0 <= i < |b| && 0 <= j < |b| && b[j].acct == acct && b[j].used < a[j].used
                  && Open(b[i], acct, now) && b[i].expires < b[j].expires
      ensures a[i].used >= a[i].volume
    {
      assert m[i] == b[i].(used := m[i].used) && a[i] == m[i].(used := a[i].used);
      assert m[j] == b[j].(used := m[j].used);
      assert Grew(m[i], a[i], now) && Grew(b[i], m[i], now);
    }
  }

  predicate DistinctExpiries(ents: seq<Ent>, acct: Account, now: Time) {
    forall i, j | 0 <= i < j < |ents| && Running(ents[i], acct, now) && Running(ents[j], acct, now) ::
      ents[i].expires != ents[j].expires
  }

  /** With distinct expiries the outcome of a draw is determined. */
  lemma DrawnUnique(b: seq<Ent>, a: seq<Ent>, c: seq<Ent>, acct: Account, now: Time, w: nat)
    requires Drawn(b, a, acct, now, w) && Drawn(b, c, acct, now, w) && DistinctExpiries(b, acct, now)
    ensures forall i :: 0 <= i < |b| && b[i].acct == acct ==> a[i] == c[i]
  {
    forall i | 0 <= i < |b| && b[i].acct == acct
      ensures a[i] == c[i]
    {
      NotLess(b, a, c, acct, now, w, i);
      NotLess(b, c, a, acct, now, w, i);
      assert a[i] == b[i].(used := a[i].used) && c[i] == b[i].(used := c[i].used);
    }
  }

  lemma NotLess(b: seq<Ent>, a: seq<Ent>, c: seq<Ent>, acct: Account, now: Time, w: nat, i: nat)
    requires Drawn(b, a, acct, now, w) && Drawn(b, c, acct, now, w) && DistinctExpiries(b, acct, now)
    requires i < |b| && b[i].acct == acct
    ensures a[i].used >= c[i].used
  {
    if a[i].used < c[i].used {
      var j := Balance(b, a, c, acct, i);
    }
  }

  /** Equal totals: where one account row is lower, another is higher. */
  lemma {:induction false} Balance(b: seq<Ent>, a: seq<Ent>, c: seq<Ent>, acct: Account, i: nat) returns (j: nat)
    requires SameRows(b, a) && SameRows(b, c) && i < |b| && b[i].acct == acct && a[i].used < c[i].used
    requires Used(a, acct) >= Used(c, acct)
    ensures j < |b| && b[j].acct == acct && a[j].used > c[j].used
  {
    if j' :| 0 <= j' < |b| && b[j'].acct == acct && a[j'].used > c[j'].used {
      j := j';
    } else {
      UsedLess(b, a, c, acct, i);
      assert false;
    }
  }

  lemma {:induction false} UsedLess(b: seq<Ent>, a: seq<Ent>, c: seq<Ent>, acct: Account, i: nat)
    requires SameRows(b, a) && SameRows(b, c)
    requires forall k :: 0 <= k < |b| && b[k].acct == acct ==> a[k].used <= c[k].used
    ensures Used(a, acct) <= Used(c, acct)
    ensures i < |b| && b[i].acct == acct && a[i].used < c[i].used ==> Used(a, acct) < Used(c, acct)
  {
    if b != [] {
      assert a[0] == b[0].(used := a[0].used) && c[0] == b[0].(used := c[0].used);
      var b', a', c' := b[1..], a[1..], c[1..];
      assert forall k :: 0 <= k < |b'| ==> b'[k] == b[k + 1] && a'[k] == a[k + 1] && c'[k] == c[k + 1];
      UsedLess(b', a', c', acct, if i > 0 then i - 1 else |b|);
    }
  }

  /** Consuming `v` and then `w` leaves exactly what consuming `v + w` leaves. */
  lemma ConsumeTwiceIsOnce(b: seq<Ent>, m: seq<Ent>, a: seq<Ent>, c: seq<Ent>, acct: Account, now: Time, v: nat, w: nat)
    requires Drawn(b, m, acct, now, v) && Drawn(m, a, acct, now, w) && Drawn(b, c, acct, now, v + w)
    requires DistinctExpiries(b, acct, now)
    ensures forall i :: 0 <= i < |b| && b[i].acct == acct ==> a[i] == c[i]
  {
    DrawnAdds(b, m, a, acct, now, v, w);
    DrawnUnique(b, a, c, acct, now, v + w);
  }

  // --- the draw loop -------------------------------------------------------------------

  /** The chosen row of a round: open, and no open row expires earlier. */
  predicate Earliest(ents: seq<Ent>, acct: Account, now: Time, k: nat) {
    && k < |ents| && Open(ents[k], acct, now)
    && forall i :: 0 <= i < |ents| && Open(ents[i], acct, now) ==> ents[k].expires <= ents[i].expires
  }

  method EarliestOpen(ents: seq<Ent>, acct: Account, now: Time) returns (k: Option<nat>)
    ensures k.Some? ==> Earliest(ents, acct, now, k.value)
    ensures k.None? ==> forall i :: 0 <= i < |ents| ==> !Open(ents[i], acct, now)
  {
    k := None;
    for n := 0 to |ents|
      invariant k.None? ==> forall i :: 0 <= i < n ==> !Open(ents[i], acct, now)
      invariant k.Some? ==> k.value < n && Open(ents[k.value], acct, now)
      invariant k.Some? ==> forall i :: 0 <= i < n && Open(ents[i], acct, now) ==> ents[k.value].expires <= ents[i].expires
    {
      if Open(ents[n], acct, now) && (k.None? || ents[n].expires < ents[k.value].expires) {
        k := Some(n);
      }
    }
  }

  lemma {:induction false} CapacityHas(ents: seq<Ent>, acct: Account, now: Time, k: nat)
    requires k < |ents|
    ensures Capacity(ents, acct, now) >= Room(ents[k], acct, now)
  {
    if k > 0 {
      CapacityHas(ents[1..], acct, now, k - 1);
    }
  }

  lemma {:induction false} NoCapacity(ents: seq<Ent>, acct: Account, now: Time)
    requires forall i :: 0 <= i < |ents| ==> !Open(ents[i], acct, now)
    ensures Capacity(ents, acct, now) == 0
  {
    if ents != [] {
      NoCapacity(ents[1..], acct, now);
    }
  }

  lemma {:induction false} UsedUpdate(ents: seq<Ent>, acct: Account, k: nat, c: nat)
    requires k < |ents| && ents[k].acct == acct
    ensures Used(ents[k := ents[k].(used := ents[k].used + c)], acct) == Used(ents, acct) + c
  {
    var a := ents[k := ents[k].(used := ents[k].used + c)];
    if k == 0 {
      assert a[1..] == ents[1..];
    } else {
      UsedUpdate(ents[1..], acct, k - 1, c);
      assert a[1..] == ents[1..][k - 1 := ents[k].(used := ents[k].used + c)];
    }
  }

  /** One round of the loop is a draw. */
  lemma OneRound(ents: seq<Ent>, acct: Account, now: Time, k: nat, c: nat)
    requires Earliest(ents, acct, now, k) && c <= Room(ents[k], acct, now)
    ensures Drawn(ents, ents[k := ents[k].(used := ents[k].used + c)], acct, now, c)
  {
    UsedUpdate(ents, acct, k, c);
    CapacityHas(ents, acct, now, k);
  }

  predicate SparesOthers(b: seq<Ent>, a: seq<Ent>, acct: Account) {
    |a| == |b| && forall i :: 0 <= i < |b| && b[i].acct != acct ==> a[i] == b[i]
  }

  /** A further round adds to what was drawn. */
  lemma NextRound(b: seq<Ent>, m: seq<Ent>, acct: Account, now: Time, done: nat, k: nat, c: nat)
    requires Drawn(b, m, acct, now, done) && SparesOthers(b, m, acct)
    requires Earliest(m, acct, now, k) && c <= Room(m[k], acct, now)
    ensures var a := m[k := m[k].(used := m[k].used + c)];
            Drawn(b, a, acct, now, done + c) && SparesOthers(b, a, acct)
  {
    var a := m[k := m[k].(used := m[k].used + c)];
    OneRound(m, acct, now, k, c);
    DrawnAdds(b, m, a, acct, now, done, c);
    assert m[k] == b[k].(used := m[k].used);
  }

  /** With nothing open left, what was drawn answers any larger demand. */
  lemma OutOfCapacity(b: seq<Ent>, a: seq<Ent>, acct: Account, now: Time, done: nat, w: nat)
    requires Drawn(b, a, acct, now, done) && done <= w
    requires forall i :: 0 <= i < |a| ==> !Open(a[i], acct, now)
    ensures Drawn(b, a, acct, now, w)
  {
    NoCapacity(a, acct, now);
    OthersUntouched(a, a, acct, now);
    DrawnAdds(b, a, a, acct, now, done, w - done);
  }

  lemma {:induction false} SomeOpen(ents: seq<Ent>, acct: Account, now: Time)
    ensures Capacity(ents, acct, now) > 0 <==> exists i :: 0 <= i < |ents| && Open(ents[i], acct, now)
  {
    if i :| 0 <= i < |ents| && Open(ents[i], acct, now) {
      CapacityHas(ents, acct, now, i);
    } else {
      NoCapacity(ents, acct, now);
    }
  }

  /** An account is entitled by a pass or by remaining capacity. */
  lemma EntitledIff(ents: seq<Ent>, acct: Account, now: Time)
    ensures Entitled(ents, acct, now) <==> HasPass(ents, acct, now) || Capacity(ents, acct, now) > 0
  {
    SomeOpen(ents, acct, now);
    if i :| 0 <= i < |ents| && ents[i].acct == acct && Current(ents[i], now) {
      assert ents[i].kind.TimePass? || Open(ents[i], acct, now);
    }
    if i :| 0 <= i < |ents| && Open(ents[i], acct, now) {
      assert Current(ents[i], now);
    }
  }

  /** After a draw the account is entitled exactly when it has a pass or the demand
      was below its capacity. */
  lemma DrawExhaustsIff(b: seq<Ent>, a: seq<Ent>, acct: Account, now: Time, w: nat)
    requires Drawn(b, a, acct, now, w)
    ensures Entitled(a, acct, now) <==> HasPass(b, acct, now) || w < Capacity(b, acct, now)
  {
    CapacityFalls(b, a, acct, now);
    EntitledIff(a, acct, now);
    SamePass(b, a, acct, now);
  }

  lemma SamePass(b: seq<Ent>, a: seq<Ent>, acct: Account, now: Time)
    requires SameRows(b, a)
    ensures HasPass(a, acct, now) == HasPass(b, acct, now)
  {
    assert forall i :: 0 <= i < |b| ==> a[i] == b[i].(used := a[i].used);
  }

  /** A draw of one account leaves every other account as a draw of nothing would. */
  lemma {:induction false} OthersUntouched(b: seq<Ent>, a: seq<Ent>, acct: Account, now: Time)
    requires SameRows(b, a) && forall i :: 0 <= i < |b| && b[i].acct == acct ==> a[i] == b[i]
    ensures Drawn(b, a, acct, now, 0)
  {
    SameUsed(b, a, acct);
  }

  lemma {:induction false} SameUsed(b: seq<Ent>, a: seq<Ent>, acct: Account)
    requires SameRows(b, a) && forall i :: 0 <= i < |b| && b[i].acct == acct ==> a[i] == b[i]
    ensures Used(a, acct) == Used(b, acct)
  {
    if b != [] {
      assert forall i :: 0 <= i < |b| - 1 ==> b[1..][i] == b[i + 1] && a[1..][i] == a[i + 1];
      SameUsed(b[1..], a[1..], acct);
      assert a[0] == b[0].(used := a[0].used);
    }
  }

  // --- one report ------------------------------------------------------------------------

  /** A row of the usage_samples table. */
  datatype SampleRow = SampleRow(report: nat, service: Option<string>, addr: Addr, acct: Option<Account>, bytes: nat)

  /** What decides a sample's fate: the services with their rates and the two authz tables. */
  datatype Context = Context(rates: map<string, int>, current: Table, log: seq<Row>, now: Time)

  function Owner(ctx: Context, s: M.Sample): Option<Account> { Attribute(ctx.current, ctx.log, s.addr, ctx.now) }

  /** What is charged of a sample's bytes: 2^40 at most. */
  function Counted(bytes: nat): nat { if bytes <= 0x100_0000_0000 then bytes else 0x100_0000_0000 }

  /** The floor of the counted bytes times the rate in millionths, for the account the
      sample belongs to. */
  function Due(ctx: Context, s: M.Sample, acct: Account): nat {
    if Owner(ctx, s) == Some(acct) && s.service in ctx.rates && ctx.rates[s.service] > 0
    then Counted(s.bytes) * ctx.rates[s.service] / 1_000_000
    else 0
  }

  function TotalDue(ctx: Context, samples: seq<M.Sample>, acct: Account): nat {
    if samples == [] then 0
    else TotalDue(ctx, samples[..|samples| - 1], acct) + Due(ctx, samples[|samples| - 1], acct)
  }

  function RowOf(ctx: Context, report: nat, s: M.Sample): SampleRow {
    SampleRow(report, if s.service in ctx.rates then Some(s.service) else None, s.addr, Owner(ctx, s), Counted(s.bytes))
  }

  /** Every account drew what its samples come to, as far as its capacity went. */
  ghost predicate Settled(b: seq<Ent>, a: seq<Ent>, ctx: Context, samples: seq<M.Sample>) {
    forall acct :: Drawn(b, a, acct, ctx.now, TotalDue(ctx, samples, acct))
  }

  lemma SettledStart(ents: seq<Ent>, ctx: Context)
    ensures Settled(ents, ents, ctx, [])
  {
    forall acct: Account
      ensures Drawn(ents, ents, acct, ctx.now, 0)
    {
      OthersUntouched(ents, ents, acct, ctx.now);
    }
  }

  /** The charge of one sample extends what is settled. */
  lemma SettledStep(b: seq<Ent>, m: seq<Ent>, a: seq<Ent>, ctx: Context, samples: seq<M.Sample>, s: M.Sample, payer: Account, w: nat)
    requires Settled(b, m, ctx, samples)
    requires Drawn(m, a, payer, ctx.now, w)
    requires SparesOthers(m, a, payer)
    requires forall acct :: Due(ctx, s, acct) == if acct == payer then w else 0
    ensures Settled(b, a, ctx, samples + [s])
  {
    assert (samples + [s])[..|samples|] == samples;
    forall acct: Account
      ensures Drawn(b, a, acct, ctx.now, TotalDue(ctx, samples + [s], acct))
    {
      if acct != payer {
        OthersUntouched(m, a, acct, ctx.now);
      }
      DrawnAdds(b, m, a, acct, ctx.now, TotalDue(ctx, samples, acct), Due(ctx, s, acct));
    }
  }

  /** The account uses `bytes * rate / 1_000_000` more, or all it had left, if the sample
      is its own and has a rate; else no more. */
  predicate OneSamplePaid(b: seq<Ent>, a: seq<Ent>, ctx: Context, s: M.Sample, acct: Account) {
    var due := if Owner(ctx, s) == Some(acct) && s.service in ctx.rates && ctx.rates[s.service] > 0
               then s.bytes * ctx.rates[s.service] / 1_000_000 else 0;
    Used(a, acct) == Used(b, acct) + if due <= Capacity(b, acct, ctx.now) then due else Capacity(b, acct, ctx.now)
  }

  lemma OneSample(b: seq<Ent>, a: seq<Ent>, ctx: Context, s: M.Sample, acct: Account)
    requires Settled(b, a, ctx, [s]) && s.bytes <= 0x100_0000_0000
    ensures OneSamplePaid(b, a, ctx, s, acct)
  {
    assert Drawn(b, a, acct, ctx.now, TotalDue(ctx, [s], acct));
    assert [s][..0] == [];
    assert TotalDue(ctx, [s], acct) == Due(ctx, s, acct);
  }

  class Ledger {
    var ents: seq<Ent>
    var reports: set<nat>
    var samples: seq<SampleRow>

    constructor (ents: seq<Ent>)
      ensures this.ents == ents && reports == {} && samples == []
    {
      this.ents, reports, samples := ents, {}, [];
    }

    /** Draws `w` bytes from the account, earliest-expiring entitlement first. */
    method ConsumeVolume(acct: Account, w: nat, now: Time)
      modifies `ents
      ensures Drawn(old(ents), ents, acct, now, w)
      ensures SparesOthers(old(ents), ents, acct)
    {
      var left := w;
      OthersUntouched(ents, ents, acct, now);
      while left > 0
        invariant 0 <= left <= w
        invariant Drawn(old(ents), ents, acct, now, w - left)
        invariant SparesOthers(old(ents), ents, acct)
      {
        var k := EarliestOpen(ents, acct, now);
        if k.None? {
          OutOfCapacity(old(ents), ents, acct, now, w - left, w);
          return;
        }
        var e := ents[k.value];
        var consume := Min(left, e.volume - e.used);
        NextRound(old(ents), ents, acct, now, w - left, k.value, consume);
        ents := ents[k.value := e.(used := e.used + consume)];
        left := left - consume;
      }
    }

    /** One sample: its row, and its charge if it has a payer and a rate. */
    method IngestSample(report: nat, s: M.Sample, ctx: Context, ghost start: seq<Ent>, ghost before: seq<M.Sample>)
      requires Settled(start, ents, ctx, before)
      modifies `ents, `samples
      ensures Settled(start, ents, ctx, before + [s])
      ensures samples == old(samples) + [RowOf(ctx, report, s)]
    {
      var owner := Attribute(ctx.current, ctx.log, s.addr, ctx.now);
      var service := if s.service in ctx.rates then Some(s.service) else None;
      samples := samples + [SampleRow(report, service, s.addr, owner, Clamp(s.bytes))];
      if owner.Some? && s.service in ctx.rates && ctx.rates[s.service] > 0 {
        var w := Weighted(Clamp(s.bytes), ctx.rates[s.service]);
        WeightedExact(Clamp(s.bytes), ctx.rates[s.service]);
        ConsumeVolume(owner.value, w, ctx.now);
        SettledStep(start, old(ents), ents, ctx, before, s, owner.value, w);
      } else {
        OthersUntouched(ents, ents, 0, ctx.now);
        SettledStep(start, ents, ents, ctx, before, s, 0, 0);
      }
    }

    /** A report is charged when its id is new, and then every account pays exactly
        its due; a known id changes nothing. */
    method IngestUsage(report: nat, batch: seq<M.Sample>, ctx: Context) returns (isNew: bool)
      modifies this
      ensures isNew == (report !in old(reports)) && reports == old(reports) + {report}
      ensures !isNew ==> ents == old(ents) && samples == old(samples)
      ensures isNew ==> Settled(old(ents), ents, ctx, batch)
      ensures isNew ==> samples == old(samples) + seq(|batch|, i requires 0 <= i < |batch| => RowOf(ctx, report, batch[i]))
      ensures isNew && |batch| == 1 && batch[0].bytes <= 0x100_0000_0000 ==>
                && |samples| == |old(samples)| + 1 && samples[|old(samples)|].bytes == batch[0].bytes
                && forall acct :: OneSamplePaid(old(ents), ents, ctx, batch[0], acct)
    {
      isNew := report !in reports;
      reports := reports + {report};
      if !isNew { return; }
      SettledStart(ents, ctx);
      for n := 0 to |batch|
        invariant reports == old(reports) + {report}
        invariant Settled(old(ents), ents, ctx, batch[..n])
        invariant samples == old(samples) + seq(n, i requires 0 <= i < n => RowOf(ctx, report, batch[i]))
      {
        IngestSample(report, batch[n], ctx, old(ents), batch[..n]);
        assert batch[..n + 1] == batch[..n] + [batch[n]];
      }
      assert batch[..|batch|] == batch;
      if |batch| == 1 && batch[0].bytes <= 0x100_0000_0000 {
        assert batch == [batch[0]];
        forall acct: Account
          ensures OneSamplePaid(old(ents), ents, ctx, batch[0], acct)
        {
          OneSample(old(ents), ents, ctx, batch[0], acct);
        }
      }
    }
  }
}
