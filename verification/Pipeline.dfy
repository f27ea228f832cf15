/** From the kernel's counters to an account's entitlements: the delivery pipeline
    with the ledger's draws (agent/agent.go, backend/store/usage.go). */
module Pipeline {
  import opened AuthzLog
  import M = Metering
  import D = Delivery
  import B = Billing

  /** What stays fixed over a run: the node's buffer cap, the catalog's ports and rates. */
  datatype Setup = Setup(cap: nat, services: map<nat, string>, rates: map<string, int>)

  /** A step of the pipeline, or an entitlement granted. A delivery that is charged
      finds the authorization tables as they are then, lists the report's elements
      in some order, and leaves the entitlements `after`. */
  datatype Event =
    | Pipe(step: D.Step, current: Table, log: seq<Row>, now: Time, keys: seq<M.Key>, after: seq<B.Ent>)
    | Granted(ent: B.Ent)

  datatype World = World(d: D.World, ents: seq<B.Ent>)

  predicate Charging(w: World, e: Event) {
    e.Pipe? && e.step.Deliver? && e.step.r in w.d.net && e.step.r.id !in w.d.ledger
  }

  function ContextOf(c: Setup, e: Event): B.Context
    requires e.Pipe?
  {
    B.Context(c.rates, e.current, e.log, e.now)
  }

  /** The report's samples in the order of `keys`. */
  function SamplesOf(c: Setup, r: D.Report, keys: seq<M.Key>): seq<M.Sample> {
    seq(|keys|, i requires 0 <= i < |keys| => SampleOf(c, r, keys[i]))
  }

  function SampleOf(c: Setup, r: D.Report, k: M.Key): M.Sample {
    M.Sample(M.LabelOf(c.services, k.port), k.addr, M.Get(r.bytes, k))
  }

  ghost predicate Orders(keys: seq<M.Key>, r: D.Report) {
    && (forall k :: k in keys <==> k in r.bytes)
    && (forall i, j :: 0 <= i < j < |keys| ==> keys[i] != keys[j])
  }

  ghost predicate Enabled(c: Setup, w: World, e: Event) {
    && (e.Granted? ==> e.ent.used == 0)
    && (Charging(w, e) ==>
          && Orders(e.keys, e.step.r)
          && B.Settled(w.ents, e.after, ContextOf(c, e), SamplesOf(c, e.step.r, e.keys)))
  }

  ghost function Next(c: Setup, w: World, e: Event): World {
    if !Enabled(c, w, e) then w
    else if e.Granted? then w.(ents := w.ents + [e.ent])
    else World(D.Next(w.d, e.step, c.cap), if Charging(w, e) then e.after else w.ents)
  }

  ghost function After(c: Setup, ents: seq<B.Ent>, run: seq<Event>): World {
    if run == [] then World(D.Start(), ents) else Next(c, After(c, ents, run[..|run| - 1]), run[|run| - 1])
  }

  /** The delivery steps that were taken. */
  ghost function Taken(c: Setup, ents: seq<B.Ent>, run: seq<Event>): seq<D.Step> {
    if run == [] then []
    else
      var front, last := run[..|run| - 1], run[|run| - 1];
      Taken(c, ents, front) + if Enabled(c, After(c, ents, front), last) && last.Pipe? then [last.step] else []
  }

  lemma {:induction false} Projects(c: Setup, ents: seq<B.Ent>, run: seq<Event>)
    ensures After(c, ents, run).d == D.After(Taken(c, ents, run), c.cap)
  {
    if run != [] {
      var front, last := run[..|run| - 1], run[|run| - 1];
      Projects(c, ents, front);
      if Enabled(c, After(c, ents, front), last) && last.Pipe? {
        D.AfterSnoc(Taken(c, ents, front), last.step, c.cap);
      } else {
        assert Taken(c, ents, run) == Taken(c, ents, front);
      }
    }
  }

  // --- what a report may cost an account ------------------------------------------------------------

  function Rate(c: Setup, k: M.Key): nat {
    var service := M.LabelOf(c.services, k.port);
    if service in c.rates && c.rates[service] > 0 then c.rates[service] else 0
  }

  /** The floors of the bytes times the rates, element by element. */
  function Weighed(c: Setup, keys: seq<M.Key>, bytes: M.Key -> nat): nat {
    if keys == [] then 0
    else
      var k := keys[|keys| - 1];
      Weighed(c, keys[..|keys| - 1], bytes) + bytes(k) * Rate(c, k) / B.PPM
  }

  lemma FloorAdds(x: nat, y: nat, rate: nat)
    ensures x * rate / B.PPM + y * rate / B.PPM <= (x + y) * rate / B.PPM
  {
    assert (x + y) * rate == x * rate + y * rate;
    FloorSum(x * rate, y * rate);
  }

  lemma FloorSum(x: nat, y: nat)
    ensures x / B.PPM + y / B.PPM <= (x + y) / B.PPM
  {
  }

  lemma FloorMono(x: nat, y: nat, rate: nat)
    requires x <= y
    ensures x * rate / B.PPM <= y * rate / B.PPM
  {
    FloorAdds(x, y - x, rate);
    assert 0 <= (y - x) * rate;
  }

  lemma {:induction false} WeighedMono(c: Setup, keys: seq<M.Key>, f: M.Key -> nat, g: M.Key -> nat)
    requires forall k :: k in keys ==> f(k) <= g(k)
    ensures Weighed(c, keys, f) <= Weighed(c, keys, g)
  {
    if keys != [] {
      var k := keys[|keys| - 1];
      WeighedMono(c, keys[..|keys| - 1], f, g);
      FloorMono(f(k), g(k), Rate(c, k));
    }
  }

  /** More bytes of one listed element weigh at least their own floor. */
  lemma {:induction false} WeighedMore(c: Setup, keys: seq<M.Key>, f: M.Key -> nat, g: M.Key -> nat, x: M.Key, more: nat)
    requires x in keys && g(x) == f(x) + more && forall k :: k in keys ==> f(k) <= g(k)
    ensures Weighed(c, keys, f) + more * Rate(c, x) / B.PPM <= Weighed(c, keys, g)
  {
    var front, k := keys[..|keys| - 1], keys[|keys| - 1];
    if k == x {
      WeighedMono(c, front, f, g);
      FloorAdds(f(x), more, Rate(c, x));
    } else {
      assert x in front;
      WeighedMore(c, front, f, g, x, more);
      FloorMono(f(k), g(k), Rate(c, k));
    }
  }

  predicate Mine(ctx: B.Context, k: M.Key, acct: Account) {
    Attribute(ctx.current, ctx.log, k.addr, ctx.now) == Some(acct)
  }

  lemma DueAtMost(c: Setup, e: Event, r: D.Report, k: M.Key, acct: Account)
    requires e.Pipe?
    ensures B.Due(ContextOf(c, e), SampleOf(c, r, k), acct)
            <= if Mine(ContextOf(c, e), k, acct) then M.Get(r.bytes, k) * Rate(c, k) / B.PPM else 0
  {
    FloorMono(B.Counted(M.Get(r.bytes, k)), M.Get(r.bytes, k), Rate(c, k));
  }

  /** The bytes so far, and those of the first `n` elements of the report that are the account's. */
  function WithFirst(had: M.Key -> nat, ctx: B.Context, r: D.Report, keys: seq<M.Key>, n: nat, acct: Account): M.Key -> nat
    requires n <= |keys|
  {
    k => had(k) + if k in keys[..n] && Mine(ctx, k, acct) then M.Get(r.bytes, k) else 0
  }

  lemma {:induction false} DueWeighs(c: Setup, e: Event, r: D.Report, n: nat, acct: Account, had: M.Key -> nat, all: seq<M.Key>)
    requires e.Pipe? && Orders(e.keys, r) && n <= |e.keys| && forall k :: k in e.keys ==> k in all
    ensures B.TotalDue(ContextOf(c, e), SamplesOf(c, r, e.keys)[..n], acct) + Weighed(c, all, had)
            <= Weighed(c, all, WithFirst(had, ContextOf(c, e), r, e.keys, n, acct))
  {
    var ctx, keys := ContextOf(c, e), e.keys;
    var g := WithFirst(had, ctx, r, keys, n, acct);
    if n == 0 {
      WeighedMono(c, all, had, g);
    } else {
      DueWeighs(c, e, r, n - 1, acct, had, all);
      DueNext(c, e, r, n, acct);
      NextElement(c, ctx, r, keys, n, acct, had, all);
    }
  }

  lemma DueNext(c: Setup, e: Event, r: D.Report, n: nat, acct: Account)
    requires e.Pipe? && 0 < n <= |e.keys|
    ensures var ctx, samples, x := ContextOf(c, e), SamplesOf(c, r, e.keys), e.keys[n - 1];
            B.TotalDue(ctx, samples[..n], acct) <= B.TotalDue(ctx, samples[..n - 1], acct)
              + if Mine(ctx, x, acct) then M.Get(r.bytes, x) * Rate(c, x) / B.PPM else 0
  {
    var samples := SamplesOf(c, r, e.keys);
    assert samples[..n][..n - 1] == samples[..n - 1] && samples[..n][n - 1] == SampleOf(c, r, e.keys[n - 1]);
    DueAtMost(c, e, r, e.keys[n - 1], acct);
  }

  lemma NextElement(c: Setup, ctx: B.Context, r: D.Report, keys: seq<M.Key>, n: nat, acct: Account, had: M.Key -> nat, all: seq<M.Key>)
    requires 0 < n <= |keys| && Orders(keys, r) && keys[n - 1] in all
    ensures var x := keys[n - 1];
            Weighed(c, all, WithFirst(had, ctx, r, keys, n - 1, acct))
            + (if Mine(ctx, x, acct) then M.Get(r.bytes, x) * Rate(c, x) / B.PPM else 0)
            <= Weighed(c, all, WithFirst(had, ctx, r, keys, n, acct))
  {
    var f, g, x := WithFirst(had, ctx, r, keys, n - 1, acct), WithFirst(had, ctx, r, keys, n, acct), keys[n - 1];
    assert keys[..n] == keys[..n - 1] + [x];
    assert x !in keys[..n - 1];
    if Mine(ctx, x, acct) {
      WeighedMore(c, all, f, g, x, M.Get(r.bytes, x));
    } else {
      WeighedMono(c, all, f, g);
    }
  }

  // --- over every run -------------------------------------------------------------------------------

  /** Bytes of the element that were charged while its address was the account's. */
  ghost function Attributed(c: Setup, ents: seq<B.Ent>, run: seq<Event>, acct: Account, k: M.Key): nat {
    if run == [] then 0
    else
      var front, last := run[..|run| - 1], run[|run| - 1];
      var w := After(c, ents, front);
      Attributed(c, ents, front, acct, k)
      + if Enabled(c, w, last) && Charging(w, last) && Mine(ContextOf(c, last), k, acct) then M.Get(last.step.r.bytes, k) else 0
  }

  lemma {:induction false} UsedAppend(ents: seq<B.Ent>, e: B.Ent, acct: Account)
    requires e.used == 0
    ensures B.Used(ents + [e], acct) == B.Used(ents, acct)
  {
    if ents != [] {
      assert (ents + [e])[1..] == ents[1..] + [e];
      UsedAppend(ents[1..], e, acct);
    } else {
      assert (ents + [e])[1..] == [];
    }
  }

  /** `all` names every element of every report. */
  predicate Names(all: seq<M.Key>, generated: seq<D.Report>) {
    forall r :: r in generated ==> forall k :: k in r.bytes ==> k in all
  }

  lemma NamesBefore(c: Setup, w: World, e: Event, all: seq<M.Key>)
    requires Names(all, Next(c, w, e).d.generated)
    ensures Names(all, w.d.generated)
  {
    assert forall r :: r in w.d.generated ==> r in Next(c, w, e).d.generated;
  }

  lemma ChargeWeighs(c: Setup, w: World, e: Event, acct: Account, had: M.Key -> nat, all: seq<M.Key>)
    requires Enabled(c, w, e) && Charging(w, e) && D.Inv(w.d) && Names(all, w.d.generated)
    ensures B.Used(e.after, acct) + Weighed(c, all, had)
            <= B.Used(w.ents, acct) + Weighed(c, all, WithFirst(had, ContextOf(c, e), e.step.r, e.keys, |e.keys|, acct))
  {
    var samples := SamplesOf(c, e.step.r, e.keys);
    assert e.step.r in w.d.generated;
    DueWeighs(c, e, e.step.r, |e.keys|, acct, had, all);
    assert samples[..|e.keys|] == samples;
    assert B.Drawn(w.ents, e.after, acct, e.now, B.TotalDue(ContextOf(c, e), samples, acct));
  }

  /** Over every run an account's use rises by at most the floors of the bytes that
      were charged to it, element by element. */
  lemma {:induction false} PaysForItsBytes(c: Setup, ents: seq<B.Ent>, run: seq<Event>, acct: Account, all: seq<M.Key>)
    requires Names(all, After(c, ents, run).d.generated)
    ensures B.Used(After(c, ents, run).ents, acct)
            <= B.Used(ents, acct) + Weighed(c, all, k => Attributed(c, ents, run, acct, k))
  {
    if run != [] {
      var front, last := run[..|run| - 1], run[|run| - 1];
      var w := After(c, ents, front);
      var had, has := (k: M.Key) => Attributed(c, ents, front, acct, k), (k: M.Key) => Attributed(c, ents, run, acct, k);
      NamesBefore(c, w, last, all);
      PaysForItsBytes(c, ents, front, acct, all);
      if Enabled(c, w, last) && Charging(w, last) {
        Projects(c, ents, front);
        D.RunInv(Taken(c, ents, front), c.cap);
        ChargeWeighs(c, w, last, acct, had, all);
        WeighedMono(c, all, WithFirst(had, ContextOf(c, last), last.step.r, last.keys, |last.keys|, acct), has);
      } else {
        if Enabled(c, w, last) && last.Granted? {
          UsedAppend(w.ents, last.ent, acct);
        }
        WeighedMono(c, all, had, has);
      }
    }
  }

  // --- and by no less -------------------------------------------------------------------------------

  /** The exact product of bytes and rate, in millionths, over the account's elements. */
  function OwedOf(c: Setup, ctx: B.Context, r: D.Report, keys: seq<M.Key>, acct: Account): nat {
    if keys == [] then 0
    else
      var k := keys[|keys| - 1];
      OwedOf(c, ctx, r, keys[..|keys| - 1], acct) + if Mine(ctx, k, acct) then M.Get(r.bytes, k) * Rate(c, k) else 0
  }

  /** How many of the elements are the account's. */
  function CountOf(ctx: B.Context, keys: seq<M.Key>, acct: Account): nat {
    if keys == [] then 0
    else CountOf(ctx, keys[..|keys| - 1], acct) + if Mine(ctx, keys[|keys| - 1], acct) then 1 else 0
  }

  /** No element of the account's is above 2^40 bytes. */
  predicate Within(ctx: B.Context, r: D.Report, keys: seq<M.Key>, acct: Account) {
    forall k :: k in keys && Mine(ctx, k, acct) ==> M.Get(r.bytes, k) <= 0x100_0000_0000
  }

  lemma DueBetween(c: Setup, e: Event, r: D.Report, k: M.Key, acct: Account)
    requires e.Pipe? && Within(ContextOf(c, e), r, [k], acct)
    ensures var ctx := ContextOf(c, e);
            var due, owed := B.Due(ctx, SampleOf(c, r, k), acct), if Mine(ctx, k, acct) then M.Get(r.bytes, k) * Rate(c, k) else 0;
            1_000_000 * due <= owed <= 1_000_000 * due + if Mine(ctx, k, acct) then 999_999 else 0
  {
    assert k in [k];
  }

  lemma {:induction false} TotalBetween(c: Setup, e: Event, r: D.Report, n: nat, acct: Account)
    requires e.Pipe? && n <= |e.keys| && Within(ContextOf(c, e), r, e.keys, acct)
    ensures var ctx, keys := ContextOf(c, e), e.keys[..n];
            var due, owed := B.TotalDue(ctx, SamplesOf(c, r, e.keys)[..n], acct), OwedOf(c, ctx, r, keys, acct);
            1_000_000 * due <= owed <= 1_000_000 * due + 999_999 * CountOf(ctx, keys, acct)
  {
    if n > 0 {
      var samples := SamplesOf(c, r, e.keys);
      TotalBetween(c, e, r, n - 1, acct);
      DueBetween(c, e, r, e.keys[n - 1], acct);
      assert e.keys[..n][..n - 1] == e.keys[..n - 1];
      assert samples[..n][..n - 1] == samples[..n - 1] && samples[..n][n - 1] == SampleOf(c, r, e.keys[n - 1]);
    }
  }

  /** What the run's charges come to for the account, before any rounding. */
  ghost function Owed(c: Setup, ents: seq<B.Ent>, run: seq<Event>, acct: Account): nat {
    if run == [] then 0
    else
      var front, last := run[..|run| - 1], run[|run| - 1];
      var w := After(c, ents, front);
      Owed(c, ents, front, acct)
      + if Enabled(c, w, last) && Charging(w, last) then OwedOf(c, ContextOf(c, last), last.step.r, last.keys, acct) else 0
  }

  /** How many samples the run charged to the account. */
  ghost function ChargedTimes(c: Setup, ents: seq<B.Ent>, run: seq<Event>, acct: Account): nat {
    if run == [] then 0
    else
      var front, last := run[..|run| - 1], run[|run| - 1];
      var w := After(c, ents, front);
      ChargedTimes(c, ents, front, acct)
      + if Enabled(c, w, last) && Charging(w, last) then CountOf(ContextOf(c, last), last.keys, acct) else 0
  }

  /** No charge was of more than 2^40 bytes of an element, and none used the account up. */
  ghost predicate KeepsPaying(c: Setup, ents: seq<B.Ent>, run: seq<Event>, acct: Account) {
    run != [] ==>
      var front, last := run[..|run| - 1], run[|run| - 1];
      var w := After(c, ents, front);
      && KeepsPaying(c, ents, front, acct)
      && (Enabled(c, w, last) && Charging(w, last) ==>
            Within(ContextOf(c, last), last.step.r, last.keys, acct) && B.Capacity(last.after, acct, last.now) > 0)
  }

  /** A charge that leaves capacity is the floors of what was owed. */
  lemma ChargeBetween(c: Setup, w: World, e: Event, acct: Account)
    requires Enabled(c, w, e) && Charging(w, e)
    requires Within(ContextOf(c, e), e.step.r, e.keys, acct) && B.Capacity(e.after, acct, e.now) > 0
    ensures var rise, ctx := B.Used(e.after, acct) - B.Used(w.ents, acct), ContextOf(c, e);
            var owed := OwedOf(c, ctx, e.step.r, e.keys, acct);
            1_000_000 * rise <= owed <= 1_000_000 * rise + 999_999 * CountOf(ctx, e.keys, acct)
  {
    var samples := SamplesOf(c, e.step.r, e.keys);
    TotalBetween(c, e, e.step.r, |e.keys|, acct);
    assert samples[..|e.keys|] == samples && e.keys[..|e.keys|] == e.keys;
    assert B.Drawn(w.ents, e.after, acct, e.now, B.TotalDue(ContextOf(c, e), samples, acct));
    B.CapacityFalls(w.ents, e.after, acct, e.now);
  }

  /** Over every run of charges of at most 2^40 bytes that leave the account capacity, its
      use rises by what its bytes come to at their rates, less than one byte off for each
      sample charged to it. */
  lemma {:induction false} PaysForEveryByte(c: Setup, ents: seq<B.Ent>, run: seq<Event>, acct: Account)
    requires KeepsPaying(c, ents, run, acct)
    ensures var rise, owed := B.Used(After(c, ents, run).ents, acct) - B.Used(ents, acct), Owed(c, ents, run, acct);
            1_000_000 * rise <= owed <= 1_000_000 * rise + 999_999 * ChargedTimes(c, ents, run, acct)
  {
    if run != [] {
      var front, last := run[..|run| - 1], run[|run| - 1];
      var w := After(c, ents, front);
      PaysForEveryByte(c, ents, front, acct);
      if Enabled(c, w, last) {
        if Charging(w, last) {
          ChargeBetween(c, w, last, acct);
        } else if last.Granted? {
          UsedAppend(w.ents, last.ent, acct);
        }
      }
    }
  }

  lemma {:induction false} BilledMore(rs: seq<D.Report>, times: multiset<D.Report>, r: D.Report, k: M.Key)
    ensures D.Billed(rs, times, k) <= D.Billed(rs, times + multiset{r}, k)
    ensures r in rs ==> D.Billed(rs, times, k) + M.Get(r.bytes, k) <= D.Billed(rs, times + multiset{r}, k)
  {
    if rs != [] {
      var front, last := rs[..|rs| - 1], rs[|rs| - 1];
      BilledMore(front, times, r, k);
      assert rs == front + [last];
      Times(times[last], (times + multiset{r})[last], M.Get(last.bytes, k));
    }
  }

  lemma Times(a: nat, b: nat, x: nat)
    requires b == a || b == a + 1
    ensures b * x == a * x + if b == a then 0 else x
  {
  }

  lemma BilledGrows(rs: seq<D.Report>, more: D.Report, times: multiset<D.Report>, k: M.Key)
    ensures D.Billed(rs, times, k) <= D.Billed(rs + [more], times, k)
  {
    assert (rs + [more])[..|rs|] == rs;
  }

  /** Bytes of the element charged to any of the accounts. */
  ghost function AttributedToAny(c: Setup, ents: seq<B.Ent>, run: seq<Event>, accts: seq<Account>, k: M.Key): nat {
    if accts == [] then 0
    else AttributedToAny(c, ents, run, accts[..|accts| - 1], k) + Attributed(c, ents, run, accts[|accts| - 1], k)
  }

  predicate Distinct(accts: seq<Account>) { forall i, j :: 0 <= i < j < |accts| ==> accts[i] != accts[j] }

  lemma {:induction false} NothingToAny(c: Setup, ents: seq<B.Ent>, accts: seq<Account>, k: M.Key)
    ensures AttributedToAny(c, ents, [], accts, k) == 0
  {
    if accts != [] {
      NothingToAny(c, ents, accts[..|accts| - 1], k);
    }
  }

  /** The bytes the last event of the run charges for the element. */
  ghost function Charged(c: Setup, ents: seq<B.Ent>, run: seq<Event>, k: M.Key): nat
    requires run != []
  {
    var w, last := After(c, ents, run[..|run| - 1]), run[|run| - 1];
    if Enabled(c, w, last) && Charging(w, last) then M.Get(last.step.r.bytes, k) else 0
  }

  /** A charged byte goes to one of the accounts at most. */
  lemma {:induction false} OnePayer(c: Setup, ents: seq<B.Ent>, run: seq<Event>, accts: seq<Account>, k: M.Key)
    requires run != [] && Distinct(accts)
    ensures var front, last := run[..|run| - 1], run[|run| - 1];
            var before, after := AttributedToAny(c, ents, front, accts, k), AttributedToAny(c, ents, run, accts, k);
            && after <= before + Charged(c, ents, run, k)
            && (Charged(c, ents, run, k) > 0 && (forall acct :: acct in accts ==> !Mine(ContextOf(c, last), k, acct)) ==> after == before)
  {
    if accts != [] {
      var rest, acct := accts[..|accts| - 1], accts[|accts| - 1];
      OnePayer(c, ents, run, rest, k);
      assert forall x :: x in rest ==> x in accts && x != acct;
    }
  }

  /** What is charged to distinct accounts is together no more than what is charged in
      all: no byte is billed to two. */
  lemma {:induction false} AttributedIsBilled(c: Setup, ents: seq<B.Ent>, run: seq<Event>, accts: seq<Account>, k: M.Key)
    requires Distinct(accts)
    ensures var d := After(c, ents, run).d; AttributedToAny(c, ents, run, accts, k) <= D.Billed(d.generated, d.charges, k)
  {
    if run == [] {
      NothingToAny(c, ents, accts, k);
    } else {
      var front, last := run[..|run| - 1], run[|run| - 1];
      var w := After(c, ents, front);
      AttributedIsBilled(c, ents, front, accts, k);
      OnePayer(c, ents, run, accts, k);
      Projects(c, ents, front);
      D.RunInv(Taken(c, ents, front), c.cap);
      if Enabled(c, w, last) && last.Pipe? {
        BilledStep(w.d, last.step, c.cap, k);
      }
    }
  }

  lemma BilledStep(d: D.World, s: D.Step, cap: nat, k: M.Key)
    requires D.Inv(d)
    ensures var d' := D.Next(d, s, cap);
            D.Billed(d.generated, d.charges, k)
            + (if s.Deliver? && s.r in d.net && s.r.id !in d.ledger then M.Get(s.r.bytes, k) else 0)
            <= D.Billed(d'.generated, d'.charges, k)
  {
    D.HistoryStep(d, s, cap);
    if s.Deliver? && s.r in d.net {
      BilledMore(d.generated, d.charges, s.r, k);
    } else if s.Collect? && D.Enabled(d, s) {
      BilledGrows(d.generated, D.Report(s.id, D.Fresh(d.meter)), d.charges, k);
    }
  }

  /** Bytes the kernel counted for an element that was ever charged to the account. */
  ghost function CountedFor(c: Setup, ents: seq<B.Ent>, run: seq<Event>, acct: Account, k: M.Key): nat {
    if Attributed(c, ents, run, acct, k) == 0 then 0 else M.Get(After(c, ents, run).d.meter.counted, k)
  }

  /** Over every run the accounts together are charged for no more bytes of an element
      than the kernel counted. */
  lemma SharesOfCounted(c: Setup, ents: seq<B.Ent>, run: seq<Event>, accts: seq<Account>, k: M.Key)
    requires Distinct(accts)
    requires D.Timely(Taken(c, ents, run), c.cap) && D.NoneRepeats(Taken(c, ents, run), c.cap, k)
    ensures AttributedToAny(c, ents, run, accts, k) <= M.Get(After(c, ents, run).d.meter.counted, k)
  {
    Projects(c, ents, run);
    AttributedIsBilled(c, ents, run, accts, k);
    D.NeverOverbilled(Taken(c, ents, run), c.cap, k);
  }

  lemma AttributedIsCounted(c: Setup, ents: seq<B.Ent>, run: seq<Event>, acct: Account, k: M.Key)
    requires D.Timely(Taken(c, ents, run), c.cap) && D.NoneRepeats(Taken(c, ents, run), c.cap, k)
    ensures Attributed(c, ents, run, acct, k) <= CountedFor(c, ents, run, acct, k)
  {
    SharesOfCounted(c, ents, run, [acct], k);
    assert [acct][..0] == [];
  }

  /** End to end: an account's use rises by at most the floors of the bytes the
      kernel counted for the elements that were ever charged to it. */
  lemma PaysAtMostCounted(c: Setup, ents: seq<B.Ent>, run: seq<Event>, acct: Account, all: seq<M.Key>)
    requires Names(all, After(c, ents, run).d.generated)
    requires D.Timely(Taken(c, ents, run), c.cap)
    requires forall k :: k in all ==> D.NoneRepeats(Taken(c, ents, run), c.cap, k)
    ensures B.Used(After(c, ents, run).ents, acct)
            <= B.Used(ents, acct) + Weighed(c, all, k => CountedFor(c, ents, run, acct, k))
  {
    var had, counted := (k: M.Key) => Attributed(c, ents, run, acct, k), (k: M.Key) => CountedFor(c, ents, run, acct, k);
    PaysForItsBytes(c, ents, run, acct, all);
    forall k | k in all
      ensures had(k) <= counted(k)
    {
      AttributedIsCounted(c, ents, run, acct, k);
    }
    WeighedMono(c, all, had, counted);
  }
}
