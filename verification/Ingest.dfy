/** The backend's whole answer to a usage report: the ledger, then the recompute and
    the addresses to revoke at once (backend/store/usage.go). */
module Ingest {
  import opened AuthzLog
  import B = Billing
  import M = Metering
  import S = AuthzStore

  /** The desired table, given the account each address's active row belongs to,
      among accounts in good standing. */
  function Desired(holders: Table, ents: seq<B.Ent>, now: Time): Table {
    map a | a in holders && B.Entitled(ents, holders[a], now) :: holders[a]
  }

  /** The account can still pay after the report. */
  predicate Lasts(ents: seq<B.Ent>, ctx: B.Context, batch: seq<M.Sample>, acct: Account) {
    B.HasPass(ents, acct, ctx.now) || B.TotalDue(ctx, batch, acct) < B.Capacity(ents, acct, ctx.now)
  }

  /** Once the accounts have paid, an address is desired exactly when its account lasts. */
  lemma DesiredAfter(holders: Table, before: seq<B.Ent>, after: seq<B.Ent>, ctx: B.Context, batch: seq<M.Sample>, a: Addr)
    requires B.Settled(before, after, ctx, batch)
    ensures a in Desired(holders, after, ctx.now) <==> a in holders && Lasts(before, ctx, batch, holders[a])
  {
    if a in holders {
      var acct := holders[a];
      assert B.Drawn(before, after, acct, ctx.now, B.TotalDue(ctx, batch, acct));
      B.DrawExhaustsIff(before, after, acct, ctx.now, B.TotalDue(ctx, batch, acct));
    }
  }

  class Backend {
    const ledger: B.Ledger
    const store: S.Store

    constructor (ledger: B.Ledger, store: S.Store)
      ensures this.ledger == ledger && this.store == store
    {
      this.ledger, this.store := ledger, store;
    }

    /** A known report changes nothing and revokes nothing. A new one is paid for, the
        table becomes the desired one, and the addresses to revoke are exactly the
        authorized ones without a holder, or whose account has no pass and whose due
        used up its capacity. */
    method IngestUsage(report: nat, batch: seq<M.Sample>, rates: map<string, int>, holders: Table, now: Time)
      returns (revoke: set<Addr>)
      requires store.Valid()
      modifies ledger, store
      ensures store.Valid() && ledger.reports == old(ledger.reports) + {report}
      ensures report in old(ledger.reports) ==>
                revoke == {} && ledger.ents == old(ledger.ents) && ledger.samples == old(ledger.samples)
                && store.current == old(store.current) && store.log == old(store.log)
      ensures report !in old(ledger.reports) ==>
                var ctx := B.Context(rates, old(store.current), old(store.log), now);
                && B.Settled(old(ledger.ents), ledger.ents, ctx, batch)
                && store.current == Desired(holders, ledger.ents, now)
                && forall a :: a in revoke <==>
                     a in old(store.current) && !(a in holders && Lasts(old(ledger.ents), ctx, batch, holders[a]))
    {
      var ctx := B.Context(rates, store.current, store.log, now);
      var isNew := ledger.IngestUsage(report, batch, ctx);
      if !isNew { return {}; }
      var rev;
      revoke, rev := store.RecomputeAuthz(Desired(holders, ledger.ents, now), now);
      forall a: Addr
        ensures a in Desired(holders, ledger.ents, now) <==> a in holders && Lasts(old(ledger.ents), ctx, batch, holders[a])
      {
        DesiredAfter(holders, old(ledger.ents), ledger.ents, ctx, batch, a);
      }
    }
  }
}
