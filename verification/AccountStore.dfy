/** The store's operations statement by statement, with the unique index checked
    after each, proved against the database's transition function
    (backend/store/admin.go, backend/store/whitelist.go, backend/store/packages.go,
    backend/store/payments.go). */
module AccountStore {
  import opened AuthzLog
  import opened Whitelist
  import opened Accounts
  import B = Billing

  class Store {
    const addrOf: Npub -> Addr
    const maxGuests: nat
    var accounts: map<Npub, bool>
    var rows: Rows
    var grants: seq<Grant>
    var purchases: map<nat, Purchase>

    function Value(): Db
      reads this
    {
      Db(accounts, rows, grants, purchases)
    }

    ghost predicate Valid()
      reads this
    {
      Sound(Value(), addrOf)
    }

    /** What an operation must do: the specified step, or its error and nothing. */
    ghost predicate Did(before: Db, op: Accounts.Op, err: Option<Error>)
      reads this
    {
      && Value() == Next(before, op, addrOf, maxGuests)
      && err == match Do(before, op, addrOf, maxGuests) { case Ok(_) => None case Err(e) => Some(e) }
    }

    constructor (addrOf: Npub -> Addr, maxGuests: nat)
      ensures Valid() && Value() == After([], addrOf, maxGuests)
      ensures this.addrOf == addrOf && this.maxGuests == maxGuests
    {
      this.addrOf, this.maxGuests := addrOf, maxGuests;
      accounts, rows, grants, purchases := map[], map[], [], map[];
    }

    /** One statement on the whitelist: refused when it would break the index. */
    method Write(after: Rows) returns (ok: bool)
      modifies `rows
      ensures ok == Indexed(after) && rows == if ok then after else old(rows)
    {
      ok := Indexed(after);
      if ok { rows := after; }
    }

    /** Parks, then activates. Both statements always pass the index. */
    method ActivateRowTx(k: Key)
      requires Valid() && k in rows
      modifies `rows
      ensures Valid() && rows == ActivateRow(old(rows), k)
      ensures forall j :: ActiveFor(rows, j, old(rows)[k].addr) <==> j == k
    {
      ActivateRowTakes(accounts.Keys, rows, addrOf, k);
      var parked := Write(Park(rows, rows[k].addr, k));
      var enabled := Write(Enable(rows, k));
      assert parked && enabled;
    }

    predicate OwnsRow(n: Npub)
      reads this
    {
      (n, n) in rows && rows[(n, n)].role.Owner?
    }

    method ActivateOwnerTx(n: Npub)
      requires Valid()
      modifies `rows
      ensures Valid() && rows == Whitelist.ActivateOwner(old(rows), n)
      ensures OwnsRow(n) == old(OwnsRow(n))
      ensures OwnsRow(n) ==> forall j :: ActiveFor(rows, j, addrOf(n)) <==> j == (n, n)
    {
      if (n, n) in rows && rows[(n, n)].role.Owner? {
        ActivateRowTx((n, n));
      }
    }

    method OpenAccountRow(n: Npub) returns (err: Option<Error>)
      requires Valid()
      modifies `accounts
      ensures Valid() && Did(old(Value()), OpenAccount(n), err)
    {
      StepSound(Value(), OpenAccount(n), addrOf, maxGuests);
      err := None;
      if n in accounts { return; }
      if exists m :: m in accounts && addrOf(m) == addrOf(n) { return Some(AddressTaken); }
      accounts := accounts[n := true];
    }

    /** The owner row is born parked when the address is active elsewhere. */
    method CreateAccount(n: Npub) returns (err: Option<Error>)
      requires Valid()
      modifies `accounts, `rows
      ensures Valid()
      ensures var first := Next(old(Value()), OpenAccount(n), addrOf, maxGuests);
              Value() == if err.None? then Next(first, OwnerRow(n), addrOf, maxGuests) else first
      ensures err.None? <==> n in old(accounts) || forall m :: m in old(accounts) ==> addrOf(m) != addrOf(n)
      ensures err.None? ==> n in accounts && (n, n) in rows
    {
      err := OpenAccountRow(n);
      if err.Some? { return; }
      AddOwnerGood(accounts.Keys, rows, addrOf, n);
      var ok := Write(AddOwner(rows, n, addrOf(n)));
      assert ok;
    }

    method AddWhitelist(host: Npub, guest: Npub) returns (err: Option<Error>)
      requires Valid()
      modifies `rows
      ensures Valid() && Did(old(Value()), Attach(host, guest), err)
      ensures err.None? ==> forall j :: ActiveFor(rows, j, addrOf(guest)) <==> j == (host, guest)
      ensures err.Some? ==> rows == old(rows)
    {
      StepSound(Value(), Attach(host, guest), addrOf, maxGuests);
      if host !in accounts { return Some(AccountNotFound); }
      UpsertIff(accounts.Keys, rows, addrOf, (host, guest));
      var ok := Write(Upsert(rows, (host, guest), addrOf(guest)));
      err := if ok then None else Some(IndexViolation);
    }

    method InviteGuest(host: Npub, guest: Npub, now: Time) returns (pending: bool, err: Option<Error>)
      requires Valid()
      modifies `rows
      ensures Valid() && Did(old(Value()), Ask(host, guest, now), err)
      ensures err.None? ==> pending == !(((host, guest) in old(rows)) && Active(old(rows)[(host, guest)]))
      ensures forall a :: SameActive(old(rows), rows, a)
    {
      StepSound(Value(), Ask(host, guest, now), addrOf, maxGuests);
      pending := false;
      if host !in accounts { return false, Some(AccountNotFound); }
      if addrOf(guest) == addrOf(host) { return false, Some(SelfWhitelist); }
      if !Entitled(grants, host, now) { return false, Some(NoActiveEntitlement); }
      if (host, guest) !in rows && |GuestsOf(rows, host)| >= maxGuests { return false, Some(GuestLimit); }
      InviteGood(accounts.Keys, rows, addrOf, (host, guest));
      var ok := Write(Invite(rows, (host, guest), addrOf(guest)));
      assert ok;
      pending, err := rows[(host, guest)].pending, None;
    }

    method WithdrawInvite(host: Npub, guest: Npub) returns (err: Option<Error>)
      requires Valid()
      modifies `rows
      ensures Valid() && Did(old(Value()), Withdraw(host, guest), err)
      ensures err.None? ==> Outstanding(old(rows), (host, guest)) && (host, guest) !in rows
      ensures forall a :: SameActive(old(rows), rows, a)
    {
      StepSound(Value(), Withdraw(host, guest), addrOf, maxGuests);
      if host !in accounts { return Some(AccountNotFound); }
      if !Outstanding(rows, (host, guest)) { return Some(InviteNotFound); }
      RemoveGood(accounts.Keys, rows, addrOf, (host, guest));
      rows, err := Remove(rows, (host, guest)), None;
    }

    method DeclineInvite(host: Npub, guest: Npub) returns (err: Option<Error>)
      requires Valid()
      modifies `rows
      ensures Valid() && Did(old(Value()), Decline(host, guest), err)
      ensures err.None? ==> Outstanding(old(rows), (host, guest)) && (host, guest) !in rows
      ensures forall a :: SameActive(old(rows), rows, a)
    {
      StepSound(Value(), Decline(host, guest), addrOf, maxGuests);
      if !Outstanding(rows, (host, guest)) { return Some(InviteNotFound); }
      RemoveGood(accounts.Keys, rows, addrOf, (host, guest));
      rows, err := Remove(rows, (host, guest)), None;
    }

    method AcceptInvite(host: Npub, guest: Npub, now: Time) returns (err: Option<Error>)
      requires Valid()
      modifies `rows
      ensures Valid() && Did(old(Value()), Accept(host, guest, now), err)
      ensures err.None? ==> host in accounts && accounts[host]
      ensures err.None? ==> exists g :: g in grants && g.ent.acct == host && g.ent.starts <= now <= g.ent.expires
                                        && (g.ent.kind.TimePass? || g.ent.used < g.ent.volume)
      ensures err.None? ==> forall j :: ActiveFor(rows, j, addrOf(guest)) <==> j == (host, guest)
      ensures err.Some? ==> rows == old(rows)
    {
      var k := (host, guest);
      if !(host in accounts && accounts[host] && Outstanding(rows, k) && rows[k].enabled) { return Some(InviteNotFound); }
      if !Entitled(grants, host, now) { return Some(NoActiveEntitlement); }
      ActivateRowTx(k);
      err := None;
    }

    method ActivateOwner(n: Npub) returns (err: Option<Error>)
      requires Valid()
      modifies `rows
      ensures Valid() && Did(old(Value()), UseOwn(n), err)
      ensures err.None? && OwnsRow(n) ==> forall j :: ActiveFor(rows, j, addrOf(n)) <==> j == (n, n)
    {
      if n !in accounts { return Some(AccountNotFound); }
      ActivateOwnerTx(n);
      err := None;
    }

    method SetWhitelistEnabled(host: Npub, guest: Npub, on: bool) returns (err: Option<Error>)
      requires Valid()
      modifies `rows
      ensures Valid() && Did(old(Value()), Switch(host, guest, on), err)
    {
      StepSound(Value(), Switch(host, guest, on), addrOf, maxGuests);
      var k := (host, guest);
      err := None;
      if host !in accounts { return Some(AccountNotFound); }
      if !on && Outstanding(rows, k) {
        rows := Remove(rows, k);
        return;
      }
      if k !in rows { return; }
      var a := rows[k].addr;
      ghost var before := Value();
      var toggled := Write(Toggle(rows, k, on));
      if !toggled { return Some(IndexViolation); }
      if !on {
        SwitchOffGood(accounts.Keys, before.rows, addrOf, k);
        var home := Write(SendHome(rows, a));
        assert home;
      }
    }

    /** A credited volume or time pass, in its own transaction after the account exists. */
    method CreditTx(n: Npub, kind: B.Kind, volume: nat, now: Time, expires: Time) returns (err: Option<Error>)
      requires Valid()
      modifies `rows, `grants
      ensures Valid() && Did(old(Value()), Credit(n, kind, volume, now, expires), err)
      ensures err.None? <==> n in accounts
      ensures err.None? && now <= expires && (kind.TimePass? || volume > 0) ==> Entitled(grants, n, now)
      ensures err.None? && OwnsRow(n) ==> forall j :: ActiveFor(rows, j, addrOf(n)) <==> j == (n, n)
    {
      if n !in accounts { return Some(AccountNotFound); }
      var g := Grant(None, B.Ent(n, kind, volume, 0, now, expires));
      grants := grants + [g];
      assert g in grants;
      ActivateOwnerTx(n);
      err := None;
    }

    /** Credit for an npub that may be new: its account is opened first, in separate
        statements, and then credited. It fails only when its address is another's,
        and then nothing changes. */
    method CreditAccount(n: Npub, kind: B.Kind, volume: nat, now: Time, expires: Time) returns (err: Option<Error>)
      requires Valid()
      modifies `accounts, `rows, `grants
      ensures Valid()
      ensures err.None? <==> n in old(accounts) || forall m :: m in old(accounts) ==> addrOf(m) != addrOf(n)
      ensures err.Some? ==> Value() == old(Value())
      ensures var made := Next(Next(old(Value()), OpenAccount(n), addrOf, maxGuests), OwnerRow(n), addrOf, maxGuests);
              err.None? ==> Value() == Next(made, Credit(n, kind, volume, now, expires), addrOf, maxGuests)
      ensures err.None? && now <= expires && (kind.TimePass? || volume > 0) ==> Entitled(grants, n, now)
      ensures err.None? && OwnsRow(n) ==> forall j :: ActiveFor(rows, j, addrOf(n)) <==> j == (n, n)
    {
      err := CreateAccount(n);
      if err.Some? { return; }
      err := CreditTx(n, kind, volume, now, expires);
    }

    method MarkProcessing(id: nat) returns (err: Option<Error>)
      requires Valid()
      modifies `purchases
      ensures Valid() && Did(old(Value()), Seen(id), err)
      ensures err.None? ==> id in purchases && !purchases[id].status.Pending?
    {
      if id !in purchases { return Some(PurchaseNotFound); }
      if purchases[id].status.Pending? {
        purchases := purchases[id := purchases[id].(status := Processing)];
      }
      err := None;
    }

    method GrantEntitlementTx(id: nat, now: Time)
      requires Valid() && id in purchases && !purchases[id].status.Settled?
      modifies `rows, `grants, `purchases
      ensures Valid() && Value() == Next(old(Value()), Paid(id, now), addrOf, maxGuests)
      ensures IsSettled(Value(), id) && HasGrant(grants, id)
      ensures var p := old(purchases)[id];
              grants == if old(HasGrant(grants, id)) then old(grants)
                        else old(grants) + [Grant(Some(id), B.Ent(p.acct, p.kind, p.volume, 0, now, now + 86400 * p.days))]
    {
      var p := purchases[id];
      if !HasGrant(grants, id) {
        grants := grants + [Bought(p, id, now)];
        assert Bought(p, id, now) in grants;
        ActivateOwnerTx(p.acct);
      }
      purchases := purchases[id := p.(status := Settled)];
    }

    /** The same transaction serves the invoice webhook and the operator's settle. */
    method GrantByInvoice(id: nat, now: Time) returns (err: Option<Error>)
      requires Valid()
      modifies `rows, `grants, `purchases
      ensures Valid() && Did(old(Value()), Paid(id, now), err)
      ensures err.None? ==> IsSettled(Value(), id)
      ensures IsSettled(old(Value()), id) ==> Value() == old(Value())
      ensures err.None? && !IsSettled(old(Value()), id) ==> HasGrant(grants, id)
    {
      if id !in purchases { return Some(PurchaseNotFound); }
      if !purchases[id].status.Settled? {
        GrantEntitlementTx(id, now);
      }
      err := None;
    }

    method DeleteGrants(id: nat)
      modifies `grants
      ensures grants == WithoutGrant(old(grants), id)
    {
      var kept: seq<Grant> := [];
      for n := 0 to |grants|
        invariant grants == old(grants)
        invariant kept == WithoutGrant(grants[..n], id)
      {
        assert grants[..n + 1][..n] == grants[..n];
        if grants[n].purchase != Some(id) {
          kept := kept + [grants[n]];
        }
      }
      assert grants[..|grants|] == grants;
      grants := kept;
    }

    method VoidByInvoice(id: nat, status: Status) returns (err: Option<Error>)
      requires Valid() && (status.Invalid? || status.Expired?)
      modifies `grants, `purchases
      ensures Valid() && Did(old(Value()), Void(id, status), err)
      ensures IsSettled(old(Value()), id) ==> Value() == old(Value())
      ensures err.None? && !IsSettled(old(Value()), id) ==> !HasGrant(grants, id) && purchases[id].status == status
    {
      if id !in purchases { return Some(PurchaseNotFound); }
      err := None;
      if purchases[id].status.Settled? { return; }
      CountWithout(grants, id, id);
      CountHas(WithoutGrant(grants, id), id);
      DeleteGrants(id);
      purchases := purchases[id := purchases[id].(status := status)];
    }
  }
}
