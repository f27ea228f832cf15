/** Accounts, whitelist, entitlements and purchases as one database, every run of
    its operations, and what those runs keep (backend/store/admin.go,
    backend/store/whitelist.go, backend/store/packages.go, backend/store/payments.go). */
module Accounts {
  import opened AuthzLog
  import opened Whitelist
  import B = Billing

  datatype Status = Pending | Processing | Settled | Invalid | Expired
  datatype Purchase = Purchase(acct: Npub, kind: B.Kind, volume: nat, days: nat, status: Status)

  /** An entitlements row; the purchase column is unique. */
  datatype Grant = Grant(purchase: Option<nat>, ent: B.Ent)

  /** `accounts` says of each account whether its status is active. */
  datatype Db = Db(accounts: map<Npub, bool>, rows: Rows, grants: seq<Grant>, purchases: map<nat, Purchase>)

  datatype Error =
    | AccountNotFound | AddressTaken | IndexViolation | SelfWhitelist
    | NoActiveEntitlement | GuestLimit | InviteNotFound | PurchaseNotFound

  datatype Result = Ok(db: Db) | Err(error: Error)

  /** Opening an account takes two statements, so they are two operations. */
  datatype Op =
    | OpenAccount(n: Npub)
    | OwnerRow(n: Npub)
    | SetStatus(n: Npub, active: bool)
    | Attach(host: Npub, guest: Npub)
    | Ask(host: Npub, guest: Npub, now: Time)
    | Withdraw(host: Npub, guest: Npub)
    | Accept(host: Npub, guest: Npub, now: Time)
    | Decline(host: Npub, guest: Npub)
    | UseOwn(n: Npub)
    | Switch(host: Npub, guest: Npub, on: bool)
    | Credit(n: Npub, kind: B.Kind, volume: nat, now: Time, expires: Time)
    | Buy(id: nat, purchase: Purchase)
    | Seen(id: nat)
    | Paid(id: nat, now: Time)
    | Void(id: nat, status: Status)
    | Consume(row: nat, used: nat)

  const DAY: Time := 24 * 3600

  predicate Entitled(grants: seq<Grant>, n: Npub, now: Time) {
    exists g :: g in grants && g.ent.acct == n && B.Current(g.ent, now)
  }

  function GuestsOf(rows: Rows, n: Npub): set<Key> {
    set k | k in rows && k.0 == n && rows[k].role.Guest? && rows[k].enabled
  }

  predicate HasGrant(grants: seq<Grant>, p: nat) { exists g :: g in grants && g.purchase == Some(p) }

  function WithoutGrant(grants: seq<Grant>, p: nat): seq<Grant> {
    if grants == [] then []
    else
      var rest, last := WithoutGrant(grants[..|grants| - 1], p), grants[|grants| - 1];
      if last.purchase == Some(p) then rest else rest + [last]
  }

  // --- the operations -------------------------------------------------------------------------

  function DoInvite(db: Db, host: Npub, guest: Npub, now: Time, addrOf: Npub -> Addr, maxGuests: nat): Result {
    var k := (host, guest);
    if host !in db.accounts then Err(AccountNotFound)
    else if addrOf(guest) == addrOf(host) then Err(SelfWhitelist)
    else if !Entitled(db.grants, host, now) then Err(NoActiveEntitlement)
    else if k !in db.rows && |GuestsOf(db.rows, host)| >= maxGuests then Err(GuestLimit)
    else Ok(db.(rows := Invite(db.rows, k, addrOf(guest))))
  }

  function DoAccept(db: Db, host: Npub, guest: Npub, now: Time): Result {
    var k := (host, guest);
    if !(host in db.accounts && db.accounts[host] && Outstanding(db.rows, k) && db.rows[k].enabled) then Err(InviteNotFound)
    else if !Entitled(db.grants, host, now) then Err(NoActiveEntitlement)
    else Ok(db.(rows := ActivateRow(db.rows, k)))
  }

  function DoAttach(db: Db, host: Npub, guest: Npub, addrOf: Npub -> Addr): Result {
    if host !in db.accounts then Err(AccountNotFound)
    else
      var rows := Upsert(db.rows, (host, guest), addrOf(guest));
      if Indexed(rows) then Ok(db.(rows := rows)) else Err(IndexViolation)
  }

  function DoSwitch(db: Db, host: Npub, guest: Npub, on: bool): Result {
    var k := (host, guest);
    if host !in db.accounts then Err(AccountNotFound)
    else if !on && Outstanding(db.rows, k) then Ok(db.(rows := Remove(db.rows, k)))
    else if k !in db.rows then Ok(db)
    else
      var rows := Toggle(db.rows, k, on);
      if !Indexed(rows) then Err(IndexViolation)
      else Ok(db.(rows := if on then rows else SendHome(rows, db.rows[k].addr)))
  }

  /** The entitlement a purchase brings, counted from the moment of the grant. */
  function Bought(p: Purchase, id: nat, now: Time): Grant {
    Grant(Some(id), B.Ent(p.acct, p.kind, p.volume, 0, now, now + p.days * DAY))
  }

  /** The owner row is activated only by the call that inserts the entitlement. */
  function DoPaid(db: Db, id: nat, now: Time): Result {
    if id !in db.purchases then Err(PurchaseNotFound)
    else
      var p := db.purchases[id];
      if p.status.Settled? then Ok(db)
      else
        var settled := db.(purchases := db.purchases[id := p.(status := Settled)]);
        if HasGrant(db.grants, id) then Ok(settled)
        else Ok(settled.(grants := db.grants + [Bought(p, id, now)], rows := ActivateOwner(db.rows, p.acct)))
  }

  function DoVoid(db: Db, id: nat, status: Status): Result {
    if id !in db.purchases then Err(PurchaseNotFound)
    else if db.purchases[id].status.Settled? then Ok(db)
    else Ok(db.(grants := WithoutGrant(db.grants, id), purchases := db.purchases[id := db.purchases[id].(status := status)]))
  }

  function DoSeen(db: Db, id: nat): Result {
    if id !in db.purchases then Err(PurchaseNotFound)
    else if !db.purchases[id].status.Pending? then Ok(db)
    else Ok(db.(purchases := db.purchases[id := db.purchases[id].(status := Processing)]))
  }

  function Do(db: Db, op: Op, addrOf: Npub -> Addr, maxGuests: nat): Result {
    match op
    case OpenAccount(n) =>
      if n in db.accounts then Ok(db)
      else if exists m :: m in db.accounts && addrOf(m) == addrOf(n) then Err(AddressTaken)
      else Ok(db.(accounts := db.accounts[n := true]))
    case OwnerRow(n) =>
      if n in db.accounts then Ok(db.(rows := AddOwner(db.rows, n, addrOf(n)))) else Err(AccountNotFound)
    case SetStatus(n, active) =>
      if n in db.accounts then Ok(db.(accounts := db.accounts[n := active])) else Err(AccountNotFound)
    case Attach(host, guest) => DoAttach(db, host, guest, addrOf)
    case Ask(host, guest, now) => DoInvite(db, host, guest, now, addrOf, maxGuests)
    case Withdraw(host, guest) =>
      if host !in db.accounts then Err(AccountNotFound)
      else if !Outstanding(db.rows, (host, guest)) then Err(InviteNotFound)
      else Ok(db.(rows := Remove(db.rows, (host, guest))))
    case Accept(host, guest, now) => DoAccept(db, host, guest, now)
    case Decline(host, guest) =>
      if !Outstanding(db.rows, (host, guest)) then Err(InviteNotFound) else Ok(db.(rows := Remove(db.rows, (host, guest))))
    case UseOwn(n) =>
      if n in db.accounts then Ok(db.(rows := ActivateOwner(db.rows, n))) else Err(AccountNotFound)
    case Switch(host, guest, on) => DoSwitch(db, host, guest, on)
    case Credit(n, kind, volume, now, expires) =>
      if n !in db.accounts then Err(AccountNotFound)
      else Ok(db.(grants := db.grants + [Grant(None, B.Ent(n, kind, volume, 0, now, expires))], rows := ActivateOwner(db.rows, n)))
    case Buy(id, p) =>
      if p.acct !in db.accounts then Err(AccountNotFound)
      else if id in db.purchases then Ok(db)
      else Ok(db.(purchases := db.purchases[id := p.(status := Pending)]))
    case Seen(id) => DoSeen(db, id)
    case Paid(id, now) => DoPaid(db, id, now)
    case Void(id, status) => DoVoid(db, id, status)
    case Consume(i, used) =>
      if i < |db.grants| then Ok(db.(grants := db.grants[i := db.grants[i].(ent := db.grants[i].ent.(used := used))])) else Ok(db)
  }

  /** A failed operation is rolled back. A void names one of the two void states. */
  function Next(db: Db, op: Op, addrOf: Npub -> Addr, maxGuests: nat): Db {
    if op.Void? && !op.status.Invalid? && !op.status.Expired? then db
    else
      var r := Do(db, op, addrOf, maxGuests);
      if r.Ok? then r.db else db
  }

  function After(ops: seq<Op>, addrOf: Npub -> Addr, maxGuests: nat): Db {
    if ops == [] then Db(map[], map[], [], map[])
    else Next(After(ops[..|ops| - 1], addrOf, maxGuests), ops[|ops| - 1], addrOf, maxGuests)
  }

  lemma AfterSnoc(ops: seq<Op>, op: Op, addrOf: Npub -> Addr, maxGuests: nat)
    ensures After(ops + [op], addrOf, maxGuests) == Next(After(ops, addrOf, maxGuests), op, addrOf, maxGuests)
  {
    assert (ops + [op])[..|ops|] == ops;
  }

  // --- attribution over every run ----------------------------------------------------------------

  predicate Sound(db: Db, addrOf: Npub -> Addr) { Good(db.accounts.Keys, db.rows, addrOf) }

  lemma OpenSound(db: Db, n: Npub, addrOf: Npub -> Addr, maxGuests: nat)
    requires Sound(db, addrOf)
    ensures Sound(Next(db, OpenAccount(n), addrOf, maxGuests), addrOf)
  {
    var db' := Next(db, OpenAccount(n), addrOf, maxGuests);
    assert forall m :: m in db'.accounts ==> m in db.accounts || m == n;
  }

  lemma SwitchSound(db: Db, host: Npub, guest: Npub, on: bool, addrOf: Npub -> Addr, maxGuests: nat)
    requires Sound(db, addrOf)
    ensures Sound(Next(db, Switch(host, guest, on), addrOf, maxGuests), addrOf)
  {
    var k := (host, guest);
    if !on && Outstanding(db.rows, k) {
      RemoveGood(db.accounts.Keys, db.rows, addrOf, k);
    } else if k in db.rows {
      if on {
        SwitchOnIff(db.accounts.Keys, db.rows, addrOf, k);
      } else {
        SwitchOffGood(db.accounts.Keys, db.rows, addrOf, k);
      }
    }
  }

  lemma StepSound(db: Db, op: Op, addrOf: Npub -> Addr, maxGuests: nat)
    requires Sound(db, addrOf)
    ensures Sound(Next(db, op, addrOf, maxGuests), addrOf)
  {
    var accounts := db.accounts.Keys;
    match op
    case OpenAccount(n) => OpenSound(db, n, addrOf, maxGuests);
    case OwnerRow(n) => if n in accounts { AddOwnerGood(accounts, db.rows, addrOf, n); }
    case SetStatus(n, active) => assert n in accounts ==> db.accounts[n := active].Keys == accounts;
    case Attach(host, guest) => if host in accounts { UpsertIff(accounts, db.rows, addrOf, (host, guest)); }
    case Ask(host, guest, now) =>
      if host in accounts && addrOf(guest) != addrOf(host) { InviteGood(accounts, db.rows, addrOf, (host, guest)); }
    case Withdraw(host, guest) => if Outstanding(db.rows, (host, guest)) { RemoveGood(accounts, db.rows, addrOf, (host, guest)); }
    case Decline(host, guest) => if Outstanding(db.rows, (host, guest)) { RemoveGood(accounts, db.rows, addrOf, (host, guest)); }
    case Accept(host, guest, now) => if (host, guest) in db.rows { ActivateRowTakes(accounts, db.rows, addrOf, (host, guest)); }
    case UseOwn(n) => ActivateOwnerGood(accounts, db.rows, addrOf, n);
    case Credit(n, _, _, _, _) => ActivateOwnerGood(accounts, db.rows, addrOf, n);
    case Paid(id, _) => if id in db.purchases { ActivateOwnerGood(accounts, db.rows, addrOf, db.purchases[id].acct); }
    case Switch(host, guest, on) => SwitchSound(db, host, guest, on, addrOf, maxGuests);
    case Buy(_, _) =>
    case Seen(_) =>
    case Void(_, _) =>
    case Consume(_, _) =>
  }

  /** On every run an address is active on at most one account, owner rows are
      never pending, and an address with an owner row is active exactly once. */
  lemma {:induction false} OneActiveRow(ops: seq<Op>, addrOf: Npub -> Addr, maxGuests: nat)
    ensures var rows := After(ops, addrOf, maxGuests).rows;
            && (forall j, k, a :: ActiveFor(rows, j, a) && ActiveFor(rows, k, a) ==> j == k)
            && (forall k :: k in rows && rows[k].role.Owner? ==> !rows[k].pending && HasActive(rows, rows[k].addr))
    ensures Sound(After(ops, addrOf, maxGuests), addrOf)
  {
    if ops != [] {
      OneActiveRow(ops[..|ops| - 1], addrOf, maxGuests);
      StepSound(After(ops[..|ops| - 1], addrOf, maxGuests), ops[|ops| - 1], addrOf, maxGuests);
    }
  }

  /** The index refuses exactly two things: adding a guest whose address is active
      in another row, and switching on an owner row parked behind one. */
  lemma RefusedIff(db: Db, op: Op, addrOf: Npub -> Addr, maxGuests: nat)
    requires Sound(db, addrOf)
    ensures Do(db, op, addrOf, maxGuests) == Err(IndexViolation) <==>
            || (op.Attach? && op.host in db.accounts
                && exists j :: j != (op.host, op.guest) && ActiveFor(db.rows, j, addrOf(op.guest)))
            || (op.Switch? && op.on && (op.host, op.guest) in db.rows && db.rows[(op.host, op.guest)].role.Owner?
                && ActiveElsewhere(db.rows, (op.host, op.guest)))
  {
    if op.Attach? && op.host in db.accounts {
      UpsertIff(db.accounts.Keys, db.rows, addrOf, (op.host, op.guest));
    } else if op.Switch? && (op.host, op.guest) in db.rows {
      if op.on {
        SwitchOnIff(db.accounts.Keys, db.rows, addrOf, (op.host, op.guest));
      } else if !Outstanding(db.rows, (op.host, op.guest)) {
        SwitchOffGood(db.accounts.Keys, db.rows, addrOf, (op.host, op.guest));
      }
    }
  }

  // --- who moves an address ----------------------------------------------------------------------

  /** The operation activates the account's own row. */
  predicate OwnChoice(db: Db, op: Op, n: Npub) {
    (op.UseOwn? && op.n == n) || (op.Credit? && op.n == n) || (op.Paid? && op.id in db.purchases && db.purchases[op.id].acct == n)
  }

  /** Inviting, withdrawing and declining leave every attribution alone. */
  lemma InvitesMoveNothing(db: Db, op: Op, addrOf: Npub -> Addr, maxGuests: nat, a: Addr)
    requires Sound(db, addrOf) && (op.Ask? || op.Withdraw? || op.Decline?)
    ensures SameActive(db.rows, Next(db, op, addrOf, maxGuests).rows, a)
  {
    var k := (op.host, op.guest);
    if Outstanding(db.rows, k) {
      RemoveGood(db.accounts.Keys, db.rows, addrOf, k);
    }
    if op.Ask? && op.host in db.accounts && addrOf(op.guest) != addrOf(op.host) {
      InviteGood(db.accounts.Keys, db.rows, addrOf, k);
    }
  }

  /** An attributed address leaves its row only when its npub accepts elsewhere,
      when its own account is chosen or paid for, or when the row is switched off;
      and in that last case it goes to its owner's row or nowhere. */
  lemma MovesOnlyBy(db: Db, op: Op, addrOf: Npub -> Addr, maxGuests: nat, a: Addr, j: Key)
    requires Sound(db, addrOf) && ActiveFor(db.rows, j, a) && !ActiveFor(Next(db, op, addrOf, maxGuests).rows, j, a)
    ensures var rows := Next(db, op, addrOf, maxGuests).rows;
            || (op.Accept? && addrOf(op.guest) == a && ActiveFor(rows, (op.host, op.guest), a))
            || (exists n :: OwnChoice(db, op, n) && addrOf(n) == a && ActiveFor(rows, (n, n), a))
            || (op.Switch? && !op.on && (op.host, op.guest) == j
                && forall k :: ActiveFor(rows, k, a) ==> k.0 == k.1 && rows[k].role.Owner?)
  {
    if op.Accept? {
      ActivateRowTakes(db.accounts.Keys, db.rows, addrOf, (op.host, op.guest));
      TakenFrom(db.rows, ActivateRow(db.rows, (op.host, op.guest)), (op.host, op.guest), a, j);
    } else if op.Switch? {
      SwitchMoves(db, op.host, op.guest, op.on, addrOf, a, j);
    } else if op.UseOwn? || op.Credit? {
      OwnTakes(db, op, addrOf, a, j, op.n);
    } else if op.Paid? {
      OwnTakes(db, op, addrOf, a, j, db.purchases[op.id].acct);
    } else {
      StaysPut(db, op, addrOf, maxGuests, a, j);
    }
  }

  /** Everything else leaves an attributed address where it is. */
  lemma StaysPut(db: Db, op: Op, addrOf: Npub -> Addr, maxGuests: nat, a: Addr, j: Key)
    requires Sound(db, addrOf) && ActiveFor(db.rows, j, a)
    requires !op.Accept? && !op.Switch? && !op.UseOwn? && !op.Credit? && !op.Paid?
    ensures ActiveFor(Next(db, op, addrOf, maxGuests).rows, j, a)
  {
    if op.Ask? || op.Withdraw? || op.Decline? {
      InvitesMoveNothing(db, op, addrOf, maxGuests, a);
    }
  }

  lemma TakenFrom(before: Rows, after: Rows, k: Key, a: Addr, j: Key)
    requires Takes(before, after, k) && ActiveFor(before, j, a) && !ActiveFor(after, j, a)
    ensures before[k].addr == a && ActiveFor(after, k, a)
  {
    assert before[k].addr != a ==> SameActive(before, after, a);
  }

  lemma OwnTakes(db: Db, op: Op, addrOf: Npub -> Addr, a: Addr, j: Key, n: Npub)
    requires Sound(db, addrOf) && OwnChoice(db, op, n)
    requires ActiveFor(db.rows, j, a) && !ActiveFor(ActivateOwner(db.rows, n), j, a)
    ensures OwnChoice(db, op, n) && addrOf(n) == a && ActiveFor(ActivateOwner(db.rows, n), (n, n), a)
  {
    ActivateRowTakes(db.accounts.Keys, db.rows, addrOf, (n, n));
    TakenFrom(db.rows, ActivateOwner(db.rows, n), (n, n), a, j);
  }

  lemma SwitchMoves(db: Db, host: Npub, guest: Npub, on: bool, addrOf: Npub -> Addr, a: Addr, j: Key)
    requires Sound(db, addrOf) && ActiveFor(db.rows, j, a) && DoSwitch(db, host, guest, on).Ok?
    requires !ActiveFor(DoSwitch(db, host, guest, on).db.rows, j, a)
    ensures !on && (host, guest) == j
    ensures forall k :: ActiveFor(DoSwitch(db, host, guest, on).db.rows, k, a) ==>
              k.0 == k.1 && DoSwitch(db, host, guest, on).db.rows[k].role.Owner?
  {
    var k := (host, guest);
    assert k in db.rows && !on && k == j;
    var off := Toggle(db.rows, k, false);
    assert forall i :: ActiveFor(off, i, a) ==> ActiveFor(db.rows, i, a) && i != k;
    assert !HasActive(off, a);
  }

  /** After the account's own choice its owner row is the active one. */
  lemma OwnChoiceSettles(db: Db, op: Op, addrOf: Npub -> Addr, maxGuests: nat, n: Npub)
    requires Sound(db, addrOf) && n in db.accounts && (n, n) in db.rows && db.rows[(n, n)].role.Owner?
    requires (op.UseOwn? && op.n == n) || (op.Credit? && op.n == n)
             || (op.Paid? && op.id in db.purchases && db.purchases[op.id].acct == n
                 && !db.purchases[op.id].status.Settled? && !HasGrant(db.grants, op.id))
    ensures forall k :: ActiveFor(Next(db, op, addrOf, maxGuests).rows, k, addrOf(n)) <==> k == (n, n)
  {
    ActivateRowTakes(db.accounts.Keys, db.rows, addrOf, (n, n));
  }

  /** An acceptance goes through exactly when the host's status is active, the invitation
      is outstanding and enabled, and the host has an entitlement that runs and is a pass
      or not used up; for want of the last alone it is refused as unentitled. */
  lemma AcceptsIff(db: Db, host: Npub, guest: Npub, now: Time, addrOf: Npub -> Addr, maxGuests: nat)
    ensures var r, k := Do(db, Accept(host, guest, now), addrOf, maxGuests), (host, guest);
            var open := host in db.accounts && db.accounts[host]
                        && k in db.rows && db.rows[k].role.Guest? && db.rows[k].pending && db.rows[k].enabled;
            var paid := exists g :: g in db.grants && g.ent.acct == host && g.ent.starts <= now <= g.ent.expires
                                    && (g.ent.kind.TimePass? || g.ent.used < g.ent.volume);
            && (r.Ok? <==> open && paid)
            && (r == Err(NoActiveEntitlement) <==> open && !paid)
            && (r == Err(InviteNotFound) <==> !open)
  {
    assert Entitled(db.grants, host, now) <==> exists g :: g in db.grants && g.ent.acct == host && B.Current(g.ent, now);
  }

  // --- consent ------------------------------------------------------------------------------------

  predicate Accepted(rows: Rows, k: Key) { k in rows && rows[k].role.Guest? && !rows[k].pending }

  /** The keys whose guest accepted, or whom an operator added, since the row was
      last missing or pending. */
  function Consents(ops: seq<Op>, addrOf: Npub -> Addr, maxGuests: nat): set<Key> {
    if ops == [] then {}
    else
      var op, rows := ops[|ops| - 1], After(ops, addrOf, maxGuests).rows;
      var said := Consents(ops[..|ops| - 1], addrOf, maxGuests) + if op.Accept? || op.Attach? then {(op.host, op.guest)} else {};
      set k | k in said && k in rows && !rows[k].pending
  }

  /** A guest row comes out of waiting, or into being without it, only by the
      guest's acceptance or the operator's addition. */
  lemma NewlyAccepted(db: Db, op: Op, addrOf: Npub -> Addr, maxGuests: nat, k: Key)
    requires Sound(db, addrOf) && Accepted(Next(db, op, addrOf, maxGuests).rows, k)
    ensures Accepted(db.rows, k) || ((op.Accept? || op.Attach?) && k == (op.host, op.guest))
  {
    if op.Switch? {
      SwitchAccepts(db, op, addrOf, maxGuests, k);
    } else if op.Accept? {
      ActivateAccepts(db, op, addrOf, maxGuests, k);
    } else if op.UseOwn? || op.Credit? || op.Paid? {
      OwnAccepts(db, op, addrOf, maxGuests, k);
    } else if op.OwnerRow? || op.Attach? || op.Ask? || op.Withdraw? || op.Decline? {
      InsertAccepts(db, op, addrOf, maxGuests, k);
    } else {
      RowsUntouched(db, op, addrOf, maxGuests);
    }
  }

  lemma RowsUntouched(db: Db, op: Op, addrOf: Npub -> Addr, maxGuests: nat)
    requires op.OpenAccount? || op.SetStatus? || op.Buy? || op.Seen? || op.Void? || op.Consume?
    ensures Next(db, op, addrOf, maxGuests).rows == db.rows
  {
  }

  lemma InsertAccepts(db: Db, op: Op, addrOf: Npub -> Addr, maxGuests: nat, k: Key)
    requires op.OwnerRow? || op.Attach? || op.Ask? || op.Withdraw? || op.Decline?
    requires Accepted(Next(db, op, addrOf, maxGuests).rows, k)
    ensures Accepted(db.rows, k) || (op.Attach? && k == (op.host, op.guest))
  {
  }

  lemma ActivateAccepts(db: Db, op: Op, addrOf: Npub -> Addr, maxGuests: nat, k: Key)
    requires op.Accept? && Accepted(Next(db, op, addrOf, maxGuests).rows, k)
    ensures Accepted(db.rows, k) || k == (op.host, op.guest)
  {
  }

  lemma OwnAccepts(db: Db, op: Op, addrOf: Npub -> Addr, maxGuests: nat, k: Key)
    requires (op.UseOwn? || op.Credit? || op.Paid?) && Accepted(Next(db, op, addrOf, maxGuests).rows, k)
    ensures Accepted(db.rows, k)
  {
  }

  lemma SwitchAccepts(db: Db, op: Op, addrOf: Npub -> Addr, maxGuests: nat, k: Key)
    requires op.Switch? && Accepted(Next(db, op, addrOf, maxGuests).rows, k)
    ensures Accepted(db.rows, k)
  {
  }

  /** No run attaches an identity without its say-so. */
  lemma {:induction false} NeverWithoutConsent(ops: seq<Op>, addrOf: Npub -> Addr, maxGuests: nat, k: Key)
    requires Accepted(After(ops, addrOf, maxGuests).rows, k)
    ensures k in Consents(ops, addrOf, maxGuests)
  {
    if ops != [] {
      var before := After(ops[..|ops| - 1], addrOf, maxGuests);
      OneActiveRow(ops[..|ops| - 1], addrOf, maxGuests);
      NewlyAccepted(before, ops[|ops| - 1], addrOf, maxGuests, k);
      if Accepted(before.rows, k) {
        NeverWithoutConsent(ops[..|ops| - 1], addrOf, maxGuests, k);
      }
    }
  }

  // --- the guest cap ------------------------------------------------------------------------------------

  lemma {:induction false} Fewer<T>(a: set<T>, b: set<T>)
    requires a <= b
    ensures |a| <= |b|
  {
    if a != {} {
      var x :| x in a;
      Fewer(a - {x}, b - {x});
    }
  }

  /** The operation enables a guest row of the account that was missing or disabled. */
  predicate Enrolls(db: Db, op: Op, n: Npub, addrOf: Npub -> Addr, maxGuests: nat) {
    && (op.Ask? || op.Attach? || (op.Switch? && op.on))
    && op.host == n && Do(db, op, addrOf, maxGuests).Ok?
    && var k := (op.host, op.guest);
       if k in db.rows then db.rows[k].role.Guest? && !db.rows[k].enabled else !op.Switch?
  }

  lemma EnrollsOne(db: Db, op: Op, n: Npub, addrOf: Npub -> Addr, maxGuests: nat)
    requires Enrolls(db, op, n, addrOf, maxGuests)
    ensures (op.host, op.guest) !in GuestsOf(db.rows, n)
    ensures GuestsOf(Next(db, op, addrOf, maxGuests).rows, n) == GuestsOf(db.rows, n) + {(op.host, op.guest)}
  {
  }

  lemma OwnGuests(rows: Rows, m: Npub, n: Npub)
    ensures GuestsOf(ActivateOwner(rows, m), n) <= GuestsOf(rows, n)
  {
  }

  lemma AcceptGuests(db: Db, op: Op, n: Npub, addrOf: Npub -> Addr, maxGuests: nat)
    requires op.Accept?
    ensures GuestsOf(Next(db, op, addrOf, maxGuests).rows, n) <= GuestsOf(db.rows, n)
  {
  }

  lemma SwitchGuests(db: Db, op: Op, n: Npub, addrOf: Npub -> Addr, maxGuests: nat)
    requires op.Switch? && !Enrolls(db, op, n, addrOf, maxGuests)
    ensures GuestsOf(Next(db, op, addrOf, maxGuests).rows, n) <= GuestsOf(db.rows, n)
  {
  }

  lemma InsertGuests(db: Db, op: Op, n: Npub, addrOf: Npub -> Addr, maxGuests: nat)
    requires op.OwnerRow? || op.Attach? || op.Ask? || op.Withdraw? || op.Decline?
    requires !Enrolls(db, op, n, addrOf, maxGuests)
    ensures GuestsOf(Next(db, op, addrOf, maxGuests).rows, n) <= GuestsOf(db.rows, n)
  {
  }

  lemma NoOtherEnrolls(db: Db, op: Op, n: Npub, addrOf: Npub -> Addr, maxGuests: nat)
    requires !Enrolls(db, op, n, addrOf, maxGuests)
    ensures GuestsOf(Next(db, op, addrOf, maxGuests).rows, n) <= GuestsOf(db.rows, n)
  {
    if op.Switch? {
      SwitchGuests(db, op, n, addrOf, maxGuests);
    } else if op.Accept? {
      AcceptGuests(db, op, n, addrOf, maxGuests);
    } else if op.UseOwn? || op.Credit? {
      OwnGuests(db.rows, op.n, n);
    } else if op.Paid? {
      if op.id in db.purchases { OwnGuests(db.rows, db.purchases[op.id].acct, n); }
    } else if op.OwnerRow? || op.Attach? || op.Ask? || op.Withdraw? || op.Decline? {
      InsertGuests(db, op, n, addrOf, maxGuests);
    } else {
      RowsUntouched(db, op, addrOf, maxGuests);
    }
  }

  predicate DisabledGuest(rows: Rows, k: Key) { k in rows && rows[k].role.Guest? && !rows[k].enabled }

  /** The guards under which the operation enables one more guest row without counting:
      an invitation of a guest whose row is disabled, an operator's addition that
      meets no other active row, or switching a disabled guest row on. */
  ghost predicate EnrollsUncounted(db: Db, op: Op, n: Npub, addrOf: Npub -> Addr) {
    && n in db.accounts
    && match op
       case Ask(host, guest, now) =>
         host == n && DisabledGuest(db.rows, (n, guest)) && addrOf(guest) != addrOf(n) && Entitled(db.grants, n, now)
       case Attach(host, guest) =>
         && host == n && ((n, guest) !in db.rows || DisabledGuest(db.rows, (n, guest)))
         && forall j :: ActiveFor(db.rows, j, addrOf(guest)) ==> j == (n, guest)
       case Switch(host, guest, on) => host == n && on && DisabledGuest(db.rows, (n, guest))
       case _ => false
  }

  lemma EnrollsIff(db: Db, op: Op, n: Npub, addrOf: Npub -> Addr, maxGuests: nat)
    requires Sound(db, addrOf)
    ensures Enrolls(db, op, n, addrOf, maxGuests) && (op.Ask? ==> (op.host, op.guest) in db.rows) <==> EnrollsUncounted(db, op, n, addrOf)
  {
    if op.Attach? && op.host in db.accounts {
      UpsertIff(db.accounts.Keys, db.rows, addrOf, (op.host, op.guest));
    } else if op.Switch? && op.on && (op.host, op.guest) in db.rows {
      SwitchOnIff(db.accounts.Keys, db.rows, addrOf, (op.host, op.guest));
    }
  }

  /** From at most the cap, an operation passes it if and only if the account is at
      the cap and the operation enables a guest row without counting: only an
      invitation that makes a new row is checked. */
  lemma CapPassedIff(db: Db, op: Op, n: Npub, addrOf: Npub -> Addr, maxGuests: nat)
    requires Sound(db, addrOf) && |GuestsOf(db.rows, n)| <= maxGuests
    ensures |GuestsOf(Next(db, op, addrOf, maxGuests).rows, n)| > maxGuests <==>
            |GuestsOf(db.rows, n)| == maxGuests && EnrollsUncounted(db, op, n, addrOf)
  {
    EnrollsIff(db, op, n, addrOf, maxGuests);
    if Enrolls(db, op, n, addrOf, maxGuests) {
      EnrollsOne(db, op, n, addrOf, maxGuests);
    } else {
      NoOtherEnrolls(db, op, n, addrOf, maxGuests);
      Fewer(GuestsOf(Next(db, op, addrOf, maxGuests).rows, n), GuestsOf(db.rows, n));
    }
  }

  function SelfAddr(n: Npub): Addr { n }

  lemma Go(ops: seq<Op>, db: Db, op: Op) returns (ops': seq<Op>, db': Db)
    requires db == After(ops, SelfAddr, 1)
    ensures ops' == ops + [op] && db' == After(ops', SelfAddr, 1) == Next(db, op, SelfAddr, 1)
  {
    ops', db' := ops + [op], Next(db, op, SelfAddr, 1);
    assert ops'[..|ops'| - 1] == ops;
  }

  const PASS := Grant(None, B.Ent(0, B.TimePass, 0, 0, 0, 1))
  const HOST := Entry(0, Owner, true, false)

  /** An account with a pass and its own row, nothing else. */
  function Host(rows: Rows): Db { Db(map[0 := true], map[(0, 0) := HOST] + rows, [PASS], map[]) }

  lemma HostOpens() returns (ops: seq<Op>)
    ensures After(ops, SelfAddr, 1) == Host(map[])
  {
    var db;
    ops, db := Go([], Db(map[], map[], [], map[]), OpenAccount(0));
    ops, db := Go(ops, db, OwnerRow(0));
    assert db.rows == map[(0, 0) := HOST];
    ops, db := Go(ops, db, Credit(0, B.TimePass, 0, 0, 1));
    assert db.rows == map[(0, 0) := HOST] + map[];
  }

  lemma HostIsEntitled(rows: Rows)
    ensures Entitled(Host(rows).grants, 0, 0)
  {
    assert PASS in Host(rows).grants;
  }

  /** With a cap of one: a guest accepts, is switched off, another is invited, and
      re-inviting the first makes two. */
  lemma CapIsNoInvariant() returns (ops: seq<Op>)
    ensures |GuestsOf(After(ops, SelfAddr, 1).rows, 0)| == 2
  {
    var db := Host(map[]);
    ops := HostOpens();
    FirstAsked();
    FirstAccepted();
    FirstSwitchedOff();
    ops, db := Go(ops, db, Ask(0, 1, 0));
    ops, db := Go(ops, db, Accept(0, 1, 0));
    ops, db := Go(ops, db, Switch(0, 1, false));
    SecondGuest();
    ops, db := Go(ops, db, Ask(0, 2, 0));
    ops, db := Go(ops, db, Ask(0, 1, 0));
  }

  /** The host with its first guest's row. */
  function Guested(enabled: bool, pending: bool): Db { Host(map[(0, 1) := Entry(1, Guest, enabled, pending)]) }

  lemma FirstAsked()
    ensures Next(Host(map[]), Ask(0, 1, 0), SelfAddr, 1) == Guested(true, true)
  {
    HostIsEntitled(map[]);
    assert GuestsOf(Host(map[]).rows, 0) == {};
    assert Invite(Host(map[]).rows, (0, 1), 1) == Guested(true, true).rows;
  }

  lemma FirstAccepted()
    ensures Next(Guested(true, true), Accept(0, 1, 0), SelfAddr, 1) == Guested(true, false)
  {
    HostIsEntitled(map[(0, 1) := Entry(1, Guest, true, true)]);
    assert ActivateRow(Guested(true, true).rows, (0, 1)) == Guested(true, false).rows;
  }

  lemma FirstSwitchedOff()
    ensures Next(Guested(true, false), Switch(0, 1, false), SelfAddr, 1) == Guested(false, false)
  {
    var off := Toggle(Guested(true, false).rows, (0, 1), false);
    assert off == Guested(false, false).rows;
    assert !HasActive(off, 1) && SendHome(off, 1) == off;
  }

  lemma SecondGuest()
    ensures var db := Next(Next(Guested(false, false), Ask(0, 2, 0), SelfAddr, 1), Ask(0, 1, 0), SelfAddr, 1);
            |GuestsOf(db.rows, 0)| == 2
  {
    var db := Guested(false, false);
    HostIsEntitled(map[(0, 1) := Entry(1, Guest, false, false)]);
    assert GuestsOf(db.rows, 0) == {};
    var db' := Next(Next(db, Ask(0, 2, 0), SelfAddr, 1), Ask(0, 1, 0), SelfAddr, 1);
    assert GuestsOf(db'.rows, 0) == {(0, 1), (0, 2)};
  }

  // --- purchases --------------------------------------------------------------------------------------

  function Count(grants: seq<Grant>, id: nat): nat {
    if grants == [] then 0
    else Count(grants[..|grants| - 1], id) + if grants[|grants| - 1].purchase == Some(id) then 1 else 0
  }

  predicate IsSettled(db: Db, id: nat) { id in db.purchases && db.purchases[id].status.Settled? }

  /** The purchase has its one entitlement exactly when it is settled. */
  predicate Paired(db: Db, id: nat) {
    Count(db.grants, id) == if IsSettled(db, id) then 1 else 0
  }

  lemma {:induction false} CountHas(grants: seq<Grant>, id: nat)
    ensures HasGrant(grants, id) <==> Count(grants, id) > 0
  {
    if grants != [] {
      var front, last := grants[..|grants| - 1], grants[|grants| - 1];
      CountHas(front, id);
      assert grants == front + [last];
      assert forall g :: g in grants <==> g in front || g == last;
    }
  }

  lemma {:induction false} CountWithout(grants: seq<Grant>, p: nat, id: nat)
    ensures Count(WithoutGrant(grants, p), id) == if id == p then 0 else Count(grants, id)
  {
    if grants != [] {
      var front, last := grants[..|grants| - 1], grants[|grants| - 1];
      CountWithout(front, p, id);
      assert (WithoutGrant(front, p) + [last])[..|WithoutGrant(front, p)|] == WithoutGrant(front, p);
    }
  }

  /** Rows may be drawn on: only `used` changes. */
  predicate SameTerms(before: seq<Grant>, after: seq<Grant>) {
    |after| == |before| && forall i :: 0 <= i < |before| ==>
      after[i] == before[i].(ent := before[i].ent.(used := after[i].ent.used))
  }

  lemma {:induction false} CountSame(before: seq<Grant>, after: seq<Grant>, id: nat)
    requires SameTerms(before, after)
    ensures Count(after, id) == Count(before, id)
  {
    if before != [] {
      CountSame(before[..|before| - 1], after[..|after| - 1], id);
      assert after[|before| - 1] == before[|before| - 1].(ent := before[|before| - 1].ent.(used := after[|before| - 1].ent.used));
    }
  }

  lemma CountSnoc(grants: seq<Grant>, g: Grant, id: nat)
    ensures Count(grants + [g], id) == Count(grants, id) + if g.purchase == Some(id) then 1 else 0
  {
    assert (grants + [g])[..|grants|] == grants;
  }

  predicate TouchesMoney(op: Op) { op.Paid? || op.Void? || op.Consume? || op.Credit? || op.Buy? || op.Seen? }

  lemma MoneyUntouched(db: Db, op: Op, addrOf: Npub -> Addr, maxGuests: nat)
    requires !TouchesMoney(op)
    ensures Next(db, op, addrOf, maxGuests).grants == db.grants && Next(db, op, addrOf, maxGuests).purchases == db.purchases
  {
  }

  /** The purchase's entitlements and status after an operation. */
  ghost predicate PairedNext(db: Db, db': Db, op: Op, id: nat) {
    && Paired(db', id)
    && (IsSettled(db', id) <==> IsSettled(db, id) || (op.Paid? && op.id == id && id in db.purchases))
  }

  lemma PaidPaired(db: Db, p: nat, now: Time, addrOf: Npub -> Addr, maxGuests: nat, id: nat)
    requires Paired(db, id) && Paired(db, p)
    ensures PairedNext(db, Next(db, Paid(p, now), addrOf, maxGuests), Paid(p, now), id)
  {
    if p in db.purchases {
      CountHas(db.grants, p);
      CountSnoc(db.grants, Bought(db.purchases[p], p, now), id);
    }
  }

  lemma VoidPaired(db: Db, p: nat, status: Status, addrOf: Npub -> Addr, maxGuests: nat, id: nat)
    requires Paired(db, id)
    ensures PairedNext(db, Next(db, Void(p, status), addrOf, maxGuests), Void(p, status), id)
  {
    CountWithout(db.grants, p, id);
  }

  lemma ConsumePaired(db: Db, i: nat, used: nat, addrOf: Npub -> Addr, maxGuests: nat, id: nat)
    requires Paired(db, id)
    ensures PairedNext(db, Next(db, Consume(i, used), addrOf, maxGuests), Consume(i, used), id)
  {
    if i < |db.grants| {
      CountSame(db.grants, db.grants[i := db.grants[i].(ent := db.grants[i].ent.(used := used))], id);
    }
  }

  lemma CreditPaired(db: Db, op: Op, addrOf: Npub -> Addr, maxGuests: nat, id: nat)
    requires Paired(db, id) && op.Credit?
    ensures PairedNext(db, Next(db, op, addrOf, maxGuests), op, id)
  {
    CountSnoc(db.grants, Grant(None, B.Ent(op.n, op.kind, op.volume, 0, op.now, op.expires)), id);
  }

  lemma PairedStep(db: Db, op: Op, addrOf: Npub -> Addr, maxGuests: nat, id: nat)
    requires Paired(db, id) && (op.Paid? ==> Paired(db, op.id))
    ensures PairedNext(db, Next(db, op, addrOf, maxGuests), op, id)
  {
    if op.Paid? {
      PaidPaired(db, op.id, op.now, addrOf, maxGuests, id);
    } else if op.Void? {
      VoidPaired(db, op.id, op.status, addrOf, maxGuests, id);
    } else if op.Consume? {
      ConsumePaired(db, op.row, op.used, addrOf, maxGuests, id);
    } else if op.Credit? {
      CreditPaired(db, op, addrOf, maxGuests, id);
    } else if !TouchesMoney(op) {
      MoneyUntouched(db, op, addrOf, maxGuests);
    }
  }

  /** Some grant or settle arrived for the purchase while it existed. */
  predicate GrantedIn(ops: seq<Op>, id: nat, addrOf: Npub -> Addr, maxGuests: nat) {
    ops != [] &&
    var front, last := ops[..|ops| - 1], ops[|ops| - 1];
    GrantedIn(front, id, addrOf, maxGuests) || (last.Paid? && last.id == id && id in After(front, addrOf, maxGuests).purchases)
  }

  lemma {:induction false} PairedRun(ops: seq<Op>, addrOf: Npub -> Addr, maxGuests: nat, id: nat)
    ensures Paired(After(ops, addrOf, maxGuests), id)
  {
    if ops != [] {
      var front, last := ops[..|ops| - 1], ops[|ops| - 1];
      PairedRun(front, addrOf, maxGuests, id);
      if last.Paid? {
        PairedRun(front, addrOf, maxGuests, last.id);
      }
      PairedStep(After(front, addrOf, maxGuests), last, addrOf, maxGuests, id);
    }
  }

  /** However its events are ordered and repeated, a purchase is settled, and has
      exactly one entitlement, if and only if a grant or settle ever arrived;
      otherwise it has none. */
  lemma {:induction false} SettledIffGranted(ops: seq<Op>, id: nat, addrOf: Npub -> Addr, maxGuests: nat)
    ensures IsSettled(After(ops, addrOf, maxGuests), id) <==> GrantedIn(ops, id, addrOf, maxGuests)
    ensures Count(After(ops, addrOf, maxGuests).grants, id) == if GrantedIn(ops, id, addrOf, maxGuests) then 1 else 0
  {
    PairedRun(ops, addrOf, maxGuests, id);
    if ops != [] {
      var front, last := ops[..|ops| - 1], ops[|ops| - 1];
      SettledIffGranted(front, id, addrOf, maxGuests);
      PairedRun(front, addrOf, maxGuests, id);
      if last.Paid? {
        PairedRun(front, addrOf, maxGuests, last.id);
      }
      PairedStep(After(front, addrOf, maxGuests), last, addrOf, maxGuests, id);
    }
  }

  /** Once granted, redelivered events for the purchase change nothing at all, so
      they cannot undo a choice made in between. */
  lemma RedeliveryChangesNothing(ops: seq<Op>, op: Op, id: nat, addrOf: Npub -> Addr, maxGuests: nat)
    requires GrantedIn(ops, id, addrOf, maxGuests)
    requires (op.Paid? || op.Seen? || op.Void?) && op.id == id
    ensures After(ops + [op], addrOf, maxGuests) == After(ops, addrOf, maxGuests)
  {
    SettledIffGranted(ops, id, addrOf, maxGuests);
    assert (ops + [op])[..|ops|] == ops;
  }

  /** The entitlement of the purchase, whatever has been drawn from it. */
  function TermsOf(grants: seq<Grant>, id: nat): Option<B.Ent> {
    if grants == [] then None
    else if grants[|grants| - 1].purchase == Some(id) then Some(grants[|grants| - 1].ent.(used := 0))
    else TermsOf(grants[..|grants| - 1], id)
  }

  lemma {:induction false} TermsSame(before: seq<Grant>, after: seq<Grant>, id: nat)
    requires SameTerms(before, after)
    ensures TermsOf(after, id) == TermsOf(before, id)
  {
    if before != [] {
      TermsSame(before[..|before| - 1], after[..|after| - 1], id);
      assert after[|before| - 1] == before[|before| - 1].(ent := before[|before| - 1].ent.(used := after[|before| - 1].ent.used));
    }
  }

  lemma {:induction false} TermsWithout(grants: seq<Grant>, p: nat, id: nat)
    requires p != id
    ensures TermsOf(WithoutGrant(grants, p), id) == TermsOf(grants, id)
  {
    if grants != [] {
      var front, last := grants[..|grants| - 1], grants[|grants| - 1];
      TermsWithout(front, p, id);
      assert (WithoutGrant(front, p) + [last])[..|WithoutGrant(front, p)|] == WithoutGrant(front, p);
    }
  }

  lemma TermsSnoc(grants: seq<Grant>, g: Grant, id: nat)
    ensures TermsOf(grants + [g], id) == if g.purchase == Some(id) then Some(g.ent.(used := 0)) else TermsOf(grants, id)
  {
    assert (grants + [g])[..|grants|] == grants;
  }

  lemma PaidTerms(db: Db, p: nat, now: Time, addrOf: Npub -> Addr, maxGuests: nat, id: nat)
    requires IsSettled(db, id)
    ensures TermsOf(Next(db, Paid(p, now), addrOf, maxGuests).grants, id) == TermsOf(db.grants, id)
  {
    if p in db.purchases {
      TermsSnoc(db.grants, Bought(db.purchases[p], p, now), id);
    }
  }

  lemma VoidTerms(db: Db, p: nat, status: Status, addrOf: Npub -> Addr, maxGuests: nat, id: nat)
    requires IsSettled(db, id)
    ensures TermsOf(Next(db, Void(p, status), addrOf, maxGuests).grants, id) == TermsOf(db.grants, id)
  {
    if p != id {
      TermsWithout(db.grants, p, id);
    }
  }

  lemma ConsumeTerms(db: Db, i: nat, used: nat, addrOf: Npub -> Addr, maxGuests: nat, id: nat)
    ensures TermsOf(Next(db, Consume(i, used), addrOf, maxGuests).grants, id) == TermsOf(db.grants, id)
  {
    if i < |db.grants| {
      TermsSame(db.grants, db.grants[i := db.grants[i].(ent := db.grants[i].ent.(used := used))], id);
    }
  }

  lemma CreditTerms(db: Db, op: Op, addrOf: Npub -> Addr, maxGuests: nat, id: nat)
    requires op.Credit?
    ensures TermsOf(Next(db, op, addrOf, maxGuests).grants, id) == TermsOf(db.grants, id)
  {
    TermsSnoc(db.grants, Grant(None, B.Ent(op.n, op.kind, op.volume, 0, op.now, op.expires)), id);
  }

  lemma TermsStep(db: Db, op: Op, addrOf: Npub -> Addr, maxGuests: nat, id: nat)
    requires IsSettled(db, id)
    ensures TermsOf(Next(db, op, addrOf, maxGuests).grants, id) == TermsOf(db.grants, id)
  {
    if op.Paid? {
      PaidTerms(db, op.id, op.now, addrOf, maxGuests, id);
    } else if op.Void? {
      VoidTerms(db, op.id, op.status, addrOf, maxGuests, id);
    } else if op.Consume? {
      ConsumeTerms(db, op.row, op.used, addrOf, maxGuests, id);
    } else if op.Credit? {
      CreditTerms(db, op, addrOf, maxGuests, id);
    } else if !TouchesMoney(op) {
      MoneyUntouched(db, op, addrOf, maxGuests);
    }
  }

  lemma {:induction false} AfterMore(ops: seq<Op>, more: seq<Op>, addrOf: Npub -> Addr, maxGuests: nat)
    requires more != []
    ensures After(ops + more, addrOf, maxGuests) ==
            Next(After(ops + more[..|more| - 1], addrOf, maxGuests), more[|more| - 1], addrOf, maxGuests)
  {
    assert (ops + more)[..|ops + more| - 1] == ops + more[..|more| - 1];
  }

  lemma SettledStays(db: Db, op: Op, addrOf: Npub -> Addr, maxGuests: nat, id: nat)
    requires IsSettled(db, id)
    ensures IsSettled(Next(db, op, addrOf, maxGuests), id)
  {
    if !TouchesMoney(op) {
      MoneyUntouched(db, op, addrOf, maxGuests);
    }
  }

  /** Whatever follows the first grant, the purchase stays settled and its
      entitlement keeps its account, kind, volume, start and expiry. */
  lemma {:induction false} FixedAtFirstGrant(ops: seq<Op>, more: seq<Op>, id: nat, addrOf: Npub -> Addr, maxGuests: nat)
    requires GrantedIn(ops, id, addrOf, maxGuests)
    ensures IsSettled(After(ops + more, addrOf, maxGuests), id)
    ensures TermsOf(After(ops + more, addrOf, maxGuests).grants, id) == TermsOf(After(ops, addrOf, maxGuests).grants, id)
  {
    if more == [] {
      assert ops + more == ops;
      SettledIffGranted(ops, id, addrOf, maxGuests);
    } else {
      var front, last := more[..|more| - 1], more[|more| - 1];
      AfterMore(ops, more, addrOf, maxGuests);
      FixedAtFirstGrant(ops, front, id, addrOf, maxGuests);
      SettledStays(After(ops + front, addrOf, maxGuests), last, addrOf, maxGuests, id);
      TermsStep(After(ops + front, addrOf, maxGuests), last, addrOf, maxGuests, id);
    }
  }

  /** What the purchase was ordered as: the first order of its id by an open account. */
  function Ordered(ops: seq<Op>, id: nat, addrOf: Npub -> Addr, maxGuests: nat): Option<Purchase> {
    if ops == [] then None
    else
      var front, last := ops[..|ops| - 1], ops[|ops| - 1];
      var before := Ordered(front, id, addrOf, maxGuests);
      if before.None? && last.Buy? && last.id == id && last.purchase.acct in After(front, addrOf, maxGuests).accounts
      then Some(last.purchase) else before
  }

  lemma PurchaseStep(db: Db, op: Op, addrOf: Npub -> Addr, maxGuests: nat, id: nat)
    requires id in db.purchases
    ensures var db' := Next(db, op, addrOf, maxGuests);
            id in db'.purchases && db'.purchases[id] == db.purchases[id].(status := db'.purchases[id].status)
  {
    if !TouchesMoney(op) {
      MoneyUntouched(db, op, addrOf, maxGuests);
    }
  }

  lemma NoPurchaseStep(db: Db, op: Op, addrOf: Npub -> Addr, maxGuests: nat, id: nat)
    requires id !in db.purchases
    ensures var db' := Next(db, op, addrOf, maxGuests);
            if op.Buy? && op.id == id && op.purchase.acct in db.accounts
            then id in db'.purchases && db'.purchases[id] == op.purchase.(status := Pending)
            else id !in db'.purchases
  {
    if !TouchesMoney(op) {
      MoneyUntouched(db, op, addrOf, maxGuests);
    }
  }

  /** Only its status ever changes: the purchase stays what it was ordered as. */
  lemma {:induction false} PurchaseAsOrdered(ops: seq<Op>, id: nat, addrOf: Npub -> Addr, maxGuests: nat)
    ensures var db, ordered := After(ops, addrOf, maxGuests), Ordered(ops, id, addrOf, maxGuests);
            && (id in db.purchases <==> ordered.Some?)
            && (id in db.purchases ==> db.purchases[id] == ordered.value.(status := db.purchases[id].status))
  {
    if ops != [] {
      var front, last := ops[..|ops| - 1], ops[|ops| - 1];
      PurchaseAsOrdered(front, id, addrOf, maxGuests);
      var db := After(front, addrOf, maxGuests);
      if id in db.purchases {
        PurchaseStep(db, last, addrOf, maxGuests, id);
      } else {
        NoPurchaseStep(db, last, addrOf, maxGuests, id);
      }
    }
  }

  lemma PaidFirst(db: Db, id: nat, now: Time, addrOf: Npub -> Addr, maxGuests: nat)
    requires id in db.purchases && !IsSettled(db, id) && !HasGrant(db.grants, id)
    ensures var db', p := Next(db, Paid(id, now), addrOf, maxGuests), db.purchases[id];
            && db'.grants == db.grants + [Grant(Some(id), B.Ent(p.acct, p.kind, p.volume, 0, now, now + 86400 * p.days))]
            && db'.rows == ActivateOwner(db.rows, p.acct)
            && IsSettled(db', id)
  {
  }

  /** The first grant adds one entitlement: the ordered account, kind and volume, with
      nothing used, from the grant's own time for the ordered number of days. It also
      brings the buyer home. */
  lemma FirstGrant(ops: seq<Op>, id: nat, now: Time, addrOf: Npub -> Addr, maxGuests: nat)
    requires !GrantedIn(ops, id, addrOf, maxGuests) && Ordered(ops, id, addrOf, maxGuests).Some?
    ensures var db, db' := After(ops, addrOf, maxGuests), After(ops + [Paid(id, now)], addrOf, maxGuests);
            var p := Ordered(ops, id, addrOf, maxGuests).value;
            && db'.grants == db.grants + [Grant(Some(id), B.Ent(p.acct, p.kind, p.volume, 0, now, now + 86400 * p.days))]
            && db'.rows == ActivateOwner(db.rows, p.acct)
            && IsSettled(db', id)
  {
    var db := After(ops, addrOf, maxGuests);
    PurchaseAsOrdered(ops, id, addrOf, maxGuests);
    SettledIffGranted(ops, id, addrOf, maxGuests);
    CountHas(db.grants, id);
    PaidFirst(db, id, now, addrOf, maxGuests);
    AfterSnoc(ops, Paid(id, now), addrOf, maxGuests);
  }

  lemma {:induction false} TermsAre(grants: seq<Grant>, id: nat, g: Grant)
    requires Count(grants, id) == 1 && g in grants && g.purchase == Some(id)
    ensures TermsOf(grants, id) == Some(g.ent.(used := 0))
  {
    var front, last := grants[..|grants| - 1], grants[|grants| - 1];
    assert grants == front + [last];
    CountHas(front, id);
    if g in front {
      TermsAre(front, id, g);
    }
  }

  /** Whatever has happened since, the purchase's entitlement runs from its first grant
      for the ordered days, for the ordered account, kind and volume. */
  lemma GrantKeepsTerms(ops: seq<Op>, id: nat, now: Time, more: seq<Op>, addrOf: Npub -> Addr, maxGuests: nat, g: Grant)
    requires !GrantedIn(ops, id, addrOf, maxGuests) && Ordered(ops, id, addrOf, maxGuests).Some?
    requires g in After(ops + [Paid(id, now)] + more, addrOf, maxGuests).grants && g.purchase == Some(id)
    ensures var p := Ordered(ops, id, addrOf, maxGuests).value;
            g.ent == B.Ent(p.acct, p.kind, p.volume, g.ent.used, now, now + 86400 * p.days)
  {
    var paid, p := ops + [Paid(id, now)], Ordered(ops, id, addrOf, maxGuests).value;
    var ent := B.Ent(p.acct, p.kind, p.volume, 0, now, now + 86400 * p.days);
    FirstGrant(ops, id, now, addrOf, maxGuests);
    SettledIffGranted(paid, id, addrOf, maxGuests);
    FixedAtFirstGrant(paid, more, id, addrOf, maxGuests);
    TermsSnoc(After(ops, addrOf, maxGuests).grants, Grant(Some(id), ent), id);
    PairedRun(paid + more, addrOf, maxGuests, id);
    TermsAre(After(paid + more, addrOf, maxGuests).grants, id, g);
  }

  /** A buyer with no other entitlement is entitled at `t` if and only if `t` is within the
      ordered days of the first grant and, for a volume package, some of it is left. */
  lemma BuyerEntitledIff(ops: seq<Op>, id: nat, now: Time, more: seq<Op>, addrOf: Npub -> Addr, maxGuests: nat, t: Time)
    requires !GrantedIn(ops, id, addrOf, maxGuests) && Ordered(ops, id, addrOf, maxGuests).Some?
    requires var db, p := After(ops + [Paid(id, now)] + more, addrOf, maxGuests), Ordered(ops, id, addrOf, maxGuests).value;
             forall g :: g in db.grants && g.ent.acct == p.acct ==> g.purchase == Some(id)
    ensures var db, p := After(ops + [Paid(id, now)] + more, addrOf, maxGuests), Ordered(ops, id, addrOf, maxGuests).value;
            Entitled(db.grants, p.acct, t) <==>
              && now <= t <= now + 86400 * p.days
              && (p.kind.TimePass? || exists g :: g in db.grants && g.purchase == Some(id) && g.ent.used < p.volume)
  {
    var paid, p := ops + [Paid(id, now)], Ordered(ops, id, addrOf, maxGuests).value;
    var db := After(paid + more, addrOf, maxGuests);
    forall g | g in db.grants && g.purchase == Some(id)
      ensures g.ent == B.Ent(p.acct, p.kind, p.volume, g.ent.used, now, now + 86400 * p.days)
    {
      GrantKeepsTerms(ops, id, now, more, addrOf, maxGuests, g);
    }
    FirstGrant(ops, id, now, addrOf, maxGuests);
    SettledIffGranted(paid, id, addrOf, maxGuests);
    FixedAtFirstGrant(paid, more, id, addrOf, maxGuests);
    PairedRun(paid + more, addrOf, maxGuests, id);
    CountHas(db.grants, id);
  }

  // --- what the tables authorize ------------------------------------------------------------------------

  /** The row's account is active and has something to spend. */
  predicate Served(db: Db, n: Npub, now: Time) {
    n in db.accounts && db.accounts[n] && Entitled(db.grants, n, now)
  }

  /** The desired authorization table. The index makes it a map. */
  function Desired(db: Db, now: Time): Table
    requires Indexed(db.rows)
  {
    map k | k in db.rows && Active(db.rows[k]) && Served(db, k.0, now) :: db.rows[k].addr := k.0
  }

  /** On every run it is well defined, and an address is authorized for an account
      exactly when the account's status is active, some entitlement of the account has
      started, has not expired and is a pass or not used up, and a row of the account
      for the address is enabled and not pending. */
  lemma DesiredIs(ops: seq<Op>, addrOf: Npub -> Addr, maxGuests: nat, now: Time, a: Addr, n: Npub)
    ensures var db := After(ops, addrOf, maxGuests);
            Indexed(db.rows) &&
            ((a in Desired(db, now) && Desired(db, now)[a] == n) <==>
               && n in db.accounts && db.accounts[n]
               && (exists g :: g in db.grants && g.ent.acct == n && g.ent.starts <= now <= g.ent.expires
                               && (g.ent.kind.TimePass? || g.ent.used < g.ent.volume))
               && (exists m :: (n, m) in db.rows && addrOf(m) == a && db.rows[(n, m)].enabled && !db.rows[(n, m)].pending))
  {
    OneActiveRow(ops, addrOf, maxGuests);
    var db := After(ops, addrOf, maxGuests);
    if a in Desired(db, now) && Desired(db, now)[a] == n {
      var k: Key :| k in db.rows && Active(db.rows[k]) && Served(db, k.0, now) && db.rows[k].addr == a && k.0 == n;
      assert (n, k.1) in db.rows && addrOf(k.1) == a;
    }
    if m: Npub :| Served(db, n, now) && (n, m) in db.rows && addrOf(m) == a && Active(db.rows[(n, m)]) {
      assert db.rows[(n, m)].addr == a;
    }
  }

  /** An account is authorized nowhere once it is not active, or all its entitlements have
      expired, have yet to start or are used up. */
  lemma AuthorizedNowhere(ops: seq<Op>, addrOf: Npub -> Addr, maxGuests: nat, now: Time, n: Npub)
    requires var db := After(ops, addrOf, maxGuests);
             || n !in db.accounts || !db.accounts[n]
             || forall g :: g in db.grants && g.ent.acct == n ==>
                  g.ent.expires < now || now < g.ent.starts || (g.ent.kind.Volume? && g.ent.volume <= g.ent.used)
    ensures var db := After(ops, addrOf, maxGuests);
            Indexed(db.rows) && n !in Desired(db, now).Values
  {
    OneActiveRow(ops, addrOf, maxGuests);
    var db := After(ops, addrOf, maxGuests);
    forall a | a in Desired(db, now)
      ensures Desired(db, now)[a] != n
    {
      DesiredIs(ops, addrOf, maxGuests, now, a, n);
    }
  }

  predicate Reactivates(ops: seq<Op>, n: Npub) { exists i :: 0 <= i < |ops| && ops[i] == SetStatus(n, true) }

  lemma StatusStep(db: Db, op: Op, addrOf: Npub -> Addr, maxGuests: nat, n: Npub)
    requires n in db.accounts
    ensures var db' := Next(db, op, addrOf, maxGuests);
            n in db'.accounts && db'.accounts[n] == if op.SetStatus? && op.n == n then op.active else db.accounts[n]
  {
  }

  lemma {:induction false} StaysSuspended(ops: seq<Op>, more: seq<Op>, addrOf: Npub -> Addr, maxGuests: nat, n: Npub)
    requires n in After(ops, addrOf, maxGuests).accounts && !After(ops, addrOf, maxGuests).accounts[n]
    requires !Reactivates(more, n)
    ensures var db := After(ops + more, addrOf, maxGuests); n in db.accounts && !db.accounts[n]
  {
    if more == [] {
      assert ops + more == ops;
    } else {
      var front, last := more[..|more| - 1], more[|more| - 1];
      assert forall i :: 0 <= i < |front| ==> front[i] == more[i];
      AfterMore(ops, more, addrOf, maxGuests);
      StaysSuspended(ops, front, addrOf, maxGuests, n);
      StatusStep(After(ops + front, addrOf, maxGuests), last, addrOf, maxGuests, n);
    }
  }

  /** Whatever follows a suspension, the account is authorized nowhere until it is made
      active again. */
  lemma SuspendedNowhere(ops: seq<Op>, more: seq<Op>, addrOf: Npub -> Addr, maxGuests: nat, now: Time, n: Npub)
    requires n in After(ops, addrOf, maxGuests).accounts && !Reactivates(more, n)
    ensures var db := After(ops + [SetStatus(n, false)] + more, addrOf, maxGuests);
            Indexed(db.rows) && n !in Desired(db, now).Values
  {
    var cut := ops + [SetStatus(n, false)];
    AfterSnoc(ops, SetStatus(n, false), addrOf, maxGuests);
    StatusStep(After(ops, addrOf, maxGuests), SetStatus(n, false), addrOf, maxGuests, n);
    StaysSuspended(cut, more, addrOf, maxGuests, n);
    AuthorizedNowhere(cut + more, addrOf, maxGuests, now, n);
  }

  /** Choosing, crediting or first paying for one's own account authorizes its
      address for it, for as long as the account is served. */
  lemma OwnChoiceAuthorizes(ops: seq<Op>, op: Op, addrOf: Npub -> Addr, maxGuests: nat, n: Npub, now: Time)
    requires var db := After(ops, addrOf, maxGuests);
             n in db.accounts && (n, n) in db.rows && db.rows[(n, n)].role.Owner?
    requires (op.UseOwn? && op.n == n) || (op.Credit? && op.n == n)
             || (op.Paid? && !GrantedIn(ops, op.id, addrOf, maxGuests) && op.id in After(ops, addrOf, maxGuests).purchases
                 && After(ops, addrOf, maxGuests).purchases[op.id].acct == n)
    requires Served(After(ops + [op], addrOf, maxGuests), n, now)
    ensures var db' := After(ops + [op], addrOf, maxGuests);
            Indexed(db'.rows) && addrOf(n) in Desired(db', now) && Desired(db', now)[addrOf(n)] == n
  {
    var db := After(ops, addrOf, maxGuests);
    OneActiveRow(ops, addrOf, maxGuests);
    if op.Paid? {
      SettledIffGranted(ops, op.id, addrOf, maxGuests);
      CountHas(db.grants, op.id);
    }
    OwnChoiceSettles(db, op, addrOf, maxGuests, n);
    assert (ops + [op])[..|ops|] == ops;
    DesiredIs(ops + [op], addrOf, maxGuests, now, addrOf(n), n);
    var db' := After(ops + [op], addrOf, maxGuests);
    assert ActiveFor(db'.rows, (n, n), addrOf(n));
    assert (n, n) in db'.rows && db'.rows[(n, n)].enabled && !db'.rows[(n, n)].pending;
  }
}
