/** The whitelist_entries table: which account an address is attributed to, and
    the statements that change it (backend/store/whitelist.go, backend/store/admin.go). */
module Whitelist {
  import opened AuthzLog

  /** An npub also names its account: accounts and npubs are one to one. */
  type Npub = Account

  datatype Role = Owner | Guest
  datatype Entry = Entry(addr: Addr, role: Role, enabled: bool, pending: bool)

  /** Rows by (account, npub), the table's unique key. */
  type Key = (Npub, Npub)
  type Rows = map<Key, Entry>

  /** The row that attributes its address. */
  predicate Active(e: Entry) { e.enabled && !e.pending }

  predicate ActiveFor(rows: Rows, k: Key, a: Addr) { k in rows && rows[k].addr == a && Active(rows[k]) }

  predicate HasActive(rows: Rows, a: Addr) { exists k :: k in rows && ActiveFor(rows, k, a) }

  /** The partial unique index on active addresses. */
  predicate Indexed(rows: Rows) {
    forall j, k | j in rows && k in rows && Active(rows[j]) && Active(rows[k]) && rows[j].addr == rows[k].addr ::
      j == k
  }

  // --- statements ---------------------------------------------------------------------------

  function Park(rows: Rows, a: Addr, k: Key): Rows {
    map j | j in rows :: if j != k && ActiveFor(rows, j, a) then rows[j].(enabled := false) else rows[j]
  }

  function Enable(rows: Rows, k: Key): Rows
    requires k in rows
  {
    rows[k := rows[k].(enabled := true, pending := false)]
  }

  /** Park whatever is active for the row's address, then activate the row. */
  function ActivateRow(rows: Rows, k: Key): Rows
    requires k in rows
  {
    Enable(Park(rows, rows[k].addr, k), k)
  }

  function ActivateOwner(rows: Rows, n: Npub): Rows {
    if (n, n) in rows && rows[(n, n)].role.Owner? then ActivateRow(rows, (n, n)) else rows
  }

  function AddOwner(rows: Rows, n: Npub, a: Addr): Rows {
    if (n, n) in rows then rows else rows[(n, n) := Entry(a, Owner, !HasActive(rows, a), false)]
  }

  function Upsert(rows: Rows, k: Key, a: Addr): Rows {
    if k in rows then Enable(rows, k) else rows[k := Entry(a, Guest, true, false)]
  }

  function Invite(rows: Rows, k: Key, a: Addr): Rows {
    if k in rows then rows[k := rows[k].(enabled := true, pending := !Active(rows[k]))]
    else rows[k := Entry(a, Guest, true, true)]
  }

  predicate Outstanding(rows: Rows, k: Key) { k in rows && rows[k].role.Guest? && rows[k].pending }

  function Remove(rows: Rows, k: Key): Rows { rows - {k} }

  predicate ActiveElsewhere(rows: Rows, k: Key)
    requires k in rows
  {
    exists j :: j in rows && j != k && ActiveFor(rows, j, rows[k].addr)
  }

  function Toggle(rows: Rows, k: Key, on: bool): Rows
    requires k in rows
  {
    var e := rows[k];
    var ask := on && e.role.Guest? && !e.enabled && ActiveElsewhere(rows, k);
    rows[k := e.(enabled := on, pending := ask || e.pending)]
  }

  function SendHome(rows: Rows, a: Addr): Rows {
    if HasActive(rows, a) then rows
    else map j | j in rows :: if rows[j].addr == a && rows[j].role.Owner? then rows[j].(enabled := true, pending := false) else rows[j]
  }

  // --- what every operation keeps --------------------------------------------------------------

  predicate Shaped(e: Entry, k: Key, addrOf: Npub -> Addr) {
    && e.addr == addrOf(k.1)
    && (e.role.Owner? ==> k.0 == k.1 && !e.pending)
    && (e.pending ==> e.enabled)
  }

  predicate AllShaped(accounts: set<Npub>, rows: Rows, addrOf: Npub -> Addr) {
    && (forall k :: k in rows ==> k.0 in accounts && Shaped(rows[k], k, addrOf))
    && (forall n, m | n in accounts && m in accounts && addrOf(n) == addrOf(m) :: n == m)
  }

  /** Every address with an owner row is active somewhere. */
  predicate Homed(rows: Rows) {
    forall k :: k in rows && rows[k].role.Owner? ==> HasActive(rows, rows[k].addr)
  }

  predicate Good(accounts: set<Npub>, rows: Rows, addrOf: Npub -> Addr) {
    AllShaped(accounts, rows, addrOf) && Indexed(rows) && Homed(rows)
  }

  /** The address's active row is the same before and after. */
  ghost predicate SameActive(before: Rows, after: Rows, a: Addr) {
    forall k :: ActiveFor(before, k, a) <==> ActiveFor(after, k, a)
  }

  lemma SameActiveIndexed(before: Rows, after: Rows)
    requires Indexed(before) && forall a :: SameActive(before, after, a)
    ensures Indexed(after)
  {
    forall j, k | j in after && k in after && Active(after[j]) && Active(after[k]) && after[j].addr == after[k].addr
      ensures j == k
    {
      assert ActiveFor(after, j, after[j].addr) && ActiveFor(after, k, after[j].addr);
      assert SameActive(before, after, after[j].addr);
    }
  }

  lemma SameActiveHas(before: Rows, after: Rows, a: Addr)
    requires SameActive(before, after, a)
    ensures HasActive(before, a) == HasActive(after, a)
  {
    assert forall k :: ActiveFor(before, k, a) ==> k in after && ActiveFor(after, k, a);
  }

  /** Rows may be added, dropped or made to wait, as long as no active row changes. */
  lemma SameActiveGood(accounts: set<Npub>, before: Rows, after: Rows, addrOf: Npub -> Addr)
    requires Good(accounts, before, addrOf) && AllShaped(accounts, after, addrOf)
    requires forall a :: SameActive(before, after, a)
    requires forall k :: k in after && after[k].role.Owner? ==> k in before && before[k].role.Owner? && before[k].addr == after[k].addr
    ensures Good(accounts, after, addrOf)
  {
    SameActiveIndexed(before, after);
    forall k | k in after && after[k].role.Owner?
      ensures HasActive(after, after[k].addr)
    {
      SameActiveHas(before, after, after[k].addr);
    }
  }

  /** One row becomes the only active one of its address; other addresses keep theirs. */
  ghost predicate Takes(before: Rows, after: Rows, k: Key) {
    && k in before && after.Keys == before.Keys
    && (forall j :: j in before ==> after[j].addr == before[j].addr && after[j].role == before[j].role)
    && (forall j :: ActiveFor(after, j, before[k].addr) <==> j == k)
    && (forall a :: a != before[k].addr ==> SameActive(before, after, a))
  }

  lemma TakesGood(accounts: set<Npub>, before: Rows, after: Rows, addrOf: Npub -> Addr, k: Key)
    requires Good(accounts, before, addrOf) && AllShaped(accounts, after, addrOf) && Takes(before, after, k)
    ensures Good(accounts, after, addrOf)
  {
    forall i, j | i in after && j in after && Active(after[i]) && Active(after[j]) && after[i].addr == after[j].addr
      ensures i == j
    {
      var a := after[i].addr;
      assert ActiveFor(after, i, a) && ActiveFor(after, j, a);
      if a != before[k].addr {
        assert SameActive(before, after, a);
      }
    }
    forall j | j in after && after[j].role.Owner?
      ensures HasActive(after, after[j].addr)
    {
      if after[j].addr == before[k].addr {
        assert ActiveFor(after, k, before[k].addr);
      } else {
        assert HasActive(before, before[j].addr);
        SameActiveHas(before, after, after[j].addr);
      }
    }
  }

  /** Parking first leaves the index intact for the activation, and the row then
      is the one active row of its address. */
  lemma ActivateRowTakes(accounts: set<Npub>, rows: Rows, addrOf: Npub -> Addr, k: Key)
    requires Good(accounts, rows, addrOf) && k in rows
    ensures Indexed(Park(rows, rows[k].addr, k))
    ensures Takes(rows, ActivateRow(rows, k), k) && Good(accounts, ActivateRow(rows, k), addrOf)
  {
    var after := ActivateRow(rows, k);
    assert AllShaped(accounts, after, addrOf);
    assert forall j :: ActiveFor(after, j, rows[k].addr) <==> j == k;
    TakesGood(accounts, rows, after, addrOf, k);
  }

  lemma ActivateOwnerGood(accounts: set<Npub>, rows: Rows, addrOf: Npub -> Addr, n: Npub)
    requires Good(accounts, rows, addrOf)
    ensures Good(accounts, ActivateOwner(rows, n), addrOf)
  {
    if (n, n) in rows {
      ActivateRowTakes(accounts, rows, addrOf, (n, n));
    }
  }

  lemma AddOwnerGood(accounts: set<Npub>, rows: Rows, addrOf: Npub -> Addr, n: Npub)
    requires Good(accounts, rows, addrOf) && n in accounts
    ensures Good(accounts, AddOwner(rows, n, addrOf(n)), addrOf)
    ensures forall a :: HasActive(rows, a) ==> SameActive(rows, AddOwner(rows, n, addrOf(n)), a)
  {
    var a, after := addrOf(n), AddOwner(rows, n, addrOf(n));
    if (n, n) !in rows {
      assert forall k :: k in after <==> k in rows || k == (n, n);
      assert forall k :: k in rows ==> after[k] == rows[k];
      forall j, k | j in after && k in after && Active(after[j]) && Active(after[k]) && after[j].addr == after[k].addr
        ensures j == k
      {
        assert j in rows ==> ActiveFor(rows, j, after[j].addr);
        assert k in rows ==> ActiveFor(rows, k, after[k].addr);
      }
      forall k | k in after && after[k].role.Owner?
        ensures HasActive(after, after[k].addr)
      {
        if j :| j in rows && ActiveFor(rows, j, after[k].addr) {
          assert ActiveFor(after, j, after[k].addr);
        } else {
          assert k == (n, n) && ActiveFor(after, k, a);
        }
      }
    }
  }

  /** An accepted-at-once guest either is the one active row of its address or
      breaks the index. */
  lemma UpsertIff(accounts: set<Npub>, rows: Rows, addrOf: Npub -> Addr, k: Key)
    requires Good(accounts, rows, addrOf) && k.0 in accounts
    ensures Indexed(Upsert(rows, k, addrOf(k.1))) <==> forall j :: ActiveFor(rows, j, addrOf(k.1)) ==> j == k
    ensures Indexed(Upsert(rows, k, addrOf(k.1))) ==> Good(accounts, Upsert(rows, k, addrOf(k.1)), addrOf)
  {
    var a, after := addrOf(k.1), Upsert(rows, k, addrOf(k.1));
    assert ActiveFor(after, k, a);
    assert forall j :: j != k ==> (j in after <==> j in rows);
    assert forall j :: j in rows && j != k ==> after[j] == rows[j];
    forall j | ActiveFor(rows, j, a) && j != k
      ensures ActiveFor(after, j, a)
    {
    }
    if forall j :: ActiveFor(rows, j, a) ==> j == k {
      forall i, j | i in after && j in after && Active(after[i]) && Active(after[j]) && after[i].addr == after[j].addr
        ensures i == j
      {
        assert i != k ==> ActiveFor(rows, i, after[i].addr);
        assert j != k ==> ActiveFor(rows, j, after[j].addr);
      }
    }
    forall j | j in after && after[j].role.Owner?
      ensures HasActive(after, after[j].addr)
    {
      assert j in rows && rows[j].addr == after[j].addr;
      var i :| i in rows && ActiveFor(rows, i, rows[j].addr);
      assert ActiveFor(after, i, rows[j].addr);
    }
  }

  lemma InviteGood(accounts: set<Npub>, rows: Rows, addrOf: Npub -> Addr, k: Key)
    requires Good(accounts, rows, addrOf) && k.0 in accounts && addrOf(k.1) != addrOf(k.0)
    ensures Good(accounts, Invite(rows, k, addrOf(k.1)), addrOf)
    ensures forall a :: SameActive(rows, Invite(rows, k, addrOf(k.1)), a)
  {
    var after := Invite(rows, k, addrOf(k.1));
    assert forall j :: j != k ==> (j in after <==> j in rows);
    assert forall j :: j in rows && j != k ==> after[j] == rows[j];
    SameActiveGood(accounts, rows, after, addrOf);
  }

  lemma RemoveGood(accounts: set<Npub>, rows: Rows, addrOf: Npub -> Addr, k: Key)
    requires Good(accounts, rows, addrOf) && Outstanding(rows, k)
    ensures Good(accounts, Remove(rows, k), addrOf)
    ensures forall a :: SameActive(rows, Remove(rows, k), a)
  {
    SameActiveGood(accounts, rows, Remove(rows, k), addrOf);
  }

  /** Switching on either asks first, or activates a row nothing else competes
      with; the index is broken exactly by an owner row parked behind another. */
  lemma SwitchOnIff(accounts: set<Npub>, rows: Rows, addrOf: Npub -> Addr, k: Key)
    requires Good(accounts, rows, addrOf) && k in rows
    ensures Indexed(Toggle(rows, k, true)) <==> !(rows[k].role.Owner? && ActiveElsewhere(rows, k))
    ensures Indexed(Toggle(rows, k, true)) ==> Good(accounts, Toggle(rows, k, true), addrOf)
    ensures ActiveElsewhere(rows, k) && rows[k].role.Guest? ==>
              Toggle(rows, k, true)[k].pending && forall a :: SameActive(rows, Toggle(rows, k, true), a)
    ensures !ActiveElsewhere(rows, k) && !rows[k].pending ==> ActiveFor(Toggle(rows, k, true), k, rows[k].addr)
  {
    var after := Toggle(rows, k, true);
    assert after.Keys == rows.Keys && forall j :: j in rows && j != k ==> after[j] == rows[j];
    if ActiveElsewhere(rows, k) {
      var j :| j in rows && j != k && ActiveFor(rows, j, rows[k].addr);
      assert ActiveFor(after, j, rows[k].addr);
      if rows[k].role.Guest? {
        assert !Active(rows[k]);
        SameActiveGood(accounts, rows, after, addrOf);
      }
    } else {
      forall i, j | i in after && j in after && Active(after[i]) && Active(after[j]) && after[i].addr == after[j].addr
        ensures i == j
      {
        assert i != k ==> ActiveFor(rows, i, after[i].addr);
        assert j != k ==> ActiveFor(rows, j, after[j].addr);
      }
      forall j | j in after && after[j].role.Owner?
        ensures HasActive(after, after[j].addr)
      {
        var i :| i in rows && ActiveFor(rows, i, rows[j].addr);
        assert ActiveFor(after, i, rows[j].addr);
      }
    }
  }

  /** Switching a row off leaves every other row and address alone. */
  lemma ToggleOff(accounts: set<Npub>, rows: Rows, addrOf: Npub -> Addr, k: Key)
    requires Good(accounts, rows, addrOf) && k in rows && !Outstanding(rows, k)
    ensures var off := Toggle(rows, k, false);
            && Indexed(off) && AllShaped(accounts, off, addrOf) && off.Keys == rows.Keys
            && (forall i :: i in rows ==> off[i].addr == rows[i].addr && off[i].role == rows[i].role)
            && (forall j, x :: x != rows[k].addr ==> (ActiveFor(off, j, x) <==> ActiveFor(rows, j, x)))
  {
    var off := Toggle(rows, k, false);
    assert forall j :: j in rows && j != k ==> off[j] == rows[j];
  }

  /** Switching off and falling back to the owner: the address stays attributed
      if it has an owner row, and no other address moves. */
  lemma SwitchOffGood(accounts: set<Npub>, rows: Rows, addrOf: Npub -> Addr, k: Key)
    requires Good(accounts, rows, addrOf) && k in rows && !Outstanding(rows, k)
    ensures Indexed(Toggle(rows, k, false))
    ensures Good(accounts, SendHome(Toggle(rows, k, false), rows[k].addr), addrOf)
    ensures forall a :: a != rows[k].addr ==> SameActive(rows, SendHome(Toggle(rows, k, false), rows[k].addr), a)
  {
    var a, off := rows[k].addr, Toggle(rows, k, false);
    ToggleOff(accounts, rows, addrOf, k);
    SendHomeIndexed(accounts, off, addrOf, a);
    SendHomeHomed(rows, off, a);
  }

  lemma SendHomeHomed(rows: Rows, off: Rows, a: Addr)
    requires Homed(rows) && off.Keys == rows.Keys
    requires forall i :: i in rows ==> off[i].addr == rows[i].addr && off[i].role == rows[i].role
    requires forall i, x :: x != a && ActiveFor(rows, i, x) ==> ActiveFor(off, i, x)
    ensures Homed(SendHome(off, a))
  {
    var after := SendHome(off, a);
    forall j | j in after && after[j].role.Owner?
      ensures HasActive(after, after[j].addr)
    {
      SendHomeActive(rows, off, a, j);
    }
  }

  lemma SendHomeIndexed(accounts: set<Npub>, off: Rows, addrOf: Npub -> Addr, a: Addr)
    requires AllShaped(accounts, off, addrOf) && Indexed(off)
    ensures Indexed(SendHome(off, a)) && AllShaped(accounts, SendHome(off, a), addrOf)
    ensures forall x :: x != a ==> SameActive(off, SendHome(off, a), x)
  {
    var after := SendHome(off, a);
    if !HasActive(off, a) {
      forall i, j | i in after && j in after && Active(after[i]) && Active(after[j]) && after[i].addr == after[j].addr
        ensures i == j
      {
        assert i in off && j in off && off[i].addr == off[j].addr;
        if off[i].addr == a {
          assert !ActiveFor(off, i, a) && !ActiveFor(off, j, a);
        }
      }
    }
  }

  lemma SendHomeActive(rows: Rows, off: Rows, a: Addr, j: Key)
    requires Homed(rows) && off.Keys == rows.Keys && j in off && off[j].role.Owner?
    requires forall i :: i in rows ==> off[i].addr == rows[i].addr && off[i].role == rows[i].role
    requires forall i, x :: x != a && ActiveFor(rows, i, x) ==> ActiveFor(off, i, x)
    ensures HasActive(SendHome(off, a), off[j].addr)
  {
    var after := SendHome(off, a);
    if !HasActive(off, a) {
      if off[j].addr == a {
        assert ActiveFor(after, j, a);
      } else {
        var i :| i in rows && ActiveFor(rows, i, rows[j].addr);
        assert ActiveFor(off, i, off[j].addr) && ActiveFor(after, i, off[j].addr);
      }
    } else if off[j].addr != a {
      var i :| i in rows && ActiveFor(rows, i, rows[j].addr);
      assert ActiveFor(off, i, off[j].addr);
    }
  }
}
