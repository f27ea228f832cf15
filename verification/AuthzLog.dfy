/** The append-only authorization log: what a log replays to, what a delta since
    a cursor is, and what compaction may drop (backend/store/authz.go,
    backend/store/retention.go). */
module AuthzLog {
  type Addr = nat
  type Account = nat
  type Time = int
  type Table = map<Addr, Account>

  datatype Op = Add | Del
  datatype Row = Row(rev: nat, op: Op, addr: Addr, acct: Account, at: Time)
  datatype Option<+T> = None | Some(value: T)

  /** Revision numbers start at one and grow along the log. */
  predicate Ordered(log: seq<Row>) {
    && (forall i :: 0 <= i < |log| ==> log[i].rev > 0)
    && (forall i, j :: 0 <= i < j < |log| ==> log[i].rev < log[j].rev)
  }

  /** max(rev), or 0 for the empty log. */
  function Head(log: seq<Row>): nat {
    if log == [] then 0 else log[|log| - 1].rev
  }

  /** min(rev), or 0 for the empty log. */
  function First(log: seq<Row>): nat {
    if log == [] then 0 else log[0].rev
  }

  function Execute(t: Table, r: Row): Table {
    if r.op.Add? then t[r.addr := r.acct] else t - {r.addr}
  }

  /** The table a log describes. */
  function Replay(log: seq<Row>): Table {
    if log == [] then map[] else Execute(Replay(log[..|log| - 1]), log[|log| - 1])
  }

  function UpTo(log: seq<Row>, rev: nat): seq<Row> {
    if log == [] then []
    else UpTo(log[..|log| - 1], rev) + (if log[|log| - 1].rev <= rev then [log[|log| - 1]] else [])
  }

  /** The table as of a revision. */
  function At(log: seq<Row>, rev: nat): Table { Replay(UpTo(log, rev)) }

  /** The last operation per address among the rows after `since`: the `final`
      map of `DeltaSince`. */
  function Final(log: seq<Row>, since: nat): map<Addr, Row> {
    if log == [] then map[]
    else
      var f, r := Final(log[..|log| - 1], since), log[|log| - 1];
      if r.rev > since then f[r.addr := r] else f
  }

  // --- reference definition: the greatest revision per address -----------------

  /** `r` is the last row for its address. */
  predicate IsLast(log: seq<Row>, r: Row) {
    r in log && forall y :: y in log && y.addr == r.addr ==> y.rev <= r.rev
  }

  lemma OrderedPrefix(log: seq<Row>)
    requires Ordered(log) && log != []
    ensures Ordered(log[..|log| - 1])
    ensures forall y :: y in log[..|log| - 1] ==> y in log && y.rev < log[|log| - 1].rev
    ensures forall y :: y in log ==> y in log[..|log| - 1] || y == log[|log| - 1]
  {
    assert log == log[..|log| - 1] + [log[|log| - 1]];
  }

  lemma OrderedSnoc(log: seq<Row>, r: Row)
    requires Ordered(log) && r.rev > 0 && forall y :: y in log ==> y.rev < r.rev
    ensures Ordered(log + [r])
  {
    forall i, j | 0 <= i < j < |log + [r]|
      ensures (log + [r])[i].rev < (log + [r])[j].rev
    {
      assert i < |log| ==> log[i] in log;
    }
  }

  /** Appending one row with a fresh revision. */
  lemma AppendRow(log: seq<Row>, r: Row)
    requires Ordered(log) && r.rev > Head(log)
    ensures Ordered(log + [r]) && Head(log + [r]) == r.rev
    ensures Replay(log + [r]) == Execute(Replay(log), r)
  {
    OrderedSnoc(log, r);
    assert (log + [r])[..|log|] == log;
  }

  lemma RevUnique(log: seq<Row>, x: Row, y: Row)
    requires Ordered(log) && x in log && y in log && x.rev == y.rev
    ensures x == y
  {
    var i :| 0 <= i < |log| && log[i] == x;
    var j :| 0 <= j < |log| && log[j] == y;
  }

  lemma {:induction false} InUpTo(log: seq<Row>, rev: nat)
    requires Ordered(log)
    ensures Ordered(UpTo(log, rev))
    ensures forall r :: r in UpTo(log, rev) <==> r in log && r.rev <= rev
  {
    if log != [] {
      OrderedPrefix(log);
      var init, last := log[..|log| - 1], log[|log| - 1];
      assert last in log;
      InUpTo(init, rev);
      OrderedSnoc(UpTo(init, rev), last);
    }
  }

  /** `Final` holds exactly the last rows that come after `since`. */
  lemma {:induction false} FinalIsLast(log: seq<Row>, since: nat, r: Row)
    requires Ordered(log)
    ensures r.addr in Final(log, since) && Final(log, since)[r.addr] == r <==> IsLast(log, r) && r.rev > since
  {
    if log != [] {
      OrderedPrefix(log);
      FinalIsLast(log[..|log| - 1], since, r);
    }
  }

  lemma {:induction false} FinalHolds(log: seq<Row>, since: nat, a: Addr)
    requires Ordered(log)
    ensures a in Final(log, since) <==> exists r :: r in log && r.addr == a && r.rev > since
    ensures a in Final(log, since) ==> Final(log, since)[a].addr == a && IsLast(log, Final(log, since)[a])
  {
    if log != [] {
      OrderedPrefix(log);
      FinalHolds(log[..|log| - 1], since, a);
    }
    if a in Final(log, since) {
      FinalIsLast(log, since, Final(log, since)[a]);
    }
  }

  // --- table and log agree -------------------------------------------------------

  function Adds(f: map<Addr, Row>): Table {
    map a | a in f && f[a].op.Add? :: f[a].acct
  }

  function Dels(f: map<Addr, Row>): set<Addr> {
    set a | a in f && f[a].op.Del?
  }

  /** An address is in the replayed table, for an account, exactly when its last
      row is an add for that account. */
  lemma {:induction false} ReplayIsLast(log: seq<Row>)
    requires Ordered(log)
    ensures Replay(log) == Adds(Final(log, 0))
  {
    if log != [] {
      OrderedPrefix(log);
      ReplayIsLast(log[..|log| - 1]);
    }
  }

  // --- deltas --------------------------------------------------------------------

  datatype Delta = Compacted | Delta(add: Table, del: set<Addr>, rev: nat)

  /** What `DeltaSince` answers from a log. */
  function DeltaOf(log: seq<Row>, since: nat): Delta {
    if First(log) > 0 && since + 1 < First(log) then Compacted
    else Delta(Adds(Final(log, since)), Dels(Final(log, since)), Head(log))
  }

  /** A delta from `since` brings the table of any revision at or after `since`
      to the head: overlapping and repeated deltas are harmless. */
  lemma DeltaCatchesUp(log: seq<Row>, since: nat, rev: nat)
    requires Ordered(log) && since <= rev
    ensures (At(log, rev) + Adds(Final(log, since))) - Dels(Final(log, since)) == Replay(log)
  {
    var past := UpTo(log, rev);
    InUpTo(log, rev);
    ReplayIsLast(past);
    ReplayIsLast(log);
    forall a: Addr
      ensures Overlay(Final(past, 0), Final(log, since), Final(log, 0), a)
    {
      LastAcross(log, since, rev, a);
    }
    OverlayTables(Final(past, 0), Final(log, since), Final(log, 0));
  }

  /** At `a`, `all` is `late` where that says anything and `past` elsewhere. */
  predicate Overlay(past: map<Addr, Row>, late: map<Addr, Row>, all: map<Addr, Row>, a: Addr) {
    if a in late then a in all && all[a] == late[a]
    else (a in all <==> a in past) && (a in all ==> all[a] == past[a])
  }

  lemma OverlayTables(past: map<Addr, Row>, late: map<Addr, Row>, all: map<Addr, Row>)
    requires forall a: Addr :: Overlay(past, late, all, a)
    ensures (Adds(past) + Adds(late)) - Dels(late) == Adds(all)
  {
    var t, u := (Adds(past) + Adds(late)) - Dels(late), Adds(all);
    forall a: Addr
      ensures (a in t <==> a in u) && (a in u ==> t[a] == u[a])
    {
      assert Overlay(past, late, all, a);
    }
  }

  lemma LastAcross(log: seq<Row>, since: nat, rev: nat, a: Addr)
    requires Ordered(log) && since <= rev
    ensures Overlay(Final(UpTo(log, rev), 0), Final(log, since), Final(log, 0), a)
  {
    var past := UpTo(log, rev);
    InUpTo(log, rev);
    FinalHolds(log, since, a);
    FinalHolds(log, 0, a);
    FinalHolds(past, 0, a);
    if a in Final(log, since) {
      FinalIsLast(log, 0, Final(log, since)[a]);
    } else if a in Final(log, 0) {
      FinalIsLast(past, 0, Final(log, 0)[a]);
    }
  }

  /** Appending later rows does not change the past. */
  lemma {:induction false} AppendKeepsPast(log: seq<Row>, rows: seq<Row>, rev: nat)
    requires Ordered(log + rows) && rev <= Head(log)
    ensures UpTo(log + rows, rev) == UpTo(log, rev)
  {
    if rows == [] {
      assert log + rows == log;
    } else {
      var n := |rows| - 1;
      var all := log + rows;
      assert all[..|all| - 1] == log + rows[..n];
      OrderedPrefix(all);
      AppendKeepsPast(log, rows[..n], rev);
      assert log != [] ==> all[|log| - 1].rev < all[|all| - 1].rev;
    }
  }

  lemma {:induction false} UpToHead(log: seq<Row>, rev: nat)
    requires Ordered(log) && Head(log) <= rev
    ensures UpTo(log, rev) == log
  {
    if log != [] {
      OrderedPrefix(log);
      UpToHead(log[..|log| - 1], rev);
    }
  }

  // --- compaction ----------------------------------------------------------------

  predicate Keep(r: Row, cutoff: Time, head: nat) { r.at >= cutoff || r.rev >= head }

  /** Rows older than the cutoff go, except the newest one. */
  function Kept(log: seq<Row>, cutoff: Time, head: nat): seq<Row> {
    if log == [] then []
    else Kept(log[..|log| - 1], cutoff, head)
         + (if Keep(log[|log| - 1], cutoff, head) then [log[|log| - 1]] else [])
  }

  function Compact(log: seq<Row>, cutoff: Time): seq<Row> { Kept(log, cutoff, Head(log)) }

  lemma {:induction false} InKept(log: seq<Row>, cutoff: Time, head: nat)
    requires Ordered(log)
    ensures Ordered(Kept(log, cutoff, head))
    ensures forall r :: r in Kept(log, cutoff, head) <==> r in log && Keep(r, cutoff, head)
  {
    if log != [] {
      OrderedPrefix(log);
      var init, last := log[..|log| - 1], log[|log| - 1];
      assert last in log;
      InKept(init, cutoff, head);
      OrderedSnoc(Kept(init, cutoff, head), last);
    }
  }

  /** `created_at` is nondecreasing in `rev`. */
  predicate StampsOrdered(log: seq<Row>) {
    forall i, j :: 0 <= i < j < |log| ==> log[i].at <= log[j].at
  }

  /** The condition under which a compaction cannot be noticed: no dropped row
      above the oldest kept one is the last word on its address. */
  predicate NothingLost(log: seq<Row>, kept: seq<Row>) {
    forall x :: x in log && x !in kept && x.rev > First(kept) ==>
      exists y :: y in kept && y.addr == x.addr && y.rev > x.rev
  }

  /** Every answer is unchanged, or says that the log no longer reaches back. */
  ghost predicate Invisible(log: seq<Row>, kept: seq<Row>) {
    forall since: nat :: DeltaOf(kept, since) == Compacted || DeltaOf(kept, since) == DeltaOf(log, since)
  }

  /** What is left of a log after some compactions: some of its rows, among them
      the newest, so the head revision is unchanged. */
  predicate SubLog(kept: seq<Row>, log: seq<Row>) {
    && Ordered(log) && Ordered(kept)
    && (forall r :: r in kept ==> r in log)
    && Head(kept) == Head(log)
  }

  lemma HeadIs(log: seq<Row>)
    requires Ordered(log) && log != []
    ensures log[|log| - 1] in log && log[0] in log
    ensures forall r :: r in log ==> First(log) <= r.rev <= Head(log)
  {
  }

  lemma CompactIsSubLog(log: seq<Row>, cutoff: Time)
    requires Ordered(log)
    ensures SubLog(Compact(log, cutoff), log)
  {
    var kept := Compact(log, cutoff);
    InKept(log, cutoff, Head(log));
    if log != [] {
      HeadIs(log);
      assert log[|log| - 1] in kept;
      HeadIs(kept);
    } else {
      assert kept == [];
    }
  }

  lemma SubLogTransitive(a: seq<Row>, b: seq<Row>, c: seq<Row>)
    requires SubLog(a, b) && SubLog(b, c)
    ensures SubLog(a, c)
  {
  }

  lemma SubLogNonEmpty(kept: seq<Row>, log: seq<Row>)
    requires SubLog(kept, log)
    ensures log == [] <==> kept == []
    ensures log != [] ==> 0 < First(log) <= First(kept)
  {
    assert kept != [] ==> kept[0] in log;
    if log != [] {
      HeadIs(log);
    }
    if kept != [] {
      HeadIs(kept);
    }
  }

  /** Compaction goes unnoticed exactly when it loses no last word. */
  lemma InvisibleIff(log: seq<Row>, kept: seq<Row>)
    requires SubLog(kept, log)
    ensures Invisible(log, kept) <==> NothingLost(log, kept)
  {
    if NothingLost(log, kept) {
      forall since: nat
        ensures DeltaOf(kept, since) == Compacted || DeltaOf(kept, since) == DeltaOf(log, since)
      {
        if DeltaOf(kept, since) != Compacted {
          SameDelta(log, kept, since);
        }
      }
    } else {
      var x :| x in log && x !in kept && x.rev > First(kept)
               && !exists y :: y in kept && y.addr == x.addr && y.rev > x.rev;
      var since := LostDelta(log, kept, x);
    }
  }

  lemma SameDelta(log: seq<Row>, kept: seq<Row>, since: nat)
    requires SubLog(kept, log) && NothingLost(log, kept) && DeltaOf(kept, since) != Compacted
    ensures DeltaOf(kept, since) == DeltaOf(log, since)
  {
    SubLogNonEmpty(kept, log);
    forall a: Addr
      ensures a in Final(kept, since) <==> a in Final(log, since)
      ensures a in Final(log, since) ==> Final(kept, since)[a] == Final(log, since)[a]
    {
      SameLast(log, kept, since, a);
    }
    assert Final(kept, since) == Final(log, since);
  }

  lemma SameLast(log: seq<Row>, kept: seq<Row>, since: nat, a: Addr)
    requires SubLog(kept, log) && NothingLost(log, kept) && First(kept) <= since + 1
    ensures a in Final(kept, since) <==> a in Final(log, since)
    ensures a in Final(log, since) ==> Final(kept, since)[a] == Final(log, since)[a]
  {
    FinalHolds(log, since, a);
    FinalHolds(kept, since, a);
    if a in Final(log, since) {
      var r := Final(log, since)[a];
      if kept != [] && r.rev == kept[0].rev {
        RevUnique(log, r, kept[0]);
      }
      SubLogNonEmpty(kept, log);
      FinalIsLast(log, since, r);
      FinalIsLast(kept, since, r);
    }
  }

  /** A lost last word shows up in the delta just before it. */
  lemma LostDelta(log: seq<Row>, kept: seq<Row>, x: Row) returns (since: nat)
    requires SubLog(kept, log) && x in log && x !in kept && x.rev > First(kept)
    requires !exists y :: y in kept && y.addr == x.addr && y.rev > x.rev
    ensures DeltaOf(kept, since) != Compacted && DeltaOf(kept, since) != DeltaOf(log, since)
  {
    var a := x.addr;
    FinalHolds(log, 0, a);
    var z := Final(log, 0)[a];
    since := z.rev - 1;
    FinalHolds(log, since, a);
    FinalHolds(kept, since, a);
    SubLogNonEmpty(kept, log);
    assert a in Final(log, since);
    assert a !in Final(kept, since) by {
      forall y | y in kept && y.addr == a
        ensures y.rev < z.rev
      {
        if y.rev == z.rev {
          RevUnique(log, y, z);
        }
      }
    }
    FinalIsLast(log, since, z);
    assert a in DeltaOf(log, since).add || a in DeltaOf(log, since).del;
    assert a !in DeltaOf(kept, since).add && a !in DeltaOf(kept, since).del;
  }

  /** Ordered time stamps drop a prefix, so nothing is ever lost. */
  predicate NoHoles(log: seq<Row>, kept: seq<Row>) {
    forall x :: x in log && x !in kept ==> x.rev < First(kept)
  }

  lemma NoHolesInvisible(log: seq<Row>, kept: seq<Row>)
    requires SubLog(kept, log) && NoHoles(log, kept)
    ensures Invisible(log, kept)
  {
    InvisibleIff(log, kept);
  }

  lemma CompactNoHoles(log: seq<Row>, kept: seq<Row>, cutoff: Time)
    requires SubLog(kept, log) && NoHoles(log, kept) && StampsOrdered(log)
    ensures NoHoles(log, Compact(kept, cutoff))
  {
    var k2 := Compact(kept, cutoff);
    InKept(kept, cutoff, Head(kept));
    CompactIsSubLog(kept, cutoff);
    SubLogNonEmpty(kept, log);
    SubLogNonEmpty(k2, kept);
    forall x | x in log && x !in k2
      ensures x.rev < First(k2)
    {
      if x in kept && x.rev >= First(k2) {
        StampAfter(log, k2[0], x);
      }
    }
  }

  lemma StampAfter(log: seq<Row>, x: Row, y: Row)
    requires Ordered(log) && StampsOrdered(log) && x in log && y in log && x.rev <= y.rev
    ensures x.at <= y.at
  {
    var i :| 0 <= i < |log| && log[i] == x;
    var j :| 0 <= j < |log| && log[j] == y;
  }

  // --- attribution of usage to an account ----------------------------------------

  const WEEK: Time := 7 * 24 * 3600

  /** The newest row for `a` stamped after `after`. */
  function LastWithin(log: seq<Row>, a: Addr, after: Time): Option<Account> {
    if log == [] then None
    else
      var r := log[|log| - 1];
      if r.addr == a && r.at > after then Some(r.acct) else LastWithin(log[..|log| - 1], a, after)
  }

  /** The account a sample is billed to: the current holder, else the newest
      holder the log still knows from the last seven days. */
  function Attribute(current: Table, log: seq<Row>, a: Addr, now: Time): Option<Account> {
    if a in current then Some(current[a]) else LastWithin(log, a, now - WEEK)
  }

  lemma {:induction false} LastWithinIs(log: seq<Row>, a: Addr, after: Time)
    requires Ordered(log)
    ensures LastWithin(log, a, after).None? ==> forall r :: r in log && r.addr == a ==> r.at <= after
    ensures forall r :: r in log && r.addr == a && r.at > after && IsLast(log, r) ==> LastWithin(log, a, after) == Some(r.acct)
    ensures LastWithin(log, a, after).Some? ==> exists r :: r in log && r.addr == a && r.at > after
  {
    if log != [] {
      OrderedPrefix(log);
      var last := log[|log| - 1];
      assert last in log;
      LastWithinIs(log[..|log| - 1], a, after);
    }
  }

  /** Late usage goes to whoever the log last named as holder, if that row is an
      add or within seven days, as long as compaction keeps what is. */
  lemma AttributesLastHolder(hist: seq<Row>, log: seq<Row>, a: Addr, now: Time)
    requires SubLog(log, hist)
    requires forall r :: r in hist && r.at > now - 604_800 ==> r in log
    requires a in Final(hist, 0) && (Final(hist, 0)[a].op.Add? || Final(hist, 0)[a].at > now - 604_800)
    ensures Attribute(Replay(hist), log, a, now) == Some(Final(hist, 0)[a].acct)
  {
    ReplayIsLast(hist);
    FinalHolds(hist, 0, a);
    LastWithinIs(log, a, now - 604_800);
  }

  /** An address that never had a holder is billed to nobody. One whose last row is
      a removal over seven days ago is, if and only if no row of it is inside:
      stamps that follow the revisions ensure that. */
  lemma AttributesNobodyIff(hist: seq<Row>, log: seq<Row>, a: Addr, now: Time)
    requires SubLog(log, hist)
    requires forall r :: r in hist && r.at > now - 604_800 ==> r in log
    requires a in Final(hist, 0) ==> Final(hist, 0)[a].op.Del? && Final(hist, 0)[a].at <= now - 604_800
    ensures Attribute(Replay(hist), log, a, now) == None <==> forall r :: r in hist && r.addr == a ==> r.at <= now - 604_800
    ensures StampsOrdered(hist) ==> Attribute(Replay(hist), log, a, now) == None
  {
    ReplayIsLast(hist);
    FinalHolds(hist, 0, a);
    LastWithinIs(log, a, now - 604_800);
    if StampsOrdered(hist) {
      forall y | y in hist && y.addr == a
        ensures y.at <= now - 604_800
      {
        NamedHasLast(hist, y);
        StampAfter(hist, y, Final(hist, 0)[a]);
      }
    }
  }

  lemma NamedHasLast(hist: seq<Row>, y: Row)
    requires Ordered(hist) && y in hist
    ensures y.addr in Final(hist, 0) && Final(hist, 0)[y.addr] in hist && y.rev <= Final(hist, 0)[y.addr].rev
  {
    FinalHolds(hist, 0, y.addr);
  }
}
