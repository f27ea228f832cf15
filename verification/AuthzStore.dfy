/** The authorization tables and the operations on them: recompute, full set,
    delta, compaction and the memoized status (backend/store/authz.go,
    backend/store/retention.go), and the long-poll's choice of answer
    (backend/api.go). Each method is one committed transaction or snapshot. */
module AuthzStore {
  import opened AuthzLog
  import H = AuthzHash

  /** What a node is answered. */
  datatype Answer = Unchanged | Whole(members: Table, rev: nat) | Change(add: Table, del: set<Addr>, rev: nat)

  // --- the tables' invariant ------------------------------------------------------

  /** The current table is the replay of everything ever logged, and the log is
      what compaction left of that. */
  predicate Coupled(current: Table, log: seq<Row>, next: nat, hist: seq<Row>) {
    SubLog(log, hist) && Head(hist) < next && current == Replay(hist)
  }

  lemma CoupledAppend(current: Table, log: seq<Row>, next: nat, hist: seq<Row>, row: Row)
    requires Coupled(current, log, next, hist) && row.rev == next
    ensures Coupled(Execute(current, row), log + [row], next + 1, hist + [row])
  {
    AppendRow(hist, row);
    AppendRow(log, row);
  }

  /** `st` describes the address set of `t`. */
  ghost predicate Describes(sum: seq<nat> -> string, st: H.Status, t: Table) {
    st.count == |t| && forall l: seq<Addr> :: H.Members(l) == t.Keys ==> st.hash == H.Fingerprint(sum, l)
  }

  /** The memo is right for the revision it is keyed by. */
  ghost predicate MemoFits(sum: seq<nat> -> string, memo: Option<H.Status>, hist: seq<Row>) {
    memo.Some? ==> memo.value.rev <= Head(hist) && Describes(sum, memo.value, At(hist, memo.value.rev))
  }

  lemma MemoAppend(sum: seq<nat> -> string, memo: Option<H.Status>, hist: seq<Row>, row: Row)
    requires MemoFits(sum, memo, hist) && Ordered(hist) && row.rev > Head(hist)
    ensures MemoFits(sum, memo, hist + [row])
  {
    AppendRow(hist, row);
    if memo.Some? {
      AppendKeepsPast(hist, [row], memo.value.rev);
    }
  }

  // --- what a recompute logs ------------------------------------------------------

  predicate Same(t: Table, u: Table, a: Addr) {
    (a in t <==> a in u) && (a in t ==> t[a] == u[a])
  }

  lemma SameTables(t: Table, u: Table)
    requires forall a: Addr :: Same(t, u, a)
    ensures t == u
  {
    forall a: Addr
      ensures (a in t <==> a in u) && (a in t ==> t[a] == u[a])
    {
      assert Same(t, u, a);
    }
  }

  /** An add row names a new holder; a del row names the holder that lost. */
  predicate DiffRow(r: Row, before: Table, after: Table) {
    if r.op.Add? then r.addr in after && after[r.addr] == r.acct && !Same(before, after, r.addr)
    else r.addr !in after && r.addr in before && before[r.addr] == r.acct
  }

  /** One row per address whose holder changed. */
  predicate IsDiff(rows: seq<Row>, before: Table, after: Table) {
    && (forall i, j :: 0 <= i < j < |rows| ==> rows[i].addr != rows[j].addr)
    && (forall i :: 0 <= i < |rows| ==> DiffRow(rows[i], before, after))
  }

  lemma DiffSnoc(rows: seq<Row>, r: Row, before: Table, after: Table)
    requires IsDiff(rows, before, after) && DiffRow(r, before, after)
    requires forall i :: 0 <= i < |rows| ==> rows[i].addr != r.addr
    ensures IsDiff(rows + [r], before, after)
  {
  }

  predicate Stamped(rows: seq<Row>, now: Time) { forall i :: 0 <= i < |rows| ==> rows[i].at == now }

  lemma StampedSnoc(rows: seq<Row>, r: Row, now: Time)
    requires Stamped(rows, now) && r.at == now
    ensures Stamped(rows + [r], now)
  {
  }

  /** Loop state after the addresses of `desired` outside `todo` were handled. */
  ghost predicate Adding(rows: seq<Row>, before: Table, after: Table, todo: set<Addr>, current: Table) {
    && todo <= after.Keys
    && IsDiff(rows, before, after)
    && (forall i :: 0 <= i < |rows| ==> rows[i].addr in after && rows[i].addr !in todo)
    && (forall a: Addr :: Same(current, if a in after && a !in todo then after else before, a))
  }

  lemma AddingStep(rows: seq<Row>, before: Table, after: Table, todo: set<Addr>, current: Table, r: Row)
    requires Adding(rows, before, after, todo, current)
    requires r.addr in todo && r.op.Add? && r.acct == after[r.addr]
    ensures Same(before, after, r.addr) ==> Adding(rows, before, after, todo - {r.addr}, current)
    ensures !Same(before, after, r.addr) ==>
              Adding(rows + [r], before, after, todo - {r.addr}, Execute(current, r))
  {
    if !Same(before, after, r.addr) {
      DiffSnoc(rows, r, before, after);
    }
    forall a: Addr
      ensures Same(Execute(current, r), if a in after && a !in todo - {r.addr} then after else before, a)
    {
      assert Same(current, if a in after && a !in todo then after else before, a);
    }
    assert Same(before, after, r.addr) ==> Same(current, after, r.addr) by {
      assert Same(current, before, r.addr);
    }
  }

  /** Loop state after the addresses of the old table outside `todo` were handled. */
  ghost predicate Dropping(rows: seq<Row>, before: Table, after: Table, todo: set<Addr>, current: Table) {
    && todo <= before.Keys
    && IsDiff(rows, before, after)
    && (forall i :: 0 <= i < |rows| ==> rows[i].addr in after || rows[i].addr !in todo)
    && (forall a: Addr :: Same(current, if a in todo then before + after else after, a))
  }

  lemma DroppingStep(rows: seq<Row>, before: Table, after: Table, todo: set<Addr>, current: Table, r: Row)
    requires Dropping(rows, before, after, todo, current)
    requires r.addr in todo && r.op.Del? && r.acct == before[r.addr]
    ensures r.addr in after ==> Dropping(rows, before, after, todo - {r.addr}, current)
    ensures r.addr !in after ==> Dropping(rows + [r], before, after, todo - {r.addr}, Execute(current, r))
  {
    if r.addr !in after {
      DiffSnoc(rows, r, before, after);
    }
    var now := if r.addr in after then current else Execute(current, r);
    forall a: Addr
      ensures Same(now, if a in todo - {r.addr} then before + after else after, a)
    {
      assert Same(current, if a in todo then before + after else after, a);
    }
  }

  lemma AddsThenDrops(rows: seq<Row>, before: Table, after: Table, current: Table)
    requires Adding(rows, before, after, {}, current)
    ensures Dropping(rows, before, after, before.Keys, current)
  {
    forall a: Addr
      ensures Same(current, if a in before.Keys then before + after else after, a)
    {
      assert Same(current, if a in after then after else before, a);
    }
  }

  lemma Regroup(log: seq<Row>, a: seq<Row>, b: seq<Row>, r: Row)
    requires log == a + b
    ensures log + [r] == a + (b + [r])
  {
  }

  // --- answers ---------------------------------------------------------------------

  /** The long-poll's choice: nothing new, the whole set, or a delta, with the
      whole set again when the log no longer reaches the node's cursor. */
  function Serve(current: Table, log: seq<Row>, clientRev: nat, full: bool): Answer {
    if !full && clientRev == Head(log) then Unchanged
    else if full || clientRev == 0 then Whole(current, Head(log))
    else match DeltaOf(log, clientRev)
      case Compacted => Whole(current, Head(log))
      case Delta(add, del, rev) => Change(add, del, rev)
  }

  /** What a node that applies the answer holds afterwards. */
  function Follow(held: Table, a: Answer): Table {
    match a
    case Unchanged => held
    case Whole(members, _) => members
    case Change(add, del, _) => (held + add) - del
  }

  /** A node that holds the table of any revision from its cursor on is brought
      exactly to the current one by whatever it is answered, compaction or not. */
  lemma ServeCatchesUp(current: Table, log: seq<Row>, next: nat, hist: seq<Row>, clientRev: nat, full: bool, held: nat)
    requires Coupled(current, log, next, hist) && NothingLost(hist, log)
    requires clientRev <= held <= Head(hist)
    ensures Follow(At(hist, held), Serve(current, log, clientRev, full)) == current
  {
    if !full && clientRev == Head(log) {
      UpToHead(hist, held);
    } else if !full && clientRev > 0 && DeltaOf(log, clientRev) != Compacted {
      InvisibleIff(hist, log);
      assert DeltaOf(log, clientRev) == DeltaOf(hist, clientRev);
      DeltaCatchesUp(hist, clientRev, held);
    }
  }

  /** A snapshot of the two tables. */
  datatype Snapshot = Snapshot(current: Table, log: seq<Row>)

  /** The endpoint reads its tables up to three times, and others commit in
      between: the revision to compare with, then the answer, then the whole set
      if the log turned out not to reach. */
  function ServeAcross(seen: nat, mid: Snapshot, late: Snapshot, clientRev: nat, full: bool): Answer {
    if !full && clientRev == seen then Unchanged
    else match Answered(mid, clientRev, full)
      case Some(a) => a
      case None => Whole(late.current, Head(late.log))
  }

  /** The second read; nothing when the delta was compacted away. */
  function Answered(now: Snapshot, clientRev: nat, full: bool): Option<Answer> {
    if full || clientRev == 0 then Some(Whole(now.current, Head(now.log)))
    else match DeltaOf(now.log, clientRev)
      case Compacted => None
      case Delta(add, del, rev) => Some(Change(add, del, rev))
  }

  ghost predicate Taken(s: Snapshot, hist: seq<Row>) {
    SubLog(s.log, hist) && NothingLost(hist, s.log) && s.current == Replay(hist)
  }

  /** The three reads together answer as one read would have: unchanged at the
      first, or what a single read at the answering moment gives, with a forced
      full pull standing for the fallback. */
  lemma OneReadEnough(seen: nat, mid: Snapshot, late: Snapshot, clientRev: nat, full: bool)
    requires seen <= Head(mid.log) && (full || clientRev <= seen)
    ensures var a := ServeAcross(seen, mid, late, clientRev, full);
            || (a == Unchanged && clientRev == seen)
            || a == Serve(mid.current, mid.log, clientRev, full)
            || a == Serve(late.current, late.log, 0, true)
  {
  }

  /** However the history grows between the reads, a node that holds the table of
      any revision from its cursor up to the first read ends at the table of the
      read that answered it. */
  lemma AcrossCatchesUp(h1: seq<Row>, h2: seq<Row>, h3: seq<Row>, mid: Snapshot, late: Snapshot, clientRev: nat, full: bool, held: nat)
    requires h1 <= h2 <= h3 && Ordered(h1) && Taken(mid, h2) && Taken(late, h3)
    requires clientRev <= held <= Head(h1)
    ensures EndsAtARead(ServeAcross(Head(h1), mid, late, clientRev, full), h1, h2, h3, held)
  {
    if !full && clientRev == Head(h1) {
      UpToHead(h1, held);
    } else if !full && clientRev > 0 && DeltaOf(mid.log, clientRev) != Compacted {
      DeltaAcross(h1, h2, mid, clientRev, held);
      ChangeAcross(h1, h2, h3, mid, late, clientRev, held);
    } else {
      WholeAcross(h1, h2, h3, mid, late, clientRev, full, held);
    }
  }

  /** What the node holds after the answer is the table at one of the reads. */
  predicate EndsAtARead(a: Answer, h1: seq<Row>, h2: seq<Row>, h3: seq<Row>, held: nat) {
    match a
    case Unchanged => At(h1, held) == Replay(h1)
    case Whole(members, rev) => (rev == Head(h2) && members == Replay(h2)) || (rev == Head(h3) && members == Replay(h3))
    case Change(add, del, rev) => rev == Head(h2) && (At(h1, held) + add) - del == Replay(h2)
  }

  lemma ChangeAcross(h1: seq<Row>, h2: seq<Row>, h3: seq<Row>, mid: Snapshot, late: Snapshot, clientRev: nat, held: nat)
    requires clientRev > 0 && clientRev != Head(h1) && DeltaOf(mid.log, clientRev) != Compacted
    requires var d := DeltaOf(mid.log, clientRev); (At(h1, held) + d.add) - d.del == Replay(h2) && d.rev == Head(h2)
    ensures EndsAtARead(ServeAcross(Head(h1), mid, late, clientRev, false), h1, h2, h3, held)
  {
  }

  lemma WholeAcross(h1: seq<Row>, h2: seq<Row>, h3: seq<Row>, mid: Snapshot, late: Snapshot, clientRev: nat, full: bool, held: nat)
    requires Head(mid.log) == Head(h2) && mid.current == Replay(h2)
    requires Head(late.log) == Head(h3) && late.current == Replay(h3)
    requires full || (clientRev != Head(h1) && (clientRev == 0 || DeltaOf(mid.log, clientRev) == Compacted))
    ensures EndsAtARead(ServeAcross(Head(h1), mid, late, clientRev, full), h1, h2, h3, held)
  {
  }

  lemma DeltaAcross(h1: seq<Row>, h2: seq<Row>, mid: Snapshot, clientRev: nat, held: nat)
    requires h1 <= h2 && Taken(mid, h2) && clientRev <= held <= Head(h1) && DeltaOf(mid.log, clientRev) != Compacted
    ensures var d := DeltaOf(mid.log, clientRev); (At(h1, held) + d.add) - d.del == Replay(h2) && d.rev == Head(h2)
  {
    InvisibleIff(h2, mid.log);
    assert DeltaOf(mid.log, clientRev) == DeltaOf(h2, clientRev);
    DeltaCatchesUp(h2, clientRev, held);
    assert h2 == h1 + h2[|h1|..];
    AppendKeepsPast(h1, h2[|h1|..], held);
  }

  /** The members of a set in some order. */
  method Listed(s: set<Addr>) returns (l: seq<Addr>)
    ensures H.Members(l) == s && |l| == |s|
  {
    l := [];
    var todo := s;
    while todo != {}
      invariant forall a: Addr :: a in l <==> a in s && a !in todo
      invariant todo <= s && |l| + |todo| == |s|
      decreases |todo|
    {
      var a :| a in todo;
      todo := todo - {a};
      l := l + [a];
    }
  }

  // --- the store -------------------------------------------------------------------

  class Store {
    const sum: seq<nat> -> string
    var current: Table
    var log: seq<Row>
    var next: nat
    var memo: Option<H.Status>
    /** Every row ever committed. */
    ghost var hist: seq<Row>

    ghost predicate Valid()
      reads this
    {
      Coupled(current, log, next, hist) && MemoFits(sum, memo, hist)
    }

    constructor (sum: seq<nat> -> string)
      ensures Valid() && current == map[] && log == [] && hist == [] && this.sum == sum
    {
      this.sum := sum;
      current, log, next, memo, hist := map[], [], 1, None, [];
    }

    /** One log row together with its effect on the table. */
    method Record(row: Row)
      requires Valid() && row.rev == next
      modifies `current, `log, `next, `hist
      ensures Valid() && next == old(next) + 1
      ensures current == Execute(old(current), row)
      ensures log == old(log) + [row] && hist == old(hist) + [row]
    {
      CoupledAppend(current, log, next, hist, row);
      MemoAppend(sum, memo, hist, row);
      current := Execute(current, row);
      log := log + [row];
      hist := hist + [row];
      next := next + 1;
    }

    method RecordAdds(desired: Table, now: Time) returns (ghost rows: seq<Row>)
      requires Valid()
      modifies `current, `log, `next, `hist
      ensures Valid() && log == old(log) + rows && hist == old(hist) + rows
      ensures Adding(rows, old(current), desired, {}, current)
      ensures Stamped(rows, now)
    {
      rows := [];
      var snapshot, todo := current, desired.Keys;
      assert forall a: Addr :: Same(current, snapshot, a);
      while todo != {}
        invariant Valid() && log == old(log) + rows && hist == old(hist) + rows
        invariant Adding(rows, snapshot, desired, todo, current)
        invariant Stamped(rows, now)
        decreases |todo|
      {
        var addr :| addr in todo;
        var row := Row(next, Add, addr, desired[addr], now);
        AddingStep(rows, snapshot, desired, todo, current, row);
        todo := todo - {addr};
        if addr in snapshot && snapshot[addr] == desired[addr] {
          continue;
        }
        Regroup(log, old(log), rows, row);
        Regroup(hist, old(hist), rows, row);
        Record(row);
        StampedSnoc(rows, row, now);
        rows := rows + [row];
      }
    }

    method RecordDrops(ghost rows0: seq<Row>, ghost log0: seq<Row>, ghost hist0: seq<Row>,
                       snapshot: Table, desired: Table, now: Time)
      returns (removed: set<Addr>, ghost rows: seq<Row>)
      requires Valid() && Dropping(rows0, snapshot, desired, snapshot.Keys, current)
      requires log == log0 + rows0 && hist == hist0 + rows0
      requires Stamped(rows0, now)
      modifies `current, `log, `next, `hist
      ensures Valid() && log == log0 + rows && hist == hist0 + rows
      ensures Dropping(rows, snapshot, desired, {}, current)
      ensures Stamped(rows, now)
      ensures forall a: Addr :: a in removed <==> a in snapshot && a !in desired
    {
      rows, removed := rows0, {};
      var todo := snapshot.Keys;
      while todo != {}
        invariant Valid() && log == log0 + rows && hist == hist0 + rows
        invariant Dropping(rows, snapshot, desired, todo, current)
        invariant Stamped(rows, now)
        invariant forall a: Addr :: a in removed <==> a in snapshot && a !in desired && a !in todo
        decreases |todo|
      {
        var addr :| addr in todo;
        var row := Row(next, Del, addr, snapshot[addr], now);
        DroppingStep(rows, snapshot, desired, todo, current, row);
        todo := todo - {addr};
        if addr in desired {
          continue;
        }
        Regroup(log, log0, rows, row);
        Regroup(hist, hist0, rows, row);
        Record(row);
        StampedSnoc(rows, row, now);
        rows := rows + [row];
        removed := removed + {addr};
      }
    }

    /** Brings the table to the desired map. Whatever it logs is exactly the
        difference, stamped with the call's time, and replaying everything logged so far gives the new table. */
    method RecomputeAuthz(desired: Table, now: Time) returns (removed: set<Addr>, rev: nat)
      requires Valid()
      modifies `current, `log, `next, `hist
      ensures Valid() && current == desired
      ensures removed == old(current).Keys - desired.Keys
      ensures rev == Head(log)
      ensures exists rows: seq<Row> :: IsDiff(rows, old(current), desired)
                && Stamped(rows, now)
                && log == old(log) + rows && hist == old(hist) + rows
    {
      var snapshot := current;
      ghost var adds, rows;
      adds := RecordAdds(desired, now);
      AddsThenDrops(adds, snapshot, desired, current);
      removed, rows := RecordDrops(adds, old(log), old(hist), snapshot, desired, now);
      rev := Head(log);
      SameTables(current, desired);
    }
  
    /** The whole table and its revision, from one snapshot. */
    method FullSet() returns (members: Table, rev: nat)
      requires Valid()
      ensures rev == Head(hist) && members == At(hist, rev)
    {
      members, rev := current, Head(log);
      UpToHead(hist, rev);
    }

    method DeltaSince(clientRev: nat) returns (d: Delta)
      ensures d == DeltaOf(log, clientRev)
    {
      if First(log) > 0 && clientRev + 1 < First(log) {
        return Compacted;
      }
      var final: map<Addr, Row> := map[];
      for i := 0 to |log|
        invariant final == Final(log[..i], clientRev)
      {
        assert log[..i + 1][..i] == log[..i];
        if log[i].rev > clientRev {
          final := final[log[i].addr := log[i]];
        }
      }
      assert log[..|log|] == log;
      var add, del := SplitFinal(final);
      return Delta(add, del, Head(log));
    }

    method SplitFinal(final: map<Addr, Row>) returns (add: Table, del: set<Addr>)
      ensures add == Adds(final) && del == Dels(final)
    {
      add, del := map[], {};
      var todo := final.Keys;
      while todo != {}
        invariant todo <= final.Keys
        invariant forall a: Addr :: a in add <==> a in final && a !in todo && final[a].op.Add?
        invariant forall a: Addr :: a in add ==> add[a] == final[a].acct
        invariant forall a: Addr :: a in del <==> a in final && a !in todo && final[a].op.Del?
        decreases |todo|
      {
        var a :| a in todo;
        todo := todo - {a};
        if final[a].op.Add? {
          add := add[a := final[a].acct];
        } else {
          del := del + {a};
        }
      }
    }

    /** Drops old rows; the head revision and the current table stay. */
    method CompactAuthzRevisions(cutoff: Time) returns (dropped: nat)
      requires Valid()
      modifies `log
      ensures Valid() && log == Compact(old(log), cutoff) && dropped == |old(log)| - |log|
      ensures Head(log) == Head(old(log))
      ensures NoHoles(hist, old(log)) && StampsOrdered(hist) ==> NoHoles(hist, log)
    {
      CompactIsSubLog(log, cutoff);
      CompactShorter(log, cutoff, Head(log));
      SubLogTransitive(Compact(log, cutoff), log, hist);
      if NoHoles(hist, log) && StampsOrdered(hist) {
        CompactNoHoles(hist, log, cutoff);
      }
      dropped := |log| - |Compact(log, cutoff)|;
      log := Compact(log, cutoff);
    }

    /** Size, fingerprint and revision of the current set. The memo answers only
        at the revision it was made for, and there it equals a fresh scan. */
    method AuthzStatus() returns (st: H.Status)
      requires Valid()
      modifies `memo
      ensures Valid() && st.rev == Head(log) && Describes(sum, st, current)
    {
      var rev := Head(log);
      UpToHead(hist, rev);
      if memo.Some? && memo.value.rev == rev {
        return memo.value;
      }
      var addrs := Listed(current.Keys);
      var hash := H.Of(sum, addrs);
      forall l: seq<Addr> | H.Members(l) == current.Keys
        ensures hash == H.Fingerprint(sum, l)
      {
        H.FingerprintOfSet(sum, addrs, l);
      }
      st := H.Status(rev, |addrs|, hash);
      memo := Some(st);
    }

    /** One read of the endpoint; nothing when the log no longer reaches the cursor. */
    method WriteAuthz(clientRev: nat, full: bool) returns (a: Option<Answer>)
      requires Valid()
      ensures a == Answered(Snapshot(current, log), clientRev, full)
      ensures a.None? <==> !full && 0 < clientRev && clientRev + 1 < First(log)
    {
      if full || clientRev == 0 {
        var members, rev := FullSet();
        UpToHead(hist, rev);
        return Some(Whole(members, rev));
      }
      var d := DeltaSince(clientRev);
      if d == Compacted {
        return None;
      }
      return Some(Change(d.add, d.del, d.rev));
    }
  }

  lemma {:induction false} CompactShorter(log: seq<Row>, cutoff: Time, head: nat)
    ensures |Kept(log, cutoff, head)| <= |log|
  {
    if log != [] {
      CompactShorter(log[..|log| - 1], cutoff, head);
    }
  }
}
