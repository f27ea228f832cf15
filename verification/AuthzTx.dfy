/** Recompute transactions, readers and compaction under every interleaving
    (backend/store/authz.go, backend/store/store.go, backend/store/retention.go). */
module AuthzTx {
  import opened AuthzLog

  type TxId = nat

  /** A recompute transaction. `start` is the transaction's now(), which stamps
      its rows; `table` and `rows` are its uncommitted view and inserts. */
  datatype Tx = Waiting(start: Time) | Holding(start: Time, table: Table, rows: seq<Row>)

  /** `current` and `log` are the committed tables; `next` is the revision
      sequence, whose numbers are never handed out twice, not even after a
      rollback; `hist` is every row ever committed, compaction aside. */
  datatype Db = Db(current: Table, log: seq<Row>, next: nat, txs: map<TxId, Tx>, hist: seq<Row>)

  datatype Step =
    | Begin(tx: TxId, now: Time)
    | Lock(tx: TxId)
    | Insert(tx: TxId, op: Op, addr: Addr, acct: Account)
    | Commit(tx: TxId)
    | Abort(tx: TxId)
    | CompactLog(cutoff: Time)

  const INITIAL := Db(map[], [], 1, map[], [])

  predicate LockFree(db: Db) { forall t :: t in db.txs ==> !db.txs[t].Holding? }

  /** `exclusive` is the advisory lock: with it, one transaction holds at a time. */
  predicate Enabled(db: Db, s: Step, exclusive: bool) {
    match s
    case Begin(t, _) => t !in db.txs
    case Lock(t) => t in db.txs && db.txs[t].Waiting? && (exclusive ==> LockFree(db))
    case Insert(t, _, _, _) => t in db.txs && db.txs[t].Holding?
    case Commit(t) => t in db.txs && db.txs[t].Holding?
    case Abort(t) => t in db.txs
    case CompactLog(_) => true
  }

  function Next(db: Db, s: Step, exclusive: bool): Db
    requires Enabled(db, s, exclusive)
  {
    match s
    case Begin(t, now) => db.(txs := db.txs[t := Waiting(now)])
    case Lock(t) => db.(txs := db.txs[t := Holding(db.txs[t].start, db.current, [])])
    case Insert(t, op, a, acct) =>
      var tx := db.txs[t];
      var row := Row(db.next, op, a, acct, tx.start);
      db.(next := db.next + 1, txs := db.txs[t := tx.(table := Execute(tx.table, row), rows := tx.rows + [row])])
    case Commit(t) =>
      var tx := db.txs[t];
      db.(current := tx.table, log := db.log + tx.rows, hist := db.hist + tx.rows, txs := db.txs - {t})
    case Abort(t) => db.(txs := db.txs - {t})
    case CompactLog(cutoff) => db.(log := Compact(db.log, cutoff))
  }

  predicate Runs(db: Db, steps: seq<Step>, exclusive: bool)
    decreases |steps|
  {
    steps == [] || (Enabled(db, steps[0], exclusive) && Runs(Next(db, steps[0], exclusive), steps[1..], exclusive))
  }

  function After(db: Db, steps: seq<Step>, exclusive: bool): Db
    requires Runs(db, steps, exclusive)
    decreases |steps|
  {
    if steps == [] then db else After(Next(db, steps[0], exclusive), steps[1..], exclusive)
  }

  // --- what every interleaving keeps ---------------------------------------------

  /** An open transaction's rows would extend the committed history in order. */
  predicate TxOk(db: Db, tx: Tx) {
    tx.Holding? ==>
      && Ordered(db.hist + tx.rows)
      && Head(db.hist + tx.rows) < db.next
      && tx.table == Replay(db.hist + tx.rows)
  }

  predicate Inv(db: Db) {
    && SubLog(db.log, db.hist)
    && Head(db.hist) < db.next
    && db.current == Replay(db.hist)
    && (forall t :: t in db.txs ==> TxOk(db, db.txs[t]))
    && (forall t, u :: t in db.txs && u in db.txs && db.txs[t].Holding? && db.txs[u].Holding? ==> t == u)
  }

  lemma InitialInv()
    ensures Inv(INITIAL)
  {
  }

  lemma InsertTxOk(db: Db, tx: Tx, row: Row)
    requires tx.Holding? && TxOk(db, tx) && row.rev == db.next
    ensures TxOk(db.(next := db.next + 1), tx.(table := Execute(tx.table, row), rows := tx.rows + [row]))
  {
    AppendRow(db.hist + tx.rows, row);
    assert db.hist + (tx.rows + [row]) == (db.hist + tx.rows) + [row];
  }

  lemma InsertInv(db: Db, t: TxId, op: Op, a: Addr, acct: Account)
    requires Inv(db) && Enabled(db, Insert(t, op, a, acct), true)
    ensures Inv(Next(db, Insert(t, op, a, acct), true))
  {
    var db' := Next(db, Insert(t, op, a, acct), true);
    InsertTxOk(db, db.txs[t], Row(db.next, op, a, acct, db.txs[t].start));
    forall u | u in db'.txs
      ensures TxOk(db', db'.txs[u])
    {
      assert TxOk(db, db.txs[u]);
    }
  }

  lemma CommitInv(db: Db, t: TxId)
    requires Inv(db) && Enabled(db, Commit(t), true)
    ensures Inv(Next(db, Commit(t), true))
  {
    var tx := db.txs[t];
    assert TxOk(db, tx);
    AppendSubLog(db.log, db.hist, tx.rows);
  }

  lemma AppendSubLog(kept: seq<Row>, log: seq<Row>, rows: seq<Row>)
    requires SubLog(kept, log) && Ordered(log + rows)
    ensures SubLog(kept + rows, log + rows)
    ensures NoHoles(log, kept) ==> NoHoles(log + rows, kept + rows)
  {
    SubLogNonEmpty(kept, log);
    forall i, j | 0 <= i < j < |kept + rows|
      ensures (kept + rows)[i].rev < (kept + rows)[j].rev
    {
      if i < |kept| <= j {
        assert kept[i] in log;
        var k :| 0 <= k < |log| && log[k] == kept[i];
        var m := |log| + (j - |kept|);
        assert (log + rows)[k] == kept[i] && (log + rows)[m] == rows[j - |kept|];
      } else if |kept| <= i {
        var m, n := |log| + (i - |kept|), |log| + (j - |kept|);
        assert (log + rows)[m] == rows[i - |kept|] && (log + rows)[n] == rows[j - |kept|];
      }
    }
    forall i | 0 <= i < |rows|
      ensures rows[i].rev > 0
    {
      assert (log + rows)[|log| + i] == rows[i];
    }
  }

  lemma StepInv(db: Db, s: Step)
    requires Inv(db) && Enabled(db, s, true)
    ensures Inv(Next(db, s, true))
    ensures db.hist <= Next(db, s, true).hist
  {
    match s
    case Begin(t, now) =>
    case Lock(t) =>
      assert db.hist + [] == db.hist;
    case Insert(t, op, a, acct) => InsertInv(db, t, op, a, acct);
    case Commit(t) => CommitInv(db, t);
    case Abort(t) =>
    case CompactLog(cutoff) =>
      CompactIsSubLog(db.log, cutoff);
      SubLogTransitive(Compact(db.log, cutoff), db.log, db.hist);
  }

  lemma {:induction false} RunInv(db: Db, steps: seq<Step>)
    requires Inv(db) && Runs(db, steps, true)
    ensures Inv(After(db, steps, true))
    ensures db.hist <= After(db, steps, true).hist
    decreases |steps|
  {
    if steps != [] {
      StepInv(db, steps[0]);
      RunInv(Next(db, steps[0], true), steps[1..]);
    }
  }

  // --- main results --------------------------------------------------------------

  /** A revision that becomes visible later exceeds every revision visible before,
      so a cursor taken from a snapshot never passes a row it was not handed. */
  lemma CursorNeverSkips(db: Db, steps: seq<Step>, row: Row)
    requires Inv(db) && Runs(db, steps, true)
    requires row in After(db, steps, true).hist
    ensures row in db.hist <==> row.rev <= Head(db.log)
  {
    RunInv(db, steps);
    var later := After(db, steps, true).hist;
    if db.hist != [] {
      HeadIs(db.hist);
    }
    var k :| 0 <= k < |later| && later[k] == row;
    assert k < |db.hist| ==> db.hist[k] == row;
    assert 0 < |db.hist| <= k ==> later[|db.hist| - 1].rev < later[k].rev;
  }

  /** What a snapshot reader sees at any point of any run: the full set is the
      replay at its revision, and later history leaves that replay alone. */
  lemma SnapshotIsReplay(db: Db, steps: seq<Step>)
    requires Inv(db) && Runs(db, steps, true)
    ensures db.current == At(After(db, steps, true).hist, Head(db.log))
  {
    RunInv(db, steps);
    var later := After(db, steps, true).hist;
    var rows := later[|db.hist|..];
    assert later == db.hist + rows;
    AppendKeepsPast(db.hist, rows, Head(db.hist));
    UpToHead(db.hist, Head(db.hist));
  }

  /** With ordered stamps, compaction interleaved anywhere keeps the head and
      never changes an answer other than to "compacted". */
  lemma {:induction false} CompactionInvisible(db: Db, steps: seq<Step>)
    requires Inv(db) && NoHoles(db.hist, db.log) && Runs(db, steps, true)
    requires StampsOrdered(After(db, steps, true).hist)
    ensures Head(After(db, steps, true).log) == Head(After(db, steps, true).hist)
    ensures Invisible(After(db, steps, true).hist, After(db, steps, true).log)
    decreases |steps|
  {
    if steps == [] {
      NoHolesInvisible(db.hist, db.log);
    } else {
      StepInv(db, steps[0]);
      RunInv(Next(db, steps[0], true), steps[1..]);
      StampsPrefix(db.hist, After(db, steps, true).hist);
      StepNoHoles(db, steps[0]);
      CompactionInvisible(Next(db, steps[0], true), steps[1..]);
    }
  }

  lemma StampsPrefix(a: seq<Row>, b: seq<Row>)
    requires a <= b && StampsOrdered(b)
    ensures StampsOrdered(a)
  {
    assert forall i :: 0 <= i < |a| ==> a[i] == b[i];
  }

  lemma StepNoHoles(db: Db, s: Step)
    requires Inv(db) && NoHoles(db.hist, db.log) && StampsOrdered(db.hist) && Enabled(db, s, true)
    ensures NoHoles(Next(db, s, true).hist, Next(db, s, true).log)
  {
    match s {
      case CompactLog(cutoff) => CompactNoHoles(db.hist, db.log, cutoff);
      case Commit(t) =>
        assert TxOk(db, db.txs[t]);
        AppendSubLog(db.log, db.hist, db.txs[t].rows);
      case _ =>
    }
  }

  // --- why the two hypotheses are there ---------------------------------------------

  /** One more step of a run from the start. */
  lemma Go(p: seq<Step>, d: Db, s: Step, exclusive: bool) returns (p': seq<Step>, d': Db)
    requires Runs(INITIAL, p, exclusive) && After(INITIAL, p, exclusive) == d && Enabled(d, s, exclusive)
    ensures Runs(INITIAL, p', exclusive) && After(INITIAL, p', exclusive) == d'
    ensures d' == Next(d, s, exclusive)
  {
    p', d' := p + [s], Next(d, s, exclusive);
    RunsSnoc(INITIAL, p, s, exclusive);
  }

  lemma {:induction false} RunsSnoc(db: Db, p: seq<Step>, s: Step, exclusive: bool)
    requires Runs(db, p, exclusive) && Enabled(After(db, p, exclusive), s, exclusive)
    ensures Runs(db, p + [s], exclusive)
    ensures After(db, p + [s], exclusive) == Next(After(db, p, exclusive), s, exclusive)
    decreases |p|
  {
    if p == [] {
      var d := Next(db, s, exclusive);
      assert [s][1..] == [] && Runs(d, [], exclusive) && After(d, [], exclusive) == d;
      assert p + [s] == [s];
    } else {
      assert (p + [s])[1..] == p[1..] + [s];
      RunsSnoc(Next(db, p[0], exclusive), p[1..], s, exclusive);
    }
  }

  // --- late usage -------------------------------------------------------------------------

  /** No compaction cuts into the look-back of `now`. */
  predicate CutsBefore(steps: seq<Step>, now: Time) {
    forall s :: s in steps && s.CompactLog? ==> s.cutoff <= now - 604_800
  }

  predicate LookBackKept(db: Db, now: Time) {
    forall r :: r in db.hist && r.at > now - 604_800 ==> r in db.log
  }

  lemma {:induction false} RunKeepsLookBack(db: Db, steps: seq<Step>, now: Time)
    requires Inv(db) && Runs(db, steps, true) && CutsBefore(steps, now) && LookBackKept(db, now)
    ensures LookBackKept(After(db, steps, true), now)
    decreases |steps|
  {
    if steps != [] {
      var s := steps[0];
      assert s in steps;
      StepInv(db, s);
      if s.CompactLog? {
        InKept(db.log, s.cutoff, Head(db.log));
      }
      RunKeepsLookBack(Next(db, s, true), steps[1..], now);
    }
  }

  /** Over every run whose compactions spare the look-back, late usage goes to the last
      holder ever logged when that row is an add or inside the look-back. */
  lemma LateUsageBilled(steps: seq<Step>, now: Time, a: Addr)
    requires Runs(INITIAL, steps, true) && CutsBefore(steps, now)
    ensures var db := After(INITIAL, steps, true);
            a in Final(db.hist, 0) && (Final(db.hist, 0)[a].op.Add? || Final(db.hist, 0)[a].at > now - 604_800) ==>
              Attribute(db.current, db.log, a, now) == Some(Final(db.hist, 0)[a].acct)
  {
    var db := After(INITIAL, steps, true);
    InitialInv();
    RunInv(INITIAL, steps);
    RunKeepsLookBack(INITIAL, steps, now);
    if a in Final(db.hist, 0) && (Final(db.hist, 0)[a].op.Add? || Final(db.hist, 0)[a].at > now - 604_800) {
      AttributesLastHolder(db.hist, db.log, a, now);
    }
  }

  /** Without the advisory lock a smaller revision can surface after a larger one
      was already handed out. */
  lemma LockNeeded()
    ensures exists before: seq<Step>, after: seq<Step> ::
              Runs(INITIAL, before, false) && Runs(INITIAL, after, false) && before <= after
              && !Ordered(After(INITIAL, after, false).hist)
              && Head(After(INITIAL, before, false).log) > Head(After(INITIAL, after, false).log)
  {
    var p, d := [], INITIAL;
    p, d := Go(p, d, Begin(1, 0), false);
    p, d := Go(p, d, Begin(2, 0), false);
    p, d := Go(p, d, Lock(1), false);
    p, d := Go(p, d, Lock(2), false);
    p, d := Go(p, d, Insert(1, Add, 7, 70), false);
    p, d := Go(p, d, Insert(2, Add, 8, 80), false);
    p, d := Go(p, d, Commit(2), false);
    var before := p;
    RunsSnoc(INITIAL, p, Commit(1), false);
    var later := Next(d, Commit(1), false).hist;
    assert later[0].rev == 2 && later[1].rev == 1;
    assert before <= p + [Commit(1)];
  }

  /** Rows are stamped with the transaction's start, so a transaction that waited
      for the lock writes an older stamp under a newer revision; a cutoff between
      the two then removes a row from the middle of the log, unannounced. */
  lemma StampsNeeded()
    ensures exists steps: seq<Step> ::
              Runs(INITIAL, steps, true)
              && !Invisible(After(INITIAL, steps, true).hist, After(INITIAL, steps, true).log)
  {
    var p, d := LateOldStamp();
    p, d := Go(p, d, Begin(3, 30), true);
    p, d := RunOne(p, d, 3, 9, 90);
    HoleAppears(d.log[0], d.log[1], d.log[2], d.log, 15);
    p, d := Go(p, d, CompactLog(15), true);
  }

  /** Transaction 1 starts first but gets the lock second. */
  lemma LateOldStamp() returns (p: seq<Step>, d: Db)
    ensures Runs(INITIAL, p, true) && After(INITIAL, p, true) == d
    ensures d.log == d.hist == [Row(1, Add, 7, 70, 20), Row(2, Add, 8, 80, 10)]
    ensures d.next == 3 && d.txs == map[]
  {
    p, d := [], INITIAL;
    p, d := Go(p, d, Begin(1, 10), true);
    p, d := Go(p, d, Begin(2, 20), true);
    p, d := RunOne(p, d, 2, 7, 70);
    p, d := RunOne(p, d, 1, 8, 80);
  }

  /** A waiting transaction takes the lock, adds one row and commits. */
  lemma RunOne(p: seq<Step>, d: Db, t: TxId, a: Addr, acct: Account) returns (p': seq<Step>, d': Db)
    requires Runs(INITIAL, p, true) && After(INITIAL, p, true) == d
    requires t in d.txs && d.txs[t].Waiting? && LockFree(d)
    ensures Runs(INITIAL, p', true) && After(INITIAL, p', true) == d'
    ensures d'.log == d.log + [Row(d.next, Add, a, acct, d.txs[t].start)]
    ensures d'.hist == d.hist + [Row(d.next, Add, a, acct, d.txs[t].start)]
    ensures d'.next == d.next + 1 && d'.txs == d.txs - {t}
  {
    p', d' := Go(p, d, Lock(t), true);
    p', d' := Go(p', d', Insert(t, Add, a, acct), true);
    p', d' := Go(p', d', Commit(t), true);
  }

  lemma HoleAppears(r1: Row, r2: Row, r3: Row, log: seq<Row>, cutoff: Time)
    requires log == [r1, r2, r3] && Ordered(log)
    requires r1.at >= cutoff > r2.at && r3.at >= cutoff && r2.addr != r3.addr
    ensures !Invisible(log, Compact(log, cutoff))
  {
    var kept := Compact(log, cutoff);
    InKept(log, cutoff, Head(log));
    CompactIsSubLog(log, cutoff);
    assert r1 in log && r2 in log && r3 in log;
    assert r2 !in kept && r1 in kept;
    HeadIs(kept);
    assert r1.rev < r2.rev < r3.rev by {
      assert log[0] == r1 && log[1] == r2 && log[2] == r3;
    }
    assert forall y :: y in kept ==> y == r1 || y == r2 || y == r3;
    assert !NothingLost(log, kept);
    InvisibleIff(log, kept);
  }
}
