/** The exit node's mirror of the authorized set (agent/agent.go): every
    interleaving of pulls, kernel batches, cursor writes, inline revokes,
    fail-closed flushes, crashes and backend commits. */
module AgentSync {
  import opened AuthzLog
  import S = AuthzStore

  /** The body of a pull. */
  datatype Response = Full(rev: nat, members: set<Addr>, force: bool) | Partial(rev: nat, add: set<Addr>, del: set<Addr>)

  datatype Verdict = MassRevoke | Regression | Batch(add: set<Addr>, del: set<Addr>)

  predicate IsMassRevoke(del: nat, current: nat, min: nat) { del > min && del * 2 > current }

  /** What `applyAuthz` does with a response, given the kernel set it listed. */
  function Decide(resp: Response, seen: set<Addr>, cursor: nat, min: nat, allow: bool): Verdict {
    match resp
    case Full(_, members, force) =>
      if !force && !allow && IsMassRevoke(|seen - members|, |seen|, min) then MassRevoke
      else Batch(members - seen, seen - members)
    case Partial(rev, add, del) =>
      if rev < cursor then Regression else Batch(add, del * seen)
  }

  /** A kernel batch: all of it, or none when a deleted member is missing. */
  function Kernel(kernel: set<Addr>, add: set<Addr>, del: set<Addr>): Option<set<Addr>> {
    if del <= kernel + add then Some((kernel + add) - del) else None
  }

  datatype Sync = Idle | Got(resp: Response) | Seen(resp: Response, seen: set<Addr>) | Applied(rev: nat) | Flushing(seen: set<Addr>)
  datatype Usage = Quiet | Revoking(del: set<Addr>)

  /** `hist` is the backend's history; `cursor` the node's revision in memory and
      `disk` on disk; `sync` and `usage` are where the two loops stand. The last
      three record the run: whether a full set was ever accepted, the revision
      the kernel set was last brought to, and the addresses that a revoke or a
      flush removed and no batch added since. */
  datatype World = World(
    hist: seq<Row>, kernel: set<Addr>, cursor: nat, disk: nat, sync: Sync, usage: Usage,
    synced: bool, base: nat, gone: set<Addr>)

  datatype Step =
    | BackendCommits(rows: seq<Row>)
    | Pull(log: seq<Row>, full: bool, force: bool)
    | List
    | Apply(min: nat, allow: bool, nftOk: bool)
    | Persist(durable: bool)
    | FlushList
    | FlushApply(nftOk: bool)
    | RevokeList(addrs: set<Addr>)
    | RevokeApply(nftOk: bool)
    | Crash
    | CrashCorrupt

  /** The backend revokes only what a recompute removed, now or some time ago. */
  predicate Revoked(hist: seq<Row>, addrs: set<Addr>) {
    forall a :: a in addrs ==> exists r :: r in hist && r.addr == a && r.op.Del?
  }

  predicate Enabled(w: World, s: Step) {
    match s
    case BackendCommits(rows) => Ordered(w.hist + rows)
    case Pull(log, full, _) => w.sync.Idle? && SubLog(log, w.hist) && (full || NothingLost(w.hist, log))
    case List => w.sync.Got?
    case Apply(_, _, _) => w.sync.Seen?
    case Persist(_) => w.sync.Applied?
    case FlushList => w.sync.Idle?
    case FlushApply(_) => w.sync.Flushing?
    case RevokeList(addrs) => w.usage.Quiet? && Revoked(w.hist, addrs)
    case RevokeApply(_) => w.usage.Revoking?
    case Crash => true
    case CrashCorrupt => true
  }

  function FromAnswer(a: S.Answer, force: bool): Response
    requires !a.Unchanged?
  {
    match a
    case Whole(members, rev) => Full(rev, members.Keys, force)
    case Change(add, del, rev) => Partial(rev, add.Keys, del)
  }

  function Next(w: World, s: Step): World
    requires Enabled(w, s)
  {
    match s
    case BackendCommits(rows) => w.(hist := w.hist + rows)
    case Pull(log, full, force) =>
      var a := S.Serve(Replay(w.hist), log, if full then 0 else w.cursor, full);
      if a.Unchanged? then w else w.(sync := Got(FromAnswer(a, force)))
    case List => w.(sync := Seen(w.sync.resp, w.kernel))
    case Apply(min, allow, nftOk) => ApplyNext(w, min, allow, nftOk)
    case Persist(durable) =>
      w.(cursor := w.sync.rev, disk := if durable then w.sync.rev else w.disk, sync := Idle)
    case FlushList => w.(sync := Flushing(w.kernel))
    case FlushApply(nftOk) =>
      if nftOk && w.sync.seen <= w.kernel
      then w.(kernel := w.kernel - w.sync.seen, gone := w.gone + w.sync.seen, sync := Idle)
      else w.(sync := Idle)
    case RevokeList(addrs) => w.(usage := Revoking(addrs * w.kernel))
    case RevokeApply(nftOk) =>
      if nftOk && w.usage.del <= w.kernel
      then w.(kernel := w.kernel - w.usage.del, gone := w.gone + w.usage.del, usage := Quiet)
      else w.(usage := Quiet)
    case Crash => w.(cursor := w.disk, sync := Idle, usage := Quiet)
    case CrashCorrupt => w.(cursor := 0, disk := 0, sync := Idle, usage := Quiet)
  }

  /** A refused, regressing or failing batch changes nothing. */
  function ApplyNext(w: World, min: nat, allow: bool, nftOk: bool): World
    requires w.sync.Seen?
  {
    match Decide(w.sync.resp, w.sync.seen, w.cursor, min, allow)
    case MassRevoke => w.(sync := Idle)
    case Regression => w.(sync := Idle)
    case Batch(add, del) =>
      match Kernel(w.kernel, add, del)
      case None => w.(sync := Idle)
      case Some(kernel) =>
        if !nftOk then w.(sync := Idle)
        else
          w.(kernel := kernel, gone := w.gone - add, sync := Applied(w.sync.resp.rev),
             base := w.sync.resp.rev, synced := w.synced || w.sync.resp.Full?)
  }

  predicate Runs(w: World, steps: seq<Step>)
    decreases |steps|
  {
    steps == [] || (Enabled(w, steps[0]) && Runs(Next(w, steps[0]), steps[1..]))
  }

  function After(w: World, steps: seq<Step>): World
    requires Runs(w, steps)
    decreases |steps|
  {
    if steps == [] then w else After(Next(w, steps[0]), steps[1..])
  }

  // --- the invariant ----------------------------------------------------------------

  function Set(hist: seq<Row>, rev: nat): set<Addr> { At(hist, rev).Keys }

  /** The kernel holds the set of revision `base`, short of what revokes and
      flushes took out. */
  predicate Tracks(w: World) {
    && w.cursor <= w.base <= Head(w.hist)
    && w.kernel <= Set(w.hist, w.base)
    && Set(w.hist, w.base) - w.kernel <= w.gone
  }

  /** A response in hand is what the backend's history says at its revision. */
  predicate Honest(w: World, resp: Response) {
    && w.cursor <= resp.rev <= Head(w.hist)
    && (w.synced ==> w.base <= resp.rev)
    && match resp
       case Full(rev, members, _) => members == Set(w.hist, rev)
       case Partial(rev, add, del) =>
         var f := Final(UpTo(w.hist, rev), w.cursor);
         add == Adds(f).Keys && del == Dels(f)
  }

  predicate Inv(w: World) {
    && Ordered(w.hist)
    && w.disk <= w.cursor <= Head(w.hist)
    && w.kernel !! w.gone
    && (w.synced ==> Tracks(w))
    && match w.sync
       case Got(resp) => Honest(w, resp)
       case Seen(resp, seen) => Honest(w, resp) && w.kernel <= seen && seen - w.kernel <= w.gone
       case Applied(rev) => w.cursor <= rev <= Head(w.hist) && (w.synced ==> w.base == rev)
       case _ => true
  }

  // --- each step keeps it ------------------------------------------------------------

  lemma SetStable(hist: seq<Row>, rows: seq<Row>, rev: nat)
    requires Ordered(hist + rows) && rev <= Head(hist)
    ensures UpTo(hist + rows, rev) == UpTo(hist, rev) && Head(hist) <= Head(hist + rows)
  {
    AppendKeepsPast(hist, rows, rev);
    var all := hist + rows;
    assert hist != [] ==> all[|hist| - 1] == hist[|hist| - 1];
  }

  lemma TracksStable(w: World, rows: seq<Row>)
    requires Tracks(w) && Ordered(w.hist + rows)
    ensures Tracks(w.(hist := w.hist + rows))
  {
    SetStable(w.hist, rows, w.base);
  }

  lemma HonestStable(w: World, rows: seq<Row>, resp: Response)
    requires Honest(w, resp) && Ordered(w.hist + rows)
    ensures Honest(w.(hist := w.hist + rows), resp)
  {
    SetStable(w.hist, rows, resp.rev);
  }

  lemma BackendInv(w: World, rows: seq<Row>)
    requires Inv(w) && Ordered(w.hist + rows)
    ensures Inv(w.(hist := w.hist + rows))
  {
    SetStable(w.hist, rows, w.cursor);
    if w.synced {
      TracksStable(w, rows);
    }
    match w.sync {
      case Got(resp) => HonestStable(w, rows, resp);
      case Seen(resp, _) => HonestStable(w, rows, resp);
      case _ =>
    }
  }

  lemma ServedDelta(hist: seq<Row>, log: seq<Row>, since: nat)
    requires SubLog(log, hist) && NothingLost(hist, log)
    ensures DeltaOf(log, since) == Compacted || DeltaOf(log, since) == DeltaOf(hist, since)
  {
    InvisibleIff(hist, log);
  }

  /** Whatever the backend answers is honest about its head. */
  lemma PullHonest(w: World, log: seq<Row>, full: bool, force: bool)
    requires Inv(w) && SubLog(log, w.hist) && (full || NothingLost(w.hist, log))
    ensures var a := S.Serve(Replay(w.hist), log, if full then 0 else w.cursor, full);
            a.Unchanged? || Honest(w, FromAnswer(a, force))
  {
    UpToHead(w.hist, Head(w.hist));
    if !full {
      ServedDelta(w.hist, log, w.cursor);
    }
  }

  lemma PullInv(w: World, log: seq<Row>, full: bool, force: bool)
    requires Inv(w) && Enabled(w, Pull(log, full, force))
    ensures Inv(Next(w, Pull(log, full, force)))
  {
    PullHonest(w, log, full, force);
  }

  lemma {:induction false} UpToUpTo(log: seq<Row>, a: nat, b: nat)
    requires a <= b
    ensures UpTo(UpTo(log, b), a) == UpTo(log, a)
  {
    if log != [] {
      var init, last := log[..|log| - 1], log[|log| - 1];
      UpToUpTo(init, a, b);
      if last.rev <= b {
        var u := UpTo(init, b) + [last];
        assert u[..|u| - 1] == UpTo(init, b);
      } else {
        assert UpTo(log, b) == UpTo(init, b);
      }
    }
  }

  /** On address sets, a delta brings any revision it covers to its own. */
  lemma DeltaOnSets(hist: seq<Row>, cursor: nat, base: nat, rev: nat)
    requires Ordered(hist) && cursor <= base <= rev
    ensures var f := Final(UpTo(hist, rev), cursor);
            (Set(hist, base) + Adds(f).Keys) - Dels(f) == Set(hist, rev)
  {
    var past := UpTo(hist, rev);
    var f := Final(past, cursor);
    InUpTo(hist, rev);
    DeltaCatchesUp(past, cursor, base);
    UpToUpTo(hist, base, rev);
    assert ((At(hist, base) + Adds(f)) - Dels(f)).Keys == (Set(hist, base) + Adds(f).Keys) - Dels(f);
  }

  lemma FullTracks(w: World, add: set<Addr>, del: set<Addr>)
    requires Inv(w) && w.sync.Seen? && w.sync.resp.Full?
    requires add == w.sync.resp.members - w.sync.seen && del == w.sync.seen - w.sync.resp.members
    requires del <= w.kernel + add
    ensures var kernel := (w.kernel + add) - del;
            kernel <= w.sync.resp.members && w.sync.resp.members - kernel <= w.gone - add
  {
  }

  lemma PartialTracks(kernel: set<Addr>, seen: set<Addr>, gone: set<Addr>, before: set<Addr>, after: set<Addr>,
                      add: set<Addr>, del: set<Addr>)
    requires kernel <= before && before - kernel <= gone && kernel <= seen
    requires add !! del && (before + add) - del == after
    ensures var k := (kernel + add) - (del * seen); k <= after && after - k <= gone - add
  {
  }

  lemma AddsDelsDisjoint(f: map<Addr, Row>)
    ensures Adds(f).Keys !! Dels(f)
  {
  }

  lemma ApplyInv(w: World, min: nat, allow: bool, nftOk: bool)
    requires Inv(w) && w.sync.Seen?
    ensures Inv(ApplyNext(w, min, allow, nftOk))
  {
    var resp, seen := w.sync.resp, w.sync.seen;
    var v := Decide(resp, seen, w.cursor, min, allow);
    if v.Batch? && Kernel(w.kernel, v.add, v.del).Some? && nftOk {
      if resp.Full? {
        FullTracks(w, v.add, v.del);
      } else if w.synced {
        var f := Final(UpTo(w.hist, resp.rev), w.cursor);
        DeltaOnSets(w.hist, w.cursor, w.base, resp.rev);
        AddsDelsDisjoint(f);
        PartialTracks(w.kernel, seen, w.gone, Set(w.hist, w.base), Set(w.hist, resp.rev), resp.add, resp.del);
      }
    }
  }

  lemma StepInv(w: World, s: Step)
    requires Inv(w) && Enabled(w, s)
    ensures Inv(Next(w, s))
  {
    match s
    case BackendCommits(rows) => BackendInv(w, rows);
    case Pull(log, full, force) => PullInv(w, log, full, force);
    case Apply(min, allow, nftOk) => ApplyInv(w, min, allow, nftOk);
    case _ =>
  }

  lemma {:induction false} RunInv(w: World, steps: seq<Step>)
    requires Inv(w) && Runs(w, steps)
    ensures Inv(After(w, steps))
    decreases |steps|
  {
    if steps != [] {
      StepInv(w, steps[0]);
      RunInv(Next(w, steps[0]), steps[1..]);
    }
  }

  // --- main results ------------------------------------------------------------------

  /** A node starts with whatever its kernel holds and a cursor from this backend. */
  predicate Start(w: World) {
    && Ordered(w.hist) && w.disk == w.cursor <= Head(w.hist)
    && w.sync.Idle? && w.usage.Quiet? && !w.synced && w.gone == {}
  }

  /** On every run, once a full set was accepted, the kernel holds the set of one
      revision between cursor and head, short exactly of its addresses that a
      revoke or a flush removed and no batch added back; so it equals that set if
      and only if none of those is in it. */
  lemma KernelTracksLog(w: World, steps: seq<Step>)
    requires Start(w) && Runs(w, steps)
    ensures var e := After(w, steps);
            e.synced ==>
              && Tracks(e)
              && Set(e.hist, e.base) - e.kernel == e.gone * Set(e.hist, e.base)
              && (e.kernel == Set(e.hist, e.base) <==> e.gone !! Set(e.hist, e.base))
  {
    RunInv(w, steps);
    if After(w, steps).synced {
      Missing(After(w, steps));
    }
  }

  lemma Missing(w: World)
    requires Inv(w) && w.synced
    ensures Set(w.hist, w.base) - w.kernel == w.gone * Set(w.hist, w.base)
    ensures w.kernel == Set(w.hist, w.base) <==> w.gone !! Set(w.hist, w.base)
  {
    assert w.kernel == Set(w.hist, w.base) ==> w.gone !! Set(w.hist, w.base);
    assert w.gone * Set(w.hist, w.base) == {} ==> Set(w.hist, w.base) - w.kernel == {};
  }

  predicate Removes(s: Step) { s.RevokeApply? || s.FlushApply? }

  /** Without revokes and flushes the mirror is exact. */
  lemma {:induction false} ExactWithoutRemovals(w: World, steps: seq<Step>)
    requires Inv(w) && w.gone == {} && Runs(w, steps)
    requires forall i :: 0 <= i < |steps| ==> !Removes(steps[i])
    ensures var e := After(w, steps); e.synced ==> e.kernel == Set(e.hist, e.base)
    decreases |steps|
  {
    if steps != [] {
      StepInv(w, steps[0]);
      ExactWithoutRemovals(Next(w, steps[0]), steps[1..]);
    }
  }

  // --- a full reconcile among everything else -------------------------------------------

  /** A step of the backend or of the usage loop. */
  predicate Background(s: Step) { s.BackendCommits? || s.RevokeList? || s.RevokeApply? }

  predicate AllBackground(steps: seq<Step>) { forall s :: s in steps ==> Background(s) }

  predicate NoRevoke(steps: seq<Step>) { forall s :: s in steps ==> !s.RevokeApply? }

  lemma {:induction false} RunsSplit(w: World, p: seq<Step>, q: seq<Step>)
    requires Runs(w, p + q)
    ensures Runs(w, p) && Runs(After(w, p), q) && After(w, p + q) == After(After(w, p), q)
    decreases |p|
  {
    if p == [] {
      assert p + q == q;
    } else {
      assert (p + q)[1..] == p[1..] + q;
      RunsSplit(Next(w, p[0]), p[1..], q);
    }
  }

  /** What the sync loop finds unchanged after waiting. */
  predicate Same(w: World, e: World, rev: nat) {
    && e.sync == w.sync && e.cursor == w.cursor && e.disk == w.disk && e.base == w.base && e.synced == w.synced
    && Set(e.hist, rev) == Set(w.hist, rev) && rev <= Head(e.hist)
  }

  lemma WaitsStep(w: World, s: Step, rev: nat)
    requires Enabled(w, s) && Background(s) && rev <= Head(w.hist)
    ensures Same(w, Next(w, s), rev) && (!s.RevokeApply? ==> Next(w, s).kernel == w.kernel)
  {
    if s.BackendCommits? {
      SetStable(w.hist, s.rows, rev);
    }
  }

  /** While the sync loop waits, its own state, the cursor and what is known of the
      revision in hand stay; without a revoke so does the kernel set. */
  lemma {:induction false} Waits(w: World, steps: seq<Step>, rev: nat)
    requires Runs(w, steps) && AllBackground(steps) && rev <= Head(w.hist)
    ensures Same(w, After(w, steps), rev) && (NoRevoke(steps) ==> After(w, steps).kernel == w.kernel)
    decreases |steps|
  {
    if steps != [] {
      assert steps[0] in steps;
      WaitsStep(w, steps[0], rev);
      Waits(Next(w, steps[0]), steps[1..], rev);
    }
  }

  /** A full reconcile: the pull, then `a`, the listing, then `b`, the batch, then
      `c`, and the cursor write. */
  datatype Plan = Plan(log: seq<Row>, force: bool, a: seq<Step>, b: seq<Step>, c: seq<Step>, min: nat, allow: bool, durable: bool)

  function StepsOf(p: Plan): seq<Step> {
    [Pull(p.log, true, p.force)] + p.a + [List] + p.b + [Apply(p.min, p.allow, true)] + p.c + [Persist(p.durable)]
  }

  predicate Pulls(w: World, p: Plan) {
    Enabled(w, Pull(p.log, true, p.force)) && Runs(Next(w, Pull(p.log, true, p.force)), p.a)
  }

  /** The state in which it lists the kernel set. */
  function Listing(w: World, p: Plan): World
    requires Pulls(w, p)
  {
    After(Next(w, Pull(p.log, true, p.force)), p.a)
  }

  predicate Lists(w: World, p: Plan) {
    Pulls(w, p) && Enabled(Listing(w, p), List) && Runs(Next(Listing(w, p), List), p.b)
  }

  /** The state in which it applies its batch. */
  function Applying(w: World, p: Plan): World
    requires Lists(w, p)
  {
    After(Next(Listing(w, p), List), p.b)
  }

  predicate Applies(w: World, p: Plan) {
    && Lists(w, p) && Enabled(Applying(w, p), Apply(p.min, p.allow, true))
    && Runs(Next(Applying(w, p), Apply(p.min, p.allow, true)), p.c)
  }

  /** The state in which it writes the cursor. */
  function Writing(w: World, p: Plan): World
    requires Applies(w, p)
  {
    After(Next(Applying(w, p), Apply(p.min, p.allow, true)), p.c)
  }

  lemma Single(w: World, s: Step)
    ensures Runs(w, [s]) <==> Enabled(w, s)
    ensures Enabled(w, s) ==> After(w, [s]) == Next(w, s)
  {
    assert [s][1..] == [];
  }

  /** A run of its steps passes through these states. */
  lemma Phases(w: World, p: Plan)
    requires Runs(w, StepsOf(p))
    ensures Applies(w, p) && Enabled(Writing(w, p), Persist(p.durable))
    ensures After(w, StepsOf(p)) == Next(Writing(w, p), Persist(p.durable))
  {
    var pull, apply := [Pull(p.log, true, p.force)], [Apply(p.min, p.allow, true)];
    RunsSplit(w, pull + p.a + [List] + p.b + apply + p.c, [Persist(p.durable)]);
    RunsSplit(w, pull + p.a + [List] + p.b + apply, p.c);
    RunsSplit(w, pull + p.a + [List] + p.b, apply);
    RunsSplit(w, pull + p.a + [List], p.b);
    RunsSplit(w, pull + p.a, [List]);
    RunsSplit(w, pull, p.a);
    Single(w, Pull(p.log, true, p.force));
    Single(Listing(w, p), List);
    Single(Applying(w, p), Apply(p.min, p.allow, true));
    Single(Writing(w, p), Persist(p.durable));
  }

  /** The guard lets the full set through. */
  predicate Admitted(p: Plan, seen: set<Addr>, members: set<Addr>) {
    p.force || p.allow || !IsMassRevoke(|seen - members|, |seen|, p.min)
  }

  /** At its batch, the reconcile makes the kernel set that of the pulled revision. */
  lemma BatchRestores(w: World, p: Plan)
    requires Inv(w) && w.sync.Idle? && Applies(w, p)
    requires AllBackground(p.a) && AllBackground(p.b) && NoRevoke(p.b)
    requires Admitted(p, Listing(w, p).kernel, Replay(w.hist).Keys)
    ensures var rev, e := Head(w.hist), Next(Applying(w, p), Apply(p.min, p.allow, true));
            && e.kernel == Set(e.hist, rev) && e.base == rev <= Head(e.hist) && e.synced && e.sync == Applied(rev)
  {
    var rev := Head(w.hist);
    PullLasts(w, p);
    var listed := Next(Listing(w, p), List);
    assert listed.sync == Seen(Full(rev, Replay(w.hist).Keys, p.force), listed.kernel);
    Waits(listed, p.b, rev);
    var before := Applying(w, p);
    assert before.kernel == listed.kernel && before.sync == listed.sync;
    FullApply(before, rev, Replay(w.hist).Keys, p.force, p.min, p.allow);
  }

  /** The pulled set is in hand when the kernel set is listed, and still that of its revision. */
  lemma PullLasts(w: World, p: Plan)
    requires Inv(w) && w.sync.Idle? && Pulls(w, p) && AllBackground(p.a)
    ensures var rev, e := Head(w.hist), Listing(w, p);
            e.sync == Got(Full(rev, Replay(w.hist).Keys, p.force)) && Replay(w.hist).Keys == Set(e.hist, rev) && rev <= Head(e.hist)
  {
    UpToHead(w.hist, Head(w.hist));
    FullPull(w, p.log, p.force);
    Waits(Next(w, Pull(p.log, true, p.force)), p.a, Head(w.hist));
  }

  /** Whatever the backend and the usage loop do around it, a full reconcile that
      is accepted and meets no revoke between listing and batch brings the kernel
      set to that of the pulled revision, whatever was missing or left over, and
      the cursor to that revision; without a later revoke the kernel set stays. */
  lemma FullReconcileRestores(w: World, p: Plan)
    requires Inv(w) && w.sync.Idle? && Runs(w, StepsOf(p))
    requires AllBackground(p.a) && AllBackground(p.b) && AllBackground(p.c) && NoRevoke(p.b)
    requires Pulls(w, p) ==> Admitted(p, Listing(w, p).kernel, Replay(w.hist).Keys)
    ensures var rev, e := Head(w.hist), After(w, StepsOf(p));
            && e.cursor == e.base == rev && e.synced && (p.durable ==> e.disk == rev)
            && (NoRevoke(p.c) ==> e.kernel == Set(e.hist, rev))
  {
    Phases(w, p);
    BatchRestores(w, p);
    Waits(Next(Applying(w, p), Apply(p.min, p.allow, true)), p.c, Head(w.hist));
  }

  lemma FullPull(w: World, log: seq<Row>, force: bool)
    requires Enabled(w, Pull(log, true, force))
    ensures Next(w, Pull(log, true, force)) == w.(sync := Got(Full(Head(w.hist), Replay(w.hist).Keys, force)))
  {
  }

  lemma FullApply(w: World, rev: nat, members: set<Addr>, force: bool, min: nat, allow: bool)
    requires w.sync == Seen(Full(rev, members, force), w.kernel)
    requires force || allow || !IsMassRevoke(|w.kernel - members|, |w.kernel|, min)
    ensures var e := ApplyNext(w, min, allow, true);
            e.kernel == members && e.sync == Applied(rev) && e.synced && e.base == rev && e.hist == w.hist
  {
    assert (w.kernel + (members - w.kernel)) - (w.kernel - members) == members;
  }

  lemma OneMore(w: World, s: Step, rest: seq<Step>)
    requires Enabled(w, s)
    ensures Runs(w, [s] + rest) <==> Runs(Next(w, s), rest)
    ensures Runs(Next(w, s), rest) ==> After(w, [s] + rest) == After(Next(w, s), rest)
  {
    assert ([s] + rest)[1..] == rest;
  }

  lemma {:induction false} Fewer(a: set<Addr>, b: set<Addr>)
    requires a <= b
    ensures |a| <= |b|
  {
    if a != {} {
      var x :| x in a;
      Fewer(a - {x}, b - {x});
    }
  }

  /** Without an operator's override, a full set that nobody forced takes out no more
      addresses than the larger of the threshold and half of those listed. */
  lemma FullRemovesAtMost(w: World, min: nat, nftOk: bool)
    requires w.sync.Seen? && w.sync.resp.Full? && !w.sync.resp.force
    ensures var cut := |w.kernel - Next(w, Apply(min, false, nftOk)).kernel|; cut <= min || 2 * cut <= |w.sync.seen|
  {
    Fewer(w.kernel - Next(w, Apply(min, false, nftOk)).kernel, w.sync.seen - w.sync.resp.members);
  }

  /** A full set is held back if and only if nobody forced or allowed it and it would take
      out more than the threshold and more than half of the addresses listed; otherwise,
      if the kernel accepts its batch and nothing was revoked since the listing, it
      becomes the kernel set. */
  lemma FullHeldIff(w: World, min: nat, allow: bool)
    requires w.sync.Seen? && w.sync.resp.Full? && w.sync.seen == w.kernel
    ensures var resp, e := w.sync.resp, Next(w, Apply(min, allow, true));
            var cut := |w.sync.seen - resp.members|;
            if !resp.force && !allow && cut > min && 2 * cut > |w.sync.seen|
            then e == w.(sync := Idle)
            else e.kernel == resp.members && e.sync == Applied(resp.rev) && e.base == resp.rev && e.synced
  {
  }

  /** A process resumes at the revision last written: a cursor whose write failed is
      forgotten in a crash, and a lost state file asks for the whole set. */
  lemma CrashResumes(w: World, log: seq<Row>, force: bool)
    requires SubLog(log, w.hist) && NothingLost(w.hist, log)
    ensures w.sync.Applied? ==>
              && Next(Next(w, Persist(true)), Crash).cursor == w.sync.rev
              && Next(Next(w, Persist(false)), Crash).cursor == w.disk
    ensures var e := Next(Next(w, CrashCorrupt), Pull(log, false, force));
            if Head(w.hist) == 0 then e.sync.Idle? else e.sync.Got? && e.sync.resp == Full(Head(w.hist), Replay(w.hist).Keys, force)
  {
  }

  /** A node ahead of its backend, which was restored from a backup say, is answered at
      once and refuses the answer as a regression. */
  lemma AheadIsNoticed(current: Table, log: seq<Row>, cursor: nat, seen: set<Addr>, min: nat, allow: bool, force: bool)
    requires Ordered(log) && Head(log) < cursor
    ensures var a := S.Serve(current, log, cursor, false);
            !a.Unchanged? && Decide(FromAnswer(a, force), seen, cursor, min, allow) == Regression
  {
  }

  /** On one backend timeline the regression check never fires. */
  lemma NeverRegresses(w: World, steps: seq<Step>, min: nat, allow: bool)
    requires Start(w) && Runs(w, steps) && After(w, steps).sync.Seen?
    ensures var e := After(w, steps);
            Decide(e.sync.resp, e.sync.seen, e.cursor, min, allow) != Regression
  {
    RunInv(w, steps);
  }

  // --- when equality is lost ------------------------------------------------------------

  /** What a removing step would take out. */
  function Removing(w: World, s: Step): set<Addr>
    requires Removes(s) && Enabled(w, s)
  {
    if s.RevokeApply? then w.usage.del else w.sync.seen
  }

  /** From an exact mirror a revoke or flush keeps it exact if and only if its
      batch fails or names nothing the tracked revision authorizes. */
  lemma RemovalKeepsIff(w: World, s: Step)
    requires Inv(w) && w.synced && w.kernel == Set(w.hist, w.base) && Removes(s) && Enabled(w, s)
    ensures var e := Next(w, s);
            e.kernel == Set(e.hist, e.base) <==>
            !s.nftOk || !(Removing(w, s) <= w.kernel) || Removing(w, s) !! Set(w.hist, w.base)
  {
  }

  /** From an exact mirror a revoke keeps it exact if and only if none of its
      addresses is authorized at the tracked revision: none was added back. */
  lemma RevokeKeepsIff(w: World, addrs: set<Addr>)
    requires Inv(w) && w.synced && w.kernel == Set(w.hist, w.base) && Enabled(w, RevokeList(addrs))
    ensures Runs(w, [RevokeList(addrs), RevokeApply(true)])
    ensures var e := After(w, [RevokeList(addrs), RevokeApply(true)]);
            e.kernel == Set(e.hist, e.base) <==> addrs !! Set(w.hist, w.base)
  {
    var w1 := Next(w, RevokeList(addrs));
    OneMore(w, RevokeList(addrs), [RevokeApply(true)]);
    OneMore(w1, RevokeApply(true), []);
    assert [RevokeList(addrs)] + [RevokeApply(true)] == [RevokeList(addrs), RevokeApply(true)];
    assert addrs * w.kernel == {} <==> addrs !! Set(w.hist, w.base);
  }

  lemma {:induction false} RunsSnoc(w: World, p: seq<Step>, s: Step)
    requires Runs(w, p) && Enabled(After(w, p), s)
    ensures Runs(w, p + [s]) && After(w, p + [s]) == Next(After(w, p), s)
    decreases |p|
  {
    if p == [] {
      assert p + [s] == [s] && [s][1..] == [];
    } else {
      assert (p + [s])[1..] == p[1..] + [s];
      RunsSnoc(Next(w, p[0]), p[1..], s);
    }
  }

  /** One more step of a run that reached `w`. */
  lemma Go(w0: World, p: seq<Step>, w: World, s: Step) returns (p': seq<Step>, w': World)
    requires Runs(w0, p) && After(w0, p) == w && Enabled(w, s)
    ensures p' == p + [s] && Runs(w0, p') && After(w0, p') == w' == Next(w, s)
  {
    RunsSnoc(w0, p, s);
    p', w' := p + [s], Next(w, s);
  }

  const EMPTY := World([], {}, 0, 0, Idle, Quiet, false, 0, {})

  /** An address is authorized, removed and authorized again. */
  function AddDelAdd(a: Addr, acct: Account, n: nat): seq<Row>
    requires n <= 3
  {
    [Row(1, Op.Add, a, acct, 0), Row(2, Op.Del, a, acct, 0), Row(3, Op.Add, a, acct, 0)][..n]
  }

  /** An exact mirror with nothing in progress. */
  function Mirror(a: Addr, acct: Account, n: nat): World
    requires n <= 3
  {
    World(AddDelAdd(a, acct, n), {a}, n, n, Idle, Quiet, true, n, {})
  }

  lemma Whole(log: seq<Row>)
    requires Ordered(log)
    ensures SubLog(log, log) && NothingLost(log, log)
  {
  }

  lemma ReplayOne(a: Addr, acct: Account)
    ensures Replay(AddDelAdd(a, acct, 1)) == map[a := acct] && Replay(AddDelAdd(a, acct, 1)).Keys == {a}
  {
    var log := AddDelAdd(a, acct, 1);
    assert log[..0] == [];
  }

  /** The first authorization, pulled as a full set. */
  lemma FirstSync(a: Addr, acct: Account) returns (p: seq<Step>)
    ensures Runs(EMPTY, p) && After(EMPTY, p) == Mirror(a, acct, 1)
  {
    var w;
    var log := AddDelAdd(a, acct, 1);
    assert EMPTY.hist + log == log;
    ReplayOne(a, acct);
    Whole(log);
    p, w := Go(EMPTY, [], EMPTY, BackendCommits(log));
    p, w := Go(EMPTY, p, w, Pull(log, true, false));
    assert w == EMPTY.(hist := log, sync := Got(Full(1, {a}, false)));
    p, w := Go(EMPTY, p, w, List);
    assert |EMPTY.kernel - {a}| == 0;
    p, w := Go(EMPTY, p, w, Apply(0, false, true));
    assert w.kernel == {a} && w.gone == {};
    p, w := Go(EMPTY, p, w, Persist(true));
  }

  lemma LastOfThree(r1: Row, r2: Row, r3: Row)
    requires r1.rev == 1 && r2.rev == 2 && r3.rev == 3 && r1.addr == r2.addr == r3.addr && r3.op.Add?
    ensures DeltaOf([r1, r2, r3], 1) == Delta(map[r3.addr := r3.acct], {}, 3)
    ensures Replay([r1, r2, r3]).Keys == {r3.addr}
  {
    var log := [r1, r2, r3];
    assert log[..2] == [r1, r2] && [r1, r2][..1] == [r1] && [r1][..0] == [];
    assert Final([r1], 1) == map[];
    assert Final([r1, r2], 1) == map[r2.addr := r2];
    assert Final(log, 1) == map[r3.addr := r3];
    assert Replay([r1]).Keys <= {r1.addr};
    assert Replay([r1, r2]).Keys <= {r1.addr};
  }

  /** Removed and authorized again while the node was not looking. */
  lemma BehindTwice(a: Addr, acct: Account, p0: seq<Step>) returns (p: seq<Step>)
    requires Runs(EMPTY, p0) && After(EMPTY, p0) == Mirror(a, acct, 1)
    ensures Runs(EMPTY, p) && After(EMPTY, p) == Mirror(a, acct, 1).(hist := AddDelAdd(a, acct, 3))
  {
    var w;
    var all := AddDelAdd(a, acct, 3);
    assert AddDelAdd(a, acct, 1) + [all[1]] == all[..2] && all[..2] + [all[2]] == all;
    p, w := Go(EMPTY, p0, Mirror(a, acct, 1), BackendCommits([all[1]]));
    p, w := Go(EMPTY, p, w, BackendCommits([all[2]]));
  }

  /** One delta that adds what the node already holds. */
  lemma SecondSync(a: Addr, acct: Account, p0: seq<Step>) returns (p: seq<Step>)
    requires Runs(EMPTY, p0) && After(EMPTY, p0) == Mirror(a, acct, 1).(hist := AddDelAdd(a, acct, 3))
    ensures Runs(EMPTY, p) && After(EMPTY, p) == Mirror(a, acct, 3)
  {
    var w := Mirror(a, acct, 1).(hist := AddDelAdd(a, acct, 3));
    var log := w.hist;
    LastOfThree(log[0], log[1], log[2]);
    assert log == [log[0], log[1], log[2]];
    assert map[a := acct].Keys == {a};
    Whole(log);
    p, w := Go(EMPTY, p0, w, Pull(log, false, false));
    assert w == Mirror(a, acct, 1).(hist := log, sync := Got(Partial(3, {a}, {})));
    p, w := Go(EMPTY, p, w, List);
    p, w := Go(EMPTY, p, w, Apply(0, false, true));
    assert w.kernel == {a} && w.gone == {};
    p, w := Go(EMPTY, p, w, Persist(true));
  }

  lemma OnceRemoved(a: Addr, acct: Account)
    ensures var log := AddDelAdd(a, acct, 3);
            Head(log) == 3 && Revoked(log, {a}) && Set(log, 3) == {a} && S.Serve(Replay(log), log, 3, false) == S.Unchanged
  {
    var log := AddDelAdd(a, acct, 3);
    LastOfThree(log[0], log[1], log[2]);
    assert log == [log[0], log[1], log[2]];
    assert log[1] in log;
    UpToHead(log, 3);
  }

  /** Caught up, nothing in progress, the backend with nothing new to say, and yet
      an authorized address is missing. */
  predicate Gap(w: World, a: Addr) {
    && w.synced && w.sync.Idle? && a !in w.kernel && a in Set(w.hist, w.base)
    && w.cursor == w.base == Head(w.hist)
    && S.Serve(Replay(w.hist), w.hist, w.cursor, false) == S.Unchanged
  }

  lemma GapIs(a: Addr, acct: Account)
    ensures Revoked(Mirror(a, acct, 3).hist, {a})
    ensures Gap(Mirror(a, acct, 3).(kernel := {}, gone := {a}), a)
  {
    OnceRemoved(a, acct);
  }

  /** Why equality is not an invariant: the revoke of the removal arrives after the
      address is authorized again and the node has caught up. */
  lemma LateRevokeLeavesGap(a: Addr, acct: Account) returns (p: seq<Step>)
    ensures Start(EMPTY) && Runs(EMPTY, p) && Gap(After(EMPTY, p), a)
  {
    p := FirstSync(a, acct);
    p := BehindTwice(a, acct, p);
    p := SecondSync(a, acct, p);
    GapIs(a, acct);
    p := Revoke(p, Mirror(a, acct, 3), a);
  }

  lemma Revoke(p0: seq<Step>, w0: World, a: Addr) returns (p: seq<Step>)
    requires Runs(EMPTY, p0) && After(EMPTY, p0) == w0
    requires w0.usage.Quiet? && Revoked(w0.hist, {a}) && w0.kernel == {a} && w0.gone == {}
    ensures Runs(EMPTY, p) && After(EMPTY, p) == w0.(kernel := {}, gone := {a})
  {
    var w;
    RevokeTakes(w0, a);
    p, w := Go(EMPTY, p0, w0, RevokeList({a}));
    p, w := Go(EMPTY, p, w, RevokeApply(true));
    assert w0.gone + {a} == {a};
  }

  lemma RevokeTakes(w: World, a: Addr)
    requires w.usage.Quiet? && Revoked(w.hist, {a}) && w.kernel == {a}
    ensures Enabled(w, RevokeList({a})) && Next(w, RevokeList({a})) == w.(usage := Revoking({a}))
    ensures Next(w.(usage := Revoking({a})), RevokeApply(true)) == w.(kernel := {}, gone := w.gone + {a})
  {
    assert {a} * w.kernel == {a} && w.kernel - {a} == {};
  }
}
