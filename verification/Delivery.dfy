/** The usage pipeline end to end: collections become buffered reports, reports
    are sent until acknowledged, and the backend charges each report id once
    (agent/agent.go, agent/state.go, backend/store/usage.go). */
module Delivery {
  import opened AuthzLog
  import M = Metering

  // --- the buffer in the persisted runtime ----------------------------------------------

  /** Append, then drop the oldest entries beyond the cap. */
  function Enqueue<T>(buffer: seq<T>, x: T, cap: nat): seq<T> {
    var all := buffer + [x];
    if |all| > cap then all[|all| - cap..] else all
  }

  /** The part of the runtime file that metering uses. */
  datatype Saved<T> = Saved(base: M.Counters, prime: bool, buffer: seq<T>)

  datatype Batch = Batch(id: nat, samples: seq<M.Sample>)

  /** How a post ended: no acknowledgement, or one with addresses to revoke, after
      which the runtime could be written or not. */
  datatype Post = Failed | Acked(revoke: set<Addr>, written: bool)

  class Runtime {
    const cap: nat
    var base: M.Counters
    var prime: bool
    var buffer: seq<Batch>
    var disk: Saved<Batch>

    /** A clean state; `recovered` when the old one was unreadable. */
    constructor (cap: nat, recovered: bool)
      ensures this.cap == cap && base == map[] && prime == recovered && buffer == [] && disk == Saved(map[], recovered, [])
    {
      this.cap := cap;
      base, prime, buffer, disk := map[], recovered, [], Saved(map[], recovered, []);
    }

    /** Memory is changed first and written after. */
    method Write(ok: bool)
      modifies `disk
      ensures disk == if ok then Saved(base, prime, buffer) else old(disk)
    {
      if ok {
        disk := Saved(base, prime, buffer);
      }
    }

    /** The baselines always advance; a report is queued only when there is
        something to report and this is not the priming collection. */
    method CollectAndBuffer(cur: M.Counters, services: map<nat, string>, id: nat, written: bool)
      returns (samples: seq<M.Sample>, ghost keys: seq<M.Key>)
      modifies this
      ensures base == cur && !prime
      ensures M.Lists(samples, keys, M.Deltas(old(base), cur), {}, services)
      ensures buffer == if old(prime) || M.Deltas(old(base), cur) == map[] then old(buffer)
                        else Enqueue(old(buffer), Batch(id, samples), cap)
      ensures !old(prime) && M.Deltas(old(base), cur) != map[] && 0 < |old(buffer)| == cap ==>
                buffer == old(buffer)[1..] + [Batch(id, samples)]
      ensures disk == if written then Saved(base, prime, buffer) else old(disk)
    {
      ghost var deltas := M.Deltas(base, cur);
      var next: M.Counters;
      samples, next, keys := M.ComputeDelta(base, cur, services);
      assert samples == [] <==> deltas == map[] by {
        if samples == [] {
          assert forall k :: k !in deltas;
        } else {
          assert keys[0] in deltas;
        }
      }
      base := next;
      if prime {
        prime := false;
      } else if |samples| != 0 {
        buffer := buffer + [Batch(id, samples)];
        if |buffer| > cap {
          var drop := |buffer| - cap;
          buffer := buffer[drop..];
        }
      }
      Write(written);
    }

    /** Oldest first. Each acknowledged report leaves the buffer and its revocations
        are handed on, in order; the first failed post or failed write ends it. */
    method FlushBuffer(posts: seq<Post>) returns (sent: nat, revoked: seq<set<Addr>>)
      modifies `buffer, `disk
      ensures sent <= |old(buffer)| && sent <= |posts| && buffer == old(buffer)[sent..]
      ensures forall i :: 0 <= i < sent ==> posts[i].Acked? && (i < sent - 1 ==> posts[i].written)
      ensures |revoked| == sent && forall i :: 0 <= i < sent ==> revoked[i] == posts[i].revoke
      ensures sent == |old(buffer)| || sent == |posts| || posts[sent].Failed? || (sent > 0 && !posts[sent - 1].written)
      ensures var done := if sent > 0 && !posts[sent - 1].written then sent - 1 else sent;
              disk == if done == 0 then old(disk) else Saved(base, prime, old(buffer)[done..])
    {
      sent, revoked := 0, [];
      while |buffer| != 0
        invariant sent <= |old(buffer)| && sent <= |posts| && buffer == old(buffer)[sent..]
        invariant forall i :: 0 <= i < sent ==> posts[i].Acked? && posts[i].written
        invariant |revoked| == sent && forall i :: 0 <= i < sent ==> revoked[i] == posts[i].revoke
        invariant disk == if sent == 0 then old(disk) else Saved(base, prime, buffer)
        decreases |buffer|
      {
        var report := buffer[0];
        if sent == |posts| || posts[sent].Failed? { return; }
        revoked := revoked + [posts[sent].revoke];
        if |buffer| > 0 && buffer[0].id == report.id {
          buffer := buffer[1..];
        }
        sent := sent + 1;
        Write(posts[sent - 1].written);
        if !posts[sent - 1].written { return; }
      }
    }
  }

  // --- runs of the whole pipeline ---------------------------------------------------------

  datatype Report = Report(id: nat, bytes: M.Counters)

  /** `meter` and `buffer` are the agent's memory and `disk` its runtime file; `net`
      the reports with a post under way, deliverable any number of times; `answered`
      the ids the backend has acknowledged; `ledger` the retained usage_reports ids.
      The rest records history; `wiped` are reports that went with a state that
      could not be read or had not been written. */
  datatype World = World(
    meter: M.World, buffer: seq<Report>, disk: Saved<Report>, net: set<Report>, answered: set<nat>, ledger: set<nat>,
    generated: seq<Report>, ids: set<nat>, charges: multiset<Report>, deleted: multiset<nat>,
    dropped: set<Report>, wiped: set<Report>)

  datatype Step =
    | Kernel(m: M.Step)
    | Collect(id: nat, written: bool)
    | Send
    | Deliver(r: Report)
    | Expire(r: Report)
    | Ack(id: nat, written: bool)
    | Save
    | Retire(id: nat)
    | Crash
    | CrashCorrupt

  function Start(): World {
    World(M.Start(), [], Saved(map[], false, []), {}, {}, {}, [], {}, multiset{}, multiset{}, {}, {})
  }

  /** Report ids are random and taken to be unique. */
  predicate Enabled(w: World, s: Step) {
    match s
    case Kernel(m) => m.Traffic? || m.Reset? || m.Delete? || m.Read?
    case Collect(id, _) => w.meter.read.Some? && id !in w.ids
    case Send => w.buffer != []
    case Deliver(r) => r in w.net
    case Expire(r) => r in w.net
    case Ack(id, _) => id in w.answered
    case Save => true
    case Retire(id) => id in w.ledger
    case Crash => true
    case CrashCorrupt => true
  }

  /** What the pending collection will put in a report. */
  function Fresh(w: M.World): M.Counters
    requires w.read.Some?
  {
    if w.prime then map[] else M.Deltas(w.base, w.read.value)
  }

  function Collected(w: World, id: nat, cap: nat): World
    requires w.meter.read.Some?
  {
    var w' := w.(meter := M.Next(w.meter, M.Write));
    if Fresh(w.meter) == map[] then w'
    else
      var r := Report(id, Fresh(w.meter));
      var kept := Enqueue(w.buffer, r, cap);
      w'.(generated := w.generated + [r], ids := w.ids + {id}, buffer := kept,
          dropped := w.dropped + Missing(w.buffer + [r], kept))
  }

  function Missing(all: seq<Report>, kept: seq<Report>): set<Report> {
    set x | x in all && x !in kept
  }

  /** A known id is acknowledged and changes nothing else. */
  function Ingested(w: World, r: Report): World {
    if r.id in w.ledger then w.(answered := w.answered + {r.id})
    else w.(answered := w.answered + {r.id}, ledger := w.ledger + {r.id}, charges := w.charges + multiset{r})
  }

  function Memory(w: World): Saved<Report> { Saved(w.meter.base, w.meter.prime, w.buffer) }

  /** The runtime is changed in memory, then written whole, if the write succeeds. */
  function Written(w: World, ok: bool): World { if ok then w.(disk := Memory(w)) else w }

  function Dequeued(w: World, id: nat): World {
    if w.buffer != [] && w.buffer[0].id == id then w.(buffer := w.buffer[1..]) else w
  }

  /** A new process starts from the file. */
  function Restored(w: World): World {
    w.(meter := w.meter.(read := None, base := w.disk.base, prime := w.disk.prime),
       buffer := w.disk.buffer, wiped := w.wiped + Missing(w.buffer, w.disk.buffer))
  }

  /** The file was unreadable: a clean state, written at once. */
  function Recovered(w: World): World {
    w.(meter := M.Next(w.meter, M.CrashCorrupt), buffer := [], disk := Saved(map[], true, []),
       wiped := w.wiped + Missing(w.buffer + w.disk.buffer, []))
  }

  /** `Save` is any other write of the runtime. A step that is not enabled does nothing. */
  function Next(w: World, s: Step, cap: nat): World {
    if !Enabled(w, s) then w
    else
      match s
      case Kernel(m) => w.(meter := M.Next(w.meter, m))
      case Collect(id, written) => Written(Collected(w, id, cap), written)
      case Send => w.(net := w.net + {w.buffer[0]})
      case Deliver(r) => Ingested(w, r)
      case Expire(r) => w.(net := w.net - {r})
      case Ack(id, written) => Written(Dequeued(w, id), written)
      case Save => Written(w, true)
      case Retire(id) => w.(ledger := w.ledger - {id}, deleted := w.deleted + multiset{id})
      case Crash => Restored(w)
      case CrashCorrupt => Recovered(w)
  }

  function After(steps: seq<Step>, cap: nat): World {
    if steps == [] then Start() else Next(After(steps[..|steps| - 1], cap), steps[|steps| - 1], cap)
  }

  // --- nothing is lost, nothing is charged twice -----------------------------------------

  ghost predicate Distinct(generated: seq<Report>, ids: set<nat>) {
    && (forall r :: r in generated ==> r.id in ids)
    && (forall r, x :: r in generated && x in generated && r.id == x.id ==> r == x)
  }

  ghost predicate Known(generated: seq<Report>, buffer: seq<Report>, saved: seq<Report>, net: set<Report>, charges: multiset<Report>) {
    forall r :: r in buffer || r in saved || r in net || r in charges ==> r in generated
  }

  ghost predicate IdsKnown(ids: set<nat>, answered: set<nat>, ledger: set<nat>, deleted: multiset<nat>) {
    answered <= ids && ledger <= ids && forall id :: id in deleted ==> id in ids
  }

  /** Every report is waiting, charged, or among those dropped or wiped. */
  predicate Accounted(generated: seq<Report>, buffer: seq<Report>, charges: multiset<Report>, gone: set<Report>) {
    forall r :: r in generated ==> r in buffer || r in charges || r in gone
  }

  /** Charges match the rows: one for the retained row, one for each deleted one. */
  predicate Balanced(generated: seq<Report>, charges: multiset<Report>, deleted: multiset<nat>, ledger: set<nat>) {
    forall r :: r in generated ==> charges[r] == deleted[r.id] + if r.id in ledger then 1 else 0
  }

  predicate Answered(generated: seq<Report>, answered: set<nat>, charges: multiset<Report>) {
    forall r :: r in generated && r.id in answered ==> r in charges
  }

  ghost predicate Inv(w: World) {
    && Distinct(w.generated, w.ids)
    && Known(w.generated, w.buffer, w.disk.buffer, w.net, w.charges)
    && IdsKnown(w.ids, w.answered, w.ledger, w.deleted)
    && Accounted(w.generated, w.buffer, w.charges, w.dropped + w.wiped)
    && Balanced(w.generated, w.charges, w.deleted, w.ledger)
    && Answered(w.generated, w.answered, w.charges)
  }

  lemma EnqueueKeeps<T>(buffer: seq<T>, x: T, cap: nat)
    ensures forall y :: y in Enqueue(buffer, x, cap) ==> y in buffer || y == x
  {
  }

  /** The new entry comes last, the others keep their order, and only when there would be
      more than the cap do any go: then just enough of the oldest. */
  lemma OldestDropped<T>(buffer: seq<T>, x: T, cap: nat)
    requires |buffer| <= cap
    ensures var kept := Enqueue(buffer, x, cap);
            && (|buffer| < cap ==> kept == buffer + [x])
            && (|buffer| == cap > 0 ==> kept == buffer[1..] + [x])
            && (cap == 0 ==> kept == [])
  {
    if |buffer| == cap > 0 {
      assert (buffer + [x])[1..] == buffer[1..] + [x];
    }
  }

  lemma CollectInv(w: World, id: nat, cap: nat)
    requires Inv(w) && w.meter.read.Some? && id !in w.ids
    ensures Inv(Collected(w, id, cap))
  {
    if Fresh(w.meter) != map[] {
      var r := Report(id, Fresh(w.meter));
      var w' := Collected(w, id, cap);
      EnqueueKeeps(w.buffer, r, cap);
      assert Grows(w.generated, w'.generated, r);
      assert r !in w.generated && r !in w.charges && id !in w.deleted;
      assert Known(w'.generated, w'.buffer, w'.disk.buffer, w'.net, w'.charges);
      CollectAccounted(w.generated, w'.generated, w.buffer, w'.buffer, w.charges, w.dropped + w.wiped, w'.dropped + w'.wiped, r);
    }
  }

  ghost predicate Grows(before: seq<Report>, after: seq<Report>, r: Report) {
    forall x :: x in after <==> x in before || x == r
  }

  lemma CollectAccounted(g: seq<Report>, g': seq<Report>, b: seq<Report>, b': seq<Report>, charges: multiset<Report>,
                         gone: set<Report>, gone': set<Report>, r: Report)
    requires Accounted(g, b, charges, gone) && Grows(g, g', r)
    requires gone' == gone + Missing(b + [r], b')
    ensures Accounted(g', b', charges, gone')
  {
    assert r in b + [r];
  }

  lemma DeliverInv(w: World, r: Report)
    requires Inv(w) && r in w.net
    ensures Inv(Ingested(w, r))
  {
    assert r in w.generated && r.id in w.ids;
    assert forall x :: x in w.generated && x.id == r.id ==> x == r;
    if r.id in w.ledger {
      assert w.charges[r] >= 1;
    } else {
      Charge(w.generated, w.charges, w.deleted, w.ledger, r);
      assert forall x :: x in w.charges + multiset{r} <==> x in w.charges || x == r;
    }
  }

  lemma Charge(generated: seq<Report>, charges: multiset<Report>, deleted: multiset<nat>, ledger: set<nat>, r: Report)
    requires Balanced(generated, charges, deleted, ledger) && r.id !in ledger
    requires forall x :: x in generated && x.id == r.id ==> x == r
    ensures Balanced(generated, charges + multiset{r}, deleted, ledger + {r.id})
  {
  }

  lemma WrittenInv(w: World, ok: bool)
    requires Inv(w)
    ensures Inv(Written(w, ok))
  {
  }

  lemma AckInv(w: World, id: nat)
    requires Inv(w) && id in w.answered
    ensures Inv(Dequeued(w, id))
  {
    if w.buffer != [] && w.buffer[0].id == id {
      var r := w.buffer[0];
      assert r in w.generated && r in w.charges;
      assert forall x :: x in w.buffer ==> x == r || x in w.buffer[1..];
    }
  }

  lemma RetireInv(w: World, id: nat, cap: nat)
    requires Inv(w) && id in w.ledger
    ensures Inv(Next(w, Retire(id), cap))
  {
    assert forall x :: x in w.deleted + multiset{id} <==> x in w.deleted || x == id;
  }

  lemma RestoredInv(w: World)
    requires Inv(w)
    ensures Inv(Restored(w))
  {
    assert forall r :: r in w.buffer ==> r in w.disk.buffer || r in Missing(w.buffer, w.disk.buffer);
  }

  lemma RecoveredInv(w: World)
    requires Inv(w)
    ensures Inv(Recovered(w))
  {
    assert forall r :: r in w.buffer ==> r in w.buffer + w.disk.buffer;
  }

  lemma StepInv(w: World, s: Step, cap: nat)
    requires Inv(w)
    ensures Inv(Next(w, s, cap))
  {
    if Enabled(w, s) {
      match s
      case Collect(id, written) =>
        CollectInv(w, id, cap);
        WrittenInv(Collected(w, id, cap), written);
      case Deliver(r) => DeliverInv(w, r);
      case Ack(id, written) =>
        AckInv(w, id);
        WrittenInv(Dequeued(w, id), written);
      case Save => WrittenInv(w, true);
      case Retire(id) => RetireInv(w, id, cap);
      case Crash => RestoredInv(w);
      case CrashCorrupt => RecoveredInv(w);
      case Send => assert w.buffer[0] in w.buffer;
      case Expire(_) =>
      case Kernel(_) =>
    }
  }

  lemma {:induction false} RunInv(steps: seq<Step>, cap: nat)
    ensures Inv(After(steps, cap))
  {
    if steps != [] {
      RunInv(steps[..|steps| - 1], cap);
      StepInv(After(steps[..|steps| - 1], cap), steps[|steps| - 1], cap);
    }
  }

  /** A process only ever dies with its memory on disk. */
  predicate Durable(steps: seq<Step>, cap: nat) {
    steps == [] ||
    var front, last, w := steps[..|steps| - 1], steps[|steps| - 1], After(steps[..|steps| - 1], cap);
    Durable(front, cap) && (last.Crash? ==> w.disk == Memory(w))
  }

  /** Every generated report is still buffered, was charged, or is one that overflow
      dropped or a lost state took with it; and it was charged once for the row it
      has now and once for every row of it that retention deleted. */
  lemma ExactlyOnce(steps: seq<Step>, cap: nat, r: Report)
    requires r in After(steps, cap).generated
    ensures var w := After(steps, cap);
            && (r in w.buffer || r in w.charges || r in w.dropped || r in w.wiped)
            && w.charges[r] == w.deleted[r.id] + if r.id in w.ledger then 1 else 0
    ensures Retire(r.id) !in steps ==> After(steps, cap).charges[r] <= 1
    ensures CrashCorrupt !in steps && Durable(steps, cap) ==> After(steps, cap).wiped == {}
  {
    RunInv(steps, cap);
    NotRetired(steps, cap, r.id);
    NotWiped(steps, cap);
  }

  lemma {:induction false} NotRetired(steps: seq<Step>, cap: nat, id: nat)
    ensures Retire(id) !in steps ==> After(steps, cap).deleted[id] == 0
  {
    if steps != [] {
      NotRetired(steps[..|steps| - 1], cap, id);
      HistoryStep(After(steps[..|steps| - 1], cap), steps[|steps| - 1], cap);
    }
  }

  lemma HistoryStep(w: World, s: Step, cap: nat)
    ensures Next(w, s, cap).deleted == if s.Retire? && s.id in w.ledger then w.deleted + multiset{s.id} else w.deleted
    ensures !s.CrashCorrupt? && (s.Crash? ==> w.disk == Memory(w)) ==> Next(w, s, cap).wiped == w.wiped
    ensures Next(w, s, cap).charges ==
            if s.Deliver? && s.r in w.net && s.r.id !in w.ledger then w.charges + multiset{s.r} else w.charges
  {
    assert w.disk == Memory(w) ==> w.wiped + Missing(w.buffer, w.disk.buffer) == w.wiped;
  }

  lemma {:induction false} NotWiped(steps: seq<Step>, cap: nat)
    ensures CrashCorrupt !in steps && Durable(steps, cap) ==> After(steps, cap).wiped == {}
  {
    if steps != [] {
      NotWiped(steps[..|steps| - 1], cap);
      HistoryStep(After(steps[..|steps| - 1], cap), steps[|steps| - 1], cap);
    }
  }

  // --- when a report is charged twice ---------------------------------------------------------

  /** A charged report arrives again exactly when it finds no row of its id. */
  lemma ChargedAgainIff(w: World, r: Report, cap: nat)
    requires r in w.net && r in w.charges
    ensures Next(w, Deliver(r), cap).charges[r] > w.charges[r] <==> r.id !in w.ledger
  {
  }

  /** A charged report is delivered after its row is gone. */
  predicate Late(w: World, s: Step) { s.Deliver? && s.r in w.net && s.r in w.charges && s.r.id !in w.ledger }

  predicate Timely(steps: seq<Step>, cap: nat) {
    steps == [] ||
    (Timely(steps[..|steps| - 1], cap) && !Late(After(steps[..|steps| - 1], cap), steps[|steps| - 1]))
  }

  ghost predicate OnceEach(charges: multiset<Report>) { forall r :: charges[r] <= 1 }

  lemma OnceMore(charges: multiset<Report>, r: Report)
    ensures OnceEach(charges + multiset{r}) <==> OnceEach(charges) && r !in charges
  {
    var more := charges + multiset{r};
    assert more[r] == charges[r] + 1;
    assert forall x :: charges[x] <= more[x];
    assert forall x :: x != r ==> more[x] == charges[x];
  }

  /** Over every run no report is charged twice if and only if none is delivered
      after its row is gone. */
  lemma {:induction false} ChargedOnceIff(steps: seq<Step>, cap: nat)
    ensures OnceEach(After(steps, cap).charges) <==> Timely(steps, cap)
  {
    if steps != [] {
      var front, last, w := steps[..|steps| - 1], steps[|steps| - 1], After(steps[..|steps| - 1], cap);
      var w' := After(steps, cap);
      ChargedOnceIff(front, cap);
      HistoryStep(w, last, cap);
      if last.Deliver? && last.r in w.net && last.r.id !in w.ledger {
        OnceMore(w.charges, last.r);
      }
    }
  }

  // --- no byte is billed that was not counted ------------------------------------------------

  /** Bytes of the key in the reports, each as often as it is in `times`. */
  function Billed(rs: seq<Report>, times: multiset<Report>, k: M.Key): nat {
    if rs == [] then 0
    else Billed(rs[..|rs| - 1], times, k) + times[rs[|rs| - 1]] * M.Get(rs[|rs| - 1].bytes, k)
  }

  /** Bytes of the key in the reports, each once. */
  function Bytes(rs: seq<Report>, k: M.Key): nat {
    if rs == [] then 0 else Bytes(rs[..|rs| - 1], k) + M.Get(rs[|rs| - 1].bytes, k)
  }

  lemma {:induction false} BilledOnce(rs: seq<Report>, times: multiset<Report>, k: M.Key)
    requires forall r :: r in rs ==> times[r] <= 1
    ensures Billed(rs, times, k) <= Bytes(rs, k)
  {
    if rs != [] {
      BilledOnce(rs[..|rs| - 1], times, k);
      assert times[rs[|rs| - 1]] <= 1;
    }
  }

  /** The reports carry exactly what the meter put in samples. */
  predicate Tallied(generated: seq<Report>, meter: M.World, k: M.Key) {
    Bytes(generated, k) == M.Get(meter.reported, k) && M.Covered(meter, k)
  }

  lemma BytesSnoc(rs: seq<Report>, r: Report, k: M.Key)
    ensures Bytes(rs + [r], k) == Bytes(rs, k) + M.Get(r.bytes, k)
  {
    assert (rs + [r])[..|rs|] == rs;
  }

  lemma FreshGet(meter: M.World, k: M.Key)
    requires meter.read.Some?
    ensures M.Get(Fresh(meter), k) == if meter.prime then 0 else M.Delta(M.Get(meter.base, k), M.Get(meter.read.value, k))
  {
  }

  /** The meter reports what goes into the report. */
  lemma WriteReports(meter: M.World, k: M.Key)
    requires meter.read.Some?
    ensures M.Get(M.Next(meter, M.Write).reported, k) == M.Get(meter.reported, k) + M.Get(Fresh(meter), k)
  {
    FreshGet(meter, k);
    M.PlusDeltas(meter.reported, meter.base, meter.read.value, k);
  }

  lemma TallyCollect(generated: seq<Report>, meter: M.World, id: nat, k: M.Key)
    requires Tallied(generated, meter, k) && meter.read.Some?
    ensures Tallied(if Fresh(meter) == map[] then generated else generated + [Report(id, Fresh(meter))], M.Next(meter, M.Write), k)
  {
    M.CoveredStep(meter, M.Write, k);
    WriteReports(meter, k);
    BytesSnoc(generated, Report(id, Fresh(meter)), k);
  }

  /** A crash now makes the next collection report bytes of the key a second time:
      the file's baseline brings more than was still to come from memory's. */
  predicate Repeats(w: World, k: M.Key) {
    !w.disk.prime && M.Delta(M.Get(w.disk.base, k), M.Get(w.meter.counters, k)) > M.Waiting(w.meter, k) + M.Beyond(w.meter, k)
  }

  predicate NoneRepeats(steps: seq<Step>, cap: nat, k: M.Key) {
    steps == [] ||
    (NoneRepeats(steps[..|steps| - 1], cap, k) && (steps[|steps| - 1].Crash? ==> !Repeats(After(steps[..|steps| - 1], cap), k)))
  }

  /** From any state a crash eats into the bytes no sample has if and only if it repeats. */
  lemma RepeatsIff(w: World, k: M.Key)
    ensures M.Slack(Restored(w).meter, k) < M.Slack(w.meter, k) <==> Repeats(w, k)
  {
  }

  /** From a state with everything counted reported or still to come, no collection
      pending and nothing to prime, a crash keeps the samples within the bytes
      counted if and only if the counter is below memory's baseline, that is zero,
      or the file's lies between it and the counter. */
  lemma CrashCoveredIff(w: World, k: M.Key)
    requires M.Slack(w.meter, k) == 0 && w.meter.read.None? && !w.meter.prime && !w.disk.prime
    ensures var c, b, d := M.Get(w.meter.counters, k), M.Get(w.meter.base, k), M.Get(w.disk.base, k);
            M.Covered(Restored(w).meter, k) <==> c < b || b == 0 || b <= d <= c
  {
    RepeatsIff(w, k);
  }

  /** A crash that finds memory on disk repeats nothing. */
  lemma {:induction false} DurableRepeatsNone(steps: seq<Step>, cap: nat, k: M.Key)
    requires Durable(steps, cap)
    ensures NoneRepeats(steps, cap, k)
  {
    if steps != [] {
      DurableRepeatsNone(steps[..|steps| - 1], cap, k);
    }
  }

  /** Nor does one after an acknowledgement whose write failed: only the buffer differs. */
  lemma SameBaselines(w: World, k: M.Key)
    requires w.disk.base == w.meter.base && w.disk.prime == w.meter.prime
    ensures !Repeats(w, k)
  {
  }

  lemma TallyCrash(w: World, k: M.Key)
    requires Tallied(w.generated, w.meter, k) && !Repeats(w, k)
    ensures Tallied(Restored(w).generated, Restored(w).meter, k)
  {
    RepeatsIff(w, k);
  }

  lemma TallyStep(w: World, s: Step, cap: nat, k: M.Key)
    requires Tallied(w.generated, w.meter, k) && (s.Crash? ==> !Repeats(w, k))
    ensures Tallied(Next(w, s, cap).generated, Next(w, s, cap).meter, k)
  {
    if Enabled(w, s) {
      match s
      case Kernel(m) => M.CoveredStep(w.meter, m, k);
      case Collect(id, _) => TallyCollect(w.generated, w.meter, id, k);
      case Crash => TallyCrash(w, k);
      case CrashCorrupt => M.CoveredStep(w.meter, M.CrashCorrupt, k);
      case Send =>
      case Deliver(_) =>
      case Expire(_) =>
      case Ack(_, _) =>
      case Save =>
      case Retire(_) =>
    }
  }

  lemma {:induction false} RunTally(steps: seq<Step>, cap: nat, k: M.Key)
    requires NoneRepeats(steps, cap, k)
    ensures Tallied(After(steps, cap).generated, After(steps, cap).meter, k)
  {
    if steps != [] {
      RunTally(steps[..|steps| - 1], cap, k);
      TallyStep(After(steps[..|steps| - 1], cap), steps[|steps| - 1], cap, k);
    }
  }

  /** End to end: whatever is lost, repeated, reset or restarted, no more bytes of
      an address and port are charged than the kernel counted. */
  lemma NeverOverbilled(steps: seq<Step>, cap: nat, k: M.Key)
    requires Timely(steps, cap) && NoneRepeats(steps, cap, k)
    ensures Billed(After(steps, cap).generated, After(steps, cap).charges, k) <= M.Get(After(steps, cap).meter.counted, k)
  {
    var w := After(steps, cap);
    ChargedOnceIff(steps, cap);
    RunTally(steps, cap, k);
    BilledOnce(w.generated, w.charges, k);
  }

  // --- retention that is long enough ------------------------------------------------------------

  /** The report can still reach the backend. */
  predicate Arriving(w: World, r: Report) { r in w.buffer || r in w.disk.buffer || r in w.net }

  /** A row is deleted only once its report can no longer arrive. */
  ghost predicate Outlived(w: World, s: Step) {
    s.Retire? ==> forall r :: Arriving(w, r) ==> r.id != s.id
  }

  ghost predicate RetentionOutlives(steps: seq<Step>, cap: nat) {
    steps == [] || (RetentionOutlives(steps[..|steps| - 1], cap) && Outlived(After(steps[..|steps| - 1], cap), steps[|steps| - 1]))
  }

  /** A charged report without a row is nowhere left to arrive from. */
  ghost predicate Gone(w: World) {
    && (forall r :: r in w.generated ==> w.charges[r] <= 1)
    && (forall r :: r in w.charges && r.id !in w.ledger ==> !Arriving(w, r))
  }

  lemma GoneCollect(w: World, id: nat, cap: nat)
    requires Inv(w) && Gone(w) && w.meter.read.Some? && id !in w.ids
    ensures Gone(Collected(w, id, cap))
  {
    if Fresh(w.meter) != map[] {
      var r := Report(id, Fresh(w.meter));
      assert r !in w.generated && r !in w.charges;
      EnqueueKeeps(w.buffer, r, cap);
    }
  }

  lemma GoneDeliver(w: World, r: Report)
    requires Inv(w) && Gone(w) && r in w.net
    ensures Gone(Ingested(w, r))
  {
    assert Arriving(w, r);
    assert forall x :: x in w.charges + multiset{r} <==> x in w.charges || x == r;
  }

  /** A step that brings no report back and no charge. */
  lemma GoneFewer(w: World, w': World)
    requires Gone(w) && w'.charges == w.charges && w'.ledger == w.ledger && w'.generated == w.generated
    requires forall r :: Arriving(w', r) ==> Arriving(w, r)
    ensures Gone(w')
  {
  }

  lemma GoneWritten(w: World, ok: bool)
    requires Gone(w)
    ensures Gone(Written(w, ok))
  {
    GoneFewer(w, Written(w, ok));
  }

  lemma GoneAck(w: World, id: nat)
    requires Gone(w)
    ensures Gone(Dequeued(w, id))
  {
    assert forall r :: r in Dequeued(w, id).buffer ==> r in w.buffer;
    GoneFewer(w, Dequeued(w, id));
  }

  lemma GoneLess(w: World, s: Step, cap: nat)
    requires Gone(w) && (s.Send? || s.Expire? || s.Crash? || s.CrashCorrupt? || s.Kernel?) && Enabled(w, s)
    ensures Gone(Next(w, s, cap))
  {
    assert s.Send? ==> w.buffer[0] in w.buffer;
    GoneFewer(w, Next(w, s, cap));
  }

  lemma GoneStep(w: World, s: Step, cap: nat)
    requires Inv(w) && Gone(w) && Outlived(w, s)
    ensures Gone(Next(w, s, cap))
  {
    if Enabled(w, s) {
      match s
      case Collect(id, written) =>
        GoneCollect(w, id, cap);
        GoneWritten(Collected(w, id, cap), written);
      case Ack(id, written) =>
        GoneAck(w, id);
        GoneWritten(Dequeued(w, id), written);
      case Deliver(r) => GoneDeliver(w, r);
      case Save => GoneWritten(w, true);
      case Retire(id) =>
      case _ => GoneLess(w, s, cap);
    }
  }

  /** Rows kept until their reports can no longer arrive make every run timely. */
  lemma {:induction false} OutlivedIsTimely(steps: seq<Step>, cap: nat)
    requires RetentionOutlives(steps, cap)
    ensures Timely(steps, cap) && Gone(After(steps, cap))
  {
    if steps != [] {
      var front, last := steps[..|steps| - 1], steps[|steps| - 1];
      var w := After(front, cap);
      RunInv(front, cap);
      OutlivedIsTimely(front, cap);
      GoneStep(w, last, cap);
      assert last.Deliver? && last.r in w.net ==> Arriving(w, last.r);
    }
  }

  // --- the two ways it fails, and one it does not -------------------------------------------------

  lemma AfterSnoc(steps: seq<Step>, s: Step, cap: nat)
    ensures After(steps + [s], cap) == Next(After(steps, cap), s, cap)
  {
    assert (steps + [s])[..|steps|] == steps;
  }

  /** One more step of a run that reached `w`. */
  lemma Go(steps: seq<Step>, w: World, s: Step, cap: nat) returns (steps': seq<Step>, w': World)
    requires w == After(steps, cap)
    ensures steps' == steps + [s] && w' == After(steps', cap) == Next(w, s, cap)
    ensures Timely(steps', cap) <==> Timely(steps, cap) && !Late(w, s)
    ensures Durable(steps', cap) <==> Durable(steps, cap) && (s.Crash? ==> w.disk == Memory(w))
    ensures RetentionOutlives(steps', cap) <==> RetentionOutlives(steps, cap) && Outlived(w, s)
  {
    AfterSnoc(steps, s, cap);
    steps', w' := steps + [s], Next(w, s, cap);
    assert steps'[..|steps'| - 1] == steps;
  }

  function OneByte(id: nat, k: M.Key): Report { Report(id, map[k := 1]) }

  /** One byte counted, collected and posted; nothing charged yet. */
  predicate Sent(w: World, k: M.Key, written: bool) {
    && w.generated == [OneByte(0, k)] && w.net == {OneByte(0, k)} && w.buffer == [OneByte(0, k)] && w.ids == {0}
    && w.ledger == {} && w.charges == multiset{} && w.deleted == multiset{}
    && w.meter.counters == map[k := 1] && M.Get(w.meter.counted, k) == 1 && w.meter.read.None? && !w.meter.prime
    && w.disk == if written then Memory(w) else Saved(map[], false, [])
  }

  /** Reading and collecting one byte that no baseline covers. */
  lemma OneByteCollected(w: World, id: nat, k: M.Key, written: bool)
    requires w.meter.counters == map[k := 1] && w.meter.base == map[] && w.meter.read.None? && !w.meter.prime
    requires w.buffer == [] && id !in w.ids
    ensures var e := Next(Next(w, Kernel(M.Read), 1), Collect(id, written), 1);
            && e.generated == w.generated + [OneByte(id, k)] && e.ids == w.ids + {id} && e.buffer == [OneByte(id, k)]
            && e.meter.counters == w.meter.counters && e.meter.counted == w.meter.counted && e.meter.read.None? && !e.meter.prime
            && e.net == w.net && e.ledger == w.ledger && e.charges == w.charges && e.deleted == w.deleted
            && e.disk == if written then Memory(e) else w.disk
  {
    var read := Next(w, Kernel(M.Read), 1);
    assert Fresh(read.meter) == map[k := 1];
    assert k in Fresh(read.meter) && Fresh(read.meter) != map[];
    assert Report(id, Fresh(read.meter)) == OneByte(id, k);
    assert Enqueue<Report>([], OneByte(id, k), 1) == [OneByte(id, k)];
    assert Collected(read, id, 1).generated == w.generated + [OneByte(id, k)];
  }

  lemma SentState(k: M.Key, written: bool)
    ensures var read := Next(Next(Start(), Kernel(M.Traffic(k, 1)), 1), Kernel(M.Read), 1);
            Sent(Next(Next(read, Collect(0, written), 1), Send, 1), k, written)
  {
    var first := Next(Start(), Kernel(M.Traffic(k, 1)), 1);
    assert first.meter.counters == map[k := 1];
    OneByteCollected(first, 0, k, written);
    var w := Next(Next(first, Kernel(M.Read), 1), Collect(0, written), 1);
    assert w.generated == [OneByte(0, k)] && w.ids == {0} && w.net == {};
    assert w.net + {w.buffer[0]} == {OneByte(0, k)};
  }

  lemma OneReportSent(k: M.Key, written: bool) returns (steps: seq<Step>, w: World)
    ensures w == After(steps, 1) && Sent(w, k, written) && Timely(steps, 1) && Durable(steps, 1) && RetentionOutlives(steps, 1)
  {
    SentState(k, written);
    steps, w := Go([], Start(), Kernel(M.Traffic(k, 1)), 1);
    steps, w := Go(steps, w, Kernel(M.Read), 1);
    steps, w := Go(steps, w, Collect(0, written), 1);
    steps, w := Go(steps, w, Send, 1);
  }

  lemma BilledTwo(r: Report, k: M.Key)
    requires M.Get(r.bytes, k) == 1
    ensures Billed([r], multiset{r, r}, k) == 2
  {
    assert [r][..0] == [];
  }

  /** Deleting a row whose report is still under way bills it twice: one byte
      counted, two charged. */
  lemma RetentionNeeded(k: M.Key) returns (steps: seq<Step>)
    ensures M.Get(After(steps, 1).meter.counted, k) == 1 && Durable(steps, 1)
    ensures Billed(After(steps, 1).generated, After(steps, 1).charges, k) == 2
  {
    var r, w := OneByte(0, k), Start();
    steps, w := OneReportSent(k, true);
    steps, w := Go(steps, w, Deliver(r), 1);
    steps, w := Go(steps, w, Retire(0), 1);
    steps, w := Go(steps, w, Deliver(r), 1);
    assert w.charges == multiset{r, r};
    BilledTwo(r, k);
  }

  /** Rows do get deleted on runs where retention outlives the deliveries: after the
      acknowledgement, with no post of the report under way. */
  lemma RetentionHappens(k: M.Key) returns (steps: seq<Step>)
    ensures RetentionOutlives(steps, 1) && After(steps, 1).deleted == multiset{0}
  {
    var r, w := OneByte(0, k), Start();
    steps, w := OneReportSent(k, true);
    steps, w := Go(steps, w, Deliver(r), 1);
    AckedAndExpired(w, r);
    steps, w := Go(steps, w, Ack(0, true), 1);
    steps, w := Go(steps, w, Expire(r), 1);
    steps, w := Go(steps, w, Retire(0), 1);
  }

  lemma AckedAndExpired(w: World, r: Report)
    requires w.buffer == [r] && w.net == {r} && r.id in w.answered && r.id in w.ledger
    ensures var e := Next(Next(w, Ack(r.id, true), 1), Expire(r), 1);
            e.deleted == w.deleted && e.ledger == w.ledger && Outlived(e, Retire(r.id))
  {
    var e := Next(Next(w, Ack(r.id, true), 1), Expire(r), 1);
    assert e.buffer == [] && e.disk.buffer == [] && e.net == {};
  }

  /** A collection in memory only, delivered and then lost in a crash, is collected
      and billed again under a new id. */
  lemma DurabilityNeeded(k: M.Key) returns (steps: seq<Step>)
    ensures M.Get(After(steps, 1).meter.counted, k) == 1 && Timely(steps, 1)
    ensures Billed(After(steps, 1).generated, After(steps, 1).charges, k) == 2
  {
    var w;
    steps, w := OneReportSent(k, false);
    steps, w := Go(steps, w, Deliver(OneByte(0, k)), 1);
    steps, w := Go(steps, w, Crash, 1);
    assert w.buffer == [] && w.meter.base == map[];
    steps := CollectedAgain(k, steps, w);
  }

  lemma CollectedAgain(k: M.Key, steps0: seq<Step>, w0: World) returns (steps: seq<Step>)
    requires w0 == After(steps0, 1) && Timely(steps0, 1)
    requires w0.generated == [OneByte(0, k)] && w0.ids == {0} && w0.buffer == [] && w0.ledger == {0} && w0.charges == multiset{OneByte(0, k)}
    requires w0.meter.counters == map[k := 1] && w0.meter.base == map[] && w0.meter.read.None? && !w0.meter.prime
    requires M.Get(w0.meter.counted, k) == 1
    ensures M.Get(After(steps, 1).meter.counted, k) == 1 && Timely(steps, 1)
    ensures Billed(After(steps, 1).generated, After(steps, 1).charges, k) == 2
  {
    var w;
    var r0, r1 := OneByte(0, k), OneByte(1, k);
    OneByteCollected(w0, 1, k, true);
    steps, w := Go(steps0, w0, Kernel(M.Read), 1);
    steps, w := Go(steps, w, Collect(1, true), 1);
    assert w.generated == [r0, r1];
    steps, w := Go(steps, w, Send, 1);
    steps, w := Go(steps, w, Deliver(r1), 1);
    assert w.generated == [r0, r1] && w.charges == multiset{r0, r1};
    BilledBoth(r0, r1, k);
  }

  lemma BilledBoth(r0: Report, r1: Report, k: M.Key)
    requires r0 != r1 && M.Get(r0.bytes, k) == 1 == M.Get(r1.bytes, k)
    ensures Billed([r0, r1], multiset{r0, r1}, k) == 2
  {
    assert [r0, r1][..1] == [r0] && [r0][..0] == [];
    assert Billed([r0], multiset{r0, r1}, k) == 1;
  }
}
