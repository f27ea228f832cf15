/** From absolute kernel counters to usage samples: the delta computation and
    every run of traffic, resets, deletions, collections and restarts
    (agent/usage.go, agent/agent.go, agent/state.go). */
module Metering {
  import opened AuthzLog

  datatype Key = Key(addr: Addr, port: nat)

  type Counters = map<Key, nat>

  function Get(m: Counters, k: Key): nat { if k in m then m[k] else 0 }

  /** Bytes since the baseline; a value below it means the counter restarted. */
  function Delta(last: nat, abs: nat): nat { if abs >= last then abs - last else abs }

  /** The positive deltas of one collection. */
  function Deltas(prev: Counters, cur: Counters): Counters {
    map k | k in cur && Delta(Get(prev, k), cur[k]) > 0 :: Delta(Get(prev, k), cur[k])
  }

  // --- computing one collection ------------------------------------------------------------

  datatype Sample = Sample(service: string, addr: Addr, bytes: nat)

  function Decimal(n: nat): string {
    var digit := ['0' + (n % 10) as char];
    if n < 10 then digit else Decimal(n / 10) + digit
  }

  /** Traffic on a port outside the catalog is labelled, never dropped. */
  function LabelOf(services: map<nat, string>, port: nat): string {
    if port in services then services[port] else "unknown:" + Decimal(port)
  }

  /** What the digits of a numeral say. */
  function Reads(s: string): int {
    if s == "" then 0 else 10 * Reads(s[..|s| - 1]) + (s[|s| - 1] as int - '0' as int)
  }

  lemma {:induction false} DecimalReads(n: nat)
    ensures Reads(Decimal(n)) == n
  {
    var digit := ['0' + (n % 10) as char];
    if n < 10 {
      assert digit[..0] == "";
    } else {
      DecimalReads(n / 10);
      assert (Decimal(n / 10) + digit)[..|Decimal(n / 10)|] == Decimal(n / 10);
    }
  }

  /** Ports outside the catalog are told apart by their labels, which carry their numbers. */
  lemma UnknownTold(services: map<nat, string>, p: nat, q: nat)
    requires p !in services && q !in services
    ensures |LabelOf(services, p)| > 8 && LabelOf(services, p)[..8] == "unknown:" && Reads(LabelOf(services, p)[8..]) == p
    ensures LabelOf(services, p) == LabelOf(services, q) ==> p == q
  {
    DecimalReads(p);
    DecimalReads(q);
    assert LabelOf(services, p)[8..] == Decimal(p) && LabelOf(services, q)[8..] == Decimal(q);
  }

  /** `samples` lists the deltas outside `todo` in the order of `keys`, each key once, under
      the name of its port's service or its number. */
  ghost predicate Lists(samples: seq<Sample>, keys: seq<Key>, deltas: Counters, todo: set<Key>, services: map<nat, string>) {
    && |samples| == |keys|
    && (forall k :: k in keys <==> k in deltas && k !in todo)
    && (forall i, j :: 0 <= i < j < |keys| ==> keys[i] != keys[j])
    && (forall i :: 0 <= i < |keys| ==>
          var port := keys[i].port;
          var name := if port in services then services[port] else "unknown:" + Decimal(port);
          keys[i] in deltas && samples[i] == Sample(name, keys[i].addr, deltas[keys[i]]))
  }

  lemma ListsNext(samples: seq<Sample>, keys: seq<Key>, deltas: Counters, todo: set<Key>, services: map<nat, string>, k: Key)
    requires Lists(samples, keys, deltas, todo, services) && k in todo
    ensures k !in deltas ==> Lists(samples, keys, deltas, todo - {k}, services)
    ensures k in deltas ==>
      Lists(samples + [Sample(LabelOf(services, k.port), k.addr, deltas[k])], keys + [k], deltas, todo - {k}, services)
  {
    assert forall x :: x in keys + [k] <==> x in keys || x == k;
  }

  /** One sample per element that moved, labelled even when its port is unknown,
      and the counters themselves as the next baselines. */
  method ComputeDelta(prev: Counters, cur: Counters, services: map<nat, string>)
    returns (samples: seq<Sample>, next: Counters, ghost keys: seq<Key>)
    ensures next == cur
    ensures Lists(samples, keys, Deltas(prev, cur), {}, services)
  {
    samples, next, keys := [], map[], [];
    var todo := cur.Keys;
    ghost var deltas := Deltas(prev, cur);
    while todo != {}
      invariant todo <= cur.Keys && next.Keys == cur.Keys - todo
      invariant forall k :: k in next ==> next[k] == cur[k]
      invariant Lists(samples, keys, deltas, todo, services)
      decreases |todo|
    {
      var k :| k in todo;
      ListsNext(samples, keys, deltas, todo, services, k);
      todo := todo - {k};
      next := next[k := cur[k]];
      var delta := Delta(Get(prev, k), cur[k]);
      if delta != 0 {
        samples := samples + [Sample(LabelOf(services, k.port), k.addr, delta)];
        keys := keys + [k];
      }
    }
  }

  // --- runs ---------------------------------------------------------------------------------

  /** `counters` are the kernel's, `base` and `prime` the persisted runtime, `read`
      a collection that has read the counters and not yet written the runtime;
      collections do not overlap.
      The last four only record history: bytes the kernel ever counted, bytes put
      in samples, and what had been counted when the pending and the last written
      collection read. */
  datatype World = World(
    counters: Counters, base: Counters, prime: bool, read: Option<Counters>,
    counted: Counters, reported: Counters, countedAtRead: Counters, collected: Counters)

  datatype Step =
    | Traffic(key: Key, bytes: nat)
    | Reset(key: Key)
    | Delete(key: Key)
    | Read
    | Write
    | Crash
    | CrashCorrupt

  function Start(): World { World(map[], map[], false, None, map[], map[], map[], map[]) }

  function Bump(m: Counters, k: Key, n: nat): Counters { m[k := Get(m, k) + n] }

  function Plus(m: Counters, d: Counters): Counters {
    map k | k in m.Keys + d.Keys :: Get(m, k) + Get(d, k)
  }

  function Next(w: World, s: Step): World {
    match s
    case Traffic(k, n) => w.(counters := Bump(w.counters, k, n), counted := Bump(w.counted, k, n))
    case Reset(k) => w.(counters := w.counters[k := 0])
    case Delete(k) => w.(counters := w.counters - {k})
    case Read => if w.read.Some? then w else w.(read := Some(w.counters), countedAtRead := w.counted)
    case Write =>
      if w.read.None? then w
      else w.(base := w.read.value, prime := false, read := None, collected := w.countedAtRead,
              reported := if w.prime then w.reported else Plus(w.reported, Deltas(w.base, w.read.value)))
    case Crash => w.(read := None)
    case CrashCorrupt => w.(read := None, base := map[], prime := true)
  }

  function Run(w: World, steps: seq<Step>): World {
    if steps == [] then w else Next(Run(w, steps[..|steps| - 1]), steps[|steps| - 1])
  }

  function After(steps: seq<Step>): World { Run(Start(), steps) }

  /** What the pending collection will report for `k`. */
  function Waiting(w: World, k: Key): nat {
    if w.read.Some? && !w.prime then Delta(Get(w.base, k), Get(w.read.value, k)) else 0
  }

  /** What a collection after the pending one would report for `k`. */
  function Beyond(w: World, k: Key): nat {
    if w.read.Some? then Delta(Get(w.read.value, k), Get(w.counters, k))
    else if w.prime then 0
    else Delta(Get(w.base, k), Get(w.counters, k))
  }

  predicate Covered(w: World, k: Key) {
    Get(w.reported, k) + Waiting(w, k) + Beyond(w, k) <= Get(w.counted, k)
  }

  /** A written collection adds its deltas, key by key. */
  lemma PlusDeltas(m: Counters, prev: Counters, cur: Counters, k: Key)
    ensures Get(Plus(m, Deltas(prev, cur)), k) == Get(m, k) + Delta(Get(prev, k), Get(cur, k))
  {
  }

  lemma CoveredStep(w: World, s: Step, k: Key)
    requires Covered(w, k)
    ensures Covered(Next(w, s), k)
  {
    match s
    case Traffic(x, n) => CoveredMove(w, Next(w, s), k, if x == k then n else 0);
    case Reset(x) => CoveredMove(w, Next(w, s), k, 0);
    case Delete(x) => CoveredMove(w, Next(w, s), k, 0);
    case Read =>
    case Write => CoveredWrite(w, k);
    case Crash => CoveredCrash(w, k);
    case CrashCorrupt =>
  }

  /** The kernel counts `n` more for the key, or its counter goes to zero. */
  lemma CoveredMove(w: World, w': World, k: Key, n: nat)
    requires Covered(w, k) && w' == w.(counters := w'.counters, counted := w'.counted)
    requires Get(w'.counted, k) == Get(w.counted, k) + n
    requires Get(w'.counters, k) == Get(w.counters, k) + n || Get(w'.counters, k) == 0
    ensures Covered(w', k)
  {
  }

  lemma CoveredWrite(w: World, k: Key)
    requires Covered(w, k)
    ensures Covered(Next(w, Write), k)
  {
    if w.read.Some? {
      PlusDeltas(w.reported, w.base, w.read.value, k);
    }
  }

  lemma CoveredCrash(w: World, k: Key)
    requires Covered(w, k)
    ensures Covered(Next(w, Crash), k)
  {
  }

  /** Over every run the samples never add up to more than the kernel counted. */
  lemma {:induction false} NeverOverReported(steps: seq<Step>, k: Key)
    ensures Covered(After(steps), k)
    ensures Get(After(steps).reported, k) <= Get(After(steps).counted, k)
  {
    if steps != [] {
      NeverOverReported(steps[..|steps| - 1], k);
      CoveredStep(After(steps[..|steps| - 1]), steps[|steps| - 1], k);
    }
  }

  predicate Undisturbed(steps: seq<Step>) {
    forall s :: s in steps ==> !s.Reset? && !s.Delete? && !s.CrashCorrupt?
  }

  predicate Exact(w: World, k: Key) {
    && !w.prime
    && Get(w.reported, k) == Get(w.base, k) == Get(w.collected, k)
    && Get(w.counters, k) == Get(w.counted, k)
    && Get(w.base, k) <= Get(w.counters, k)
    && (w.read.Some? ==> Get(w.base, k) <= Get(w.read.value, k) == Get(w.countedAtRead, k) <= Get(w.counters, k))
  }

  lemma ExactStep(w: World, s: Step, k: Key)
    requires Exact(w, k) && !s.Reset? && !s.Delete? && !s.CrashCorrupt?
    ensures Exact(Next(w, s), k)
  {
    if s.Write? && w.read.Some? {
      PlusDeltas(w.reported, w.base, w.read.value, k);
    }
  }

  /** Without resets, deletions and lost state they are exactly what had been
      counted when the last written collection read the counters. */
  lemma {:induction false} ExactlyReported(steps: seq<Step>, k: Key)
    requires Undisturbed(steps)
    ensures Exact(After(steps), k)
    ensures Get(After(steps).reported, k) == Get(After(steps).collected, k)
  {
    if steps != [] {
      ExactlyReported(steps[..|steps| - 1], k);
      ExactStep(After(steps[..|steps| - 1]), steps[|steps| - 1], k);
    }
  }

  // --- what is lost, exactly -------------------------------------------------------------------

  /** Bytes counted that no sample has and no coming collection will bring. */
  function Slack(w: World, k: Key): int {
    Get(w.counted, k) - Get(w.reported, k) - Waiting(w, k) - Beyond(w, k)
  }

  /** What the next collection will compare the counter with. */
  function Mark(w: World, k: Key): nat { if w.read.Some? then Get(w.read.value, k) else Get(w.base, k) }

  /** The step loses bytes of the key: the counter comes back up past its mark, is
      cleared while it holds unread bytes, counts while the baselines await priming,
      or state goes away that held what the counter no longer shows. */
  predicate Loses(w: World, s: Step, k: Key) {
    var c := Get(w.counters, k);
    match s
    case Traffic(x, n) => x == k && n > 0 && ((w.prime && w.read.None?) || c < Mark(w, k) <= c + n)
    case Reset(x) => x == k && Beyond(w, k) > 0
    case Delete(x) => x == k && Beyond(w, k) > 0
    case Read => false
    case Write => false
    case Crash =>
      w.read.Some? &&
      var b, v := Get(w.base, k), Get(w.read.value, k);
      if w.prime then Delta(v, c) > 0 else v < b <= c || (c < v && v != b)
    case CrashCorrupt => Waiting(w, k) + Beyond(w, k) > 0
  }

  lemma SlackMove(w: World, w': World, k: Key, n: nat)
    requires w' == w.(counters := w'.counters, counted := w'.counted) && Get(w'.counted, k) == Get(w.counted, k) + n
    ensures Get(w'.counters, k) == Get(w.counters, k) + n && n > 0 ==>
              Slack(w', k) >= Slack(w, k) && (Slack(w', k) > Slack(w, k) <==> Loses(w, Traffic(k, n), k))
    ensures n == 0 && Get(w'.counters, k) == Get(w.counters, k) ==> Slack(w', k) == Slack(w, k)
    ensures n == 0 && Get(w'.counters, k) == 0 ==>
              Slack(w', k) >= Slack(w, k) && (Slack(w', k) > Slack(w, k) <==> Loses(w, Reset(k), k))
  {
  }

  lemma SlackWrite(w: World, k: Key)
    ensures Slack(Next(w, Write), k) == Slack(w, k)
  {
    if w.read.Some? {
      PlusDeltas(w.reported, w.base, w.read.value, k);
    }
  }

  lemma SlackCrash(w: World, k: Key)
    ensures Slack(Next(w, Crash), k) >= Slack(w, k)
    ensures Slack(Next(w, Crash), k) > Slack(w, k) <==> Loses(w, Crash, k)
  {
  }

  lemma SlackRead(w: World, k: Key)
    ensures Slack(Next(w, Read), k) == Slack(w, k)
  {
  }

  lemma SlackCorrupt(w: World, k: Key)
    ensures Slack(Next(w, CrashCorrupt), k) >= Slack(w, k)
    ensures Slack(Next(w, CrashCorrupt), k) > Slack(w, k) <==> Loses(w, CrashCorrupt, k)
  {
  }

  lemma SlackClear(w: World, s: Step, k: Key)
    requires s.Reset? || s.Delete?
    ensures Slack(Next(w, s), k) >= Slack(w, k)
    ensures Slack(Next(w, s), k) > Slack(w, k) <==> Loses(w, s, k)
  {
    SlackMove(w, Next(w, s), k, 0);
  }

  lemma SlackTraffic(w: World, s: Step, k: Key)
    requires s.Traffic?
    ensures Slack(Next(w, s), k) >= Slack(w, k)
    ensures Slack(Next(w, s), k) > Slack(w, k) <==> Loses(w, s, k)
  {
    SlackMove(w, Next(w, s), k, if s.key == k then s.bytes else 0);
  }

  /** A step never wins bytes back, and loses some exactly as described. */
  lemma SlackStep(w: World, s: Step, k: Key)
    ensures Slack(Next(w, s), k) >= Slack(w, k)
    ensures Slack(Next(w, s), k) > Slack(w, k) <==> Loses(w, s, k)
  {
    match s
    case Traffic(_, _) => SlackTraffic(w, s, k);
    case Reset(_) => SlackClear(w, s, k);
    case Delete(_) => SlackClear(w, s, k);
    case Read => SlackRead(w, k);
    case Write => SlackWrite(w, k);
    case Crash => SlackCrash(w, k);
    case CrashCorrupt => SlackCorrupt(w, k);
  }

  predicate Lossless(steps: seq<Step>, k: Key) {
    steps == [] || (Lossless(steps[..|steps| - 1], k) && !Loses(After(steps[..|steps| - 1]), steps[|steps| - 1], k))
  }

  /** Over every run, all bytes counted are in samples or will be in the coming ones
      if and only if no step lost any. */
  lemma {:induction false} LosslessIff(steps: seq<Step>, k: Key)
    ensures Slack(After(steps), k) >= 0
    ensures Slack(After(steps), k) == 0 <==> Lossless(steps, k)
  {
    if steps != [] {
      LosslessIff(steps[..|steps| - 1], k);
      SlackStep(After(steps[..|steps| - 1]), steps[|steps| - 1], k);
    }
  }

  // --- one window --------------------------------------------------------------------------------

  predicate Window(steps: seq<Step>) { forall s :: s in steps ==> s.Traffic? || s.Reset? || s.Delete? }

  predicate Clears(s: Step, k: Key) { (s.Reset? && s.key == k) || (s.Delete? && s.key == k) }

  predicate WasCleared(steps: seq<Step>, k: Key) {
    steps != [] && (Clears(steps[|steps| - 1], k) || WasCleared(steps[..|steps| - 1], k))
  }

  /** Bytes of the key since its counter was last cleared, and before that. */
  function Since(steps: seq<Step>, k: Key): nat {
    if steps == [] then 0
    else
      var front, last := steps[..|steps| - 1], steps[|steps| - 1];
      if Clears(last, k) then 0 else Since(front, k) + if last.Traffic? && last.key == k then last.bytes else 0
  }

  function Before(steps: seq<Step>, k: Key): nat {
    if steps == [] then 0
    else
      var front, last := steps[..|steps| - 1], steps[|steps| - 1];
      if Clears(last, k) then Before(front, k) + Since(front, k) else Before(front, k)
  }

  lemma MoveStep(w: World, s: Step, k: Key)
    requires s.Traffic? || s.Reset? || s.Delete?
    ensures var e, n := Next(w, s), if s.Traffic? && s.key == k then s.bytes else 0;
            && e == w.(counters := e.counters, counted := e.counted)
            && Get(e.counted, k) == Get(w.counted, k) + n
            && Get(e.counters, k) == if Clears(s, k) then 0 else Get(w.counters, k) + n
  {
  }

  lemma {:induction false} WindowState(w: World, steps: seq<Step>, k: Key)
    requires Window(steps)
    ensures var e := Run(w, steps);
            && e == w.(counters := e.counters, counted := e.counted)
            && Get(e.counted, k) == Get(w.counted, k) + Before(steps, k) + Since(steps, k)
            && Get(e.counters, k) == (if WasCleared(steps, k) then 0 else Get(w.counters, k)) + Since(steps, k)
  {
    if steps != [] {
      var front, last := steps[..|steps| - 1], steps[|steps| - 1];
      assert last in steps;
      WindowState(w, front, k);
      MoveStep(Run(w, front), last, k);
    }
  }

  lemma Collects(w: World, steps: seq<Step>, k: Key)
    requires Window(steps) && w.read.None? && !w.prime
    ensures var m, e := Run(w, steps), Run(w, steps + [Read] + [Write]);
            && Get(e.counted, k) == Get(m.counted, k)
            && Get(e.reported, k) == Get(m.reported, k) + Delta(Get(m.base, k), Get(m.counters, k))
  {
    WindowState(w, steps, k);
    var m := Run(w, steps);
    assert (steps + [Read] + [Write])[..|steps| + 1] == steps + [Read];
    assert (steps + [Read])[..|steps|] == steps;
    PlusDeltas(m.reported, m.base, m.counters, k);
  }

  /** A collection reports everything its window counted, and what was unread at its
      start, if and only if: without a clearing, the counter was not below its
      baseline or stayed below it; with one, nothing was unread or counted before
      the last, and the counter then stayed below the baseline or that was zero. */
  lemma ResetWindowIff(w: World, steps: seq<Step>, k: Key)
    requires Window(steps) && w.read.None? && !w.prime
    ensures var e, b, c := Run(w, steps + [Read] + [Write]), Get(w.base, k), Get(w.counters, k);
            Get(e.reported, k) - Get(w.reported, k) == Beyond(w, k) + Get(e.counted, k) - Get(w.counted, k)
            <==> if WasCleared(steps, k)
                 then Beyond(w, k) + Before(steps, k) == 0 && (b == 0 || Since(steps, k) < b)
                 else b <= c || c + Since(steps, k) < b
  {
    WindowState(w, steps, k);
    Collects(w, steps, k);
    if !WasCleared(steps, k) {
      NoneBefore(steps, k);
    }
  }

  lemma {:induction false} NoneBefore(steps: seq<Step>, k: Key)
    requires !WasCleared(steps, k)
    ensures Before(steps, k) == 0
  {
    if steps != [] {
      NoneBefore(steps[..|steps| - 1], k);
    }
  }

  /** Twelve bytes counted, seven reported: the counter restarted and passed its old
      baseline before the next read. */
  lemma UnderCounts(k: Key) returns (steps: seq<Step>)
    ensures Get(After(steps).counted, k) == 12 && Get(After(steps).collected, k) == 12
    ensures Get(After(steps).reported, k) == 7
  {
    var first, second := [Traffic(k, 5), Read, Write], [Reset(k), Traffic(k, 7), Read, Write];
    FirstWindow(k);
    SecondWindow(After(first), k);
    steps := first + second;
    RunSplit(Start(), first, second);
  }

  /** Just collected, with the counter at `n`. */
  predicate Settled(w: World, k: Key, n: nat) {
    w.read.None? && !w.prime && Get(w.base, k) == Get(w.counters, k) == n
  }

  lemma FirstWindow(k: Key)
    ensures var e := After([Traffic(k, 5), Read, Write]);
            Settled(e, k, 5) && Get(e.counted, k) == 5 && Get(e.reported, k) == 5
  {
    var steps := [Traffic(k, 5)];
    assert steps + [Read] + [Write] == [Traffic(k, 5), Read, Write];
    assert steps[..0] == [];
    WindowState(Start(), steps, k);
    Collects(Start(), steps, k);
    AtWrite(Start(), steps);
  }

  lemma SecondWindow(w: World, k: Key)
    requires Settled(w, k, 5)
    ensures var e := Run(w, [Reset(k), Traffic(k, 7), Read, Write]);
            && Get(e.counted, k) == Get(w.counted, k) + 7 == Get(e.collected, k)
            && Get(e.reported, k) == Get(w.reported, k) + 2
  {
    var steps := [Reset(k), Traffic(k, 7)];
    assert steps + [Read] + [Write] == [Reset(k), Traffic(k, 7), Read, Write];
    assert steps[..1] == [Reset(k)] && [Reset(k)][..0] == [];
    assert WasCleared([Reset(k)], k) && Since([Reset(k)], k) == 0 && Before([Reset(k)], k) == 0;
    assert WasCleared(steps, k) && Since(steps, k) == 7 && Before(steps, k) == 0;
    WindowState(w, steps, k);
    Collects(w, steps, k);
    AtWrite(w, steps);
  }

  lemma AtWrite(w: World, steps: seq<Step>)
    requires Window(steps) && w.read.None? && !w.prime
    ensures var m, e := Run(w, steps), Run(w, steps + [Read] + [Write]);
            e.read.None? && !e.prime && e.base == m.counters && e.counters == m.counters && e.collected == m.counted
  {
    assert (steps + [Read] + [Write])[..|steps| + 1] == steps + [Read];
    assert (steps + [Read])[..|steps|] == steps;
    WindowState(w, steps, Key(0, 0));
  }

  lemma {:induction false} RunSplit(w: World, p: seq<Step>, q: seq<Step>)
    ensures Run(w, p + q) == Run(Run(w, p), q)
  {
    if q == [] {
      assert p + q == p;
    } else {
      assert (p + q)[..|p + q| - 1] == p + q[..|q| - 1];
      RunSplit(w, p, q[..|q| - 1]);
    }
  }
}
