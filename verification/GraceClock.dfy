/** The fail-closed clock across restarts (agent/agent.go, agent/state.go). Times
    are nanoseconds and do not go backwards. */
module GraceClock {
  import opened AuthzLog

  const MINUTE: Time := 60_000_000_000

  /** When the backend last answered: as the loop knows it, as the runtime in memory
      records it and as the runtime file does; and when this process began. Absent
      while never set. */
  datatype Clock = Clock(lastOk: Time, stamp: Option<Time>, saved: Option<Time>, started: Option<Time>)

  /** `markAuthzOK`: the runtime records an answer at most once a minute, and the file
      follows if the write succeeds. */
  function Mark(c: Clock, now: Time, written: bool): Clock {
    if c.stamp.None? || now - c.stamp.value >= MINUTE
    then c.(lastOk := now, stamp := Some(now), saved := if written then Some(now) else c.saved)
    else c.(lastOk := now)
  }

  /** Any other write of the runtime brings the file up to date. */
  function Save(c: Clock): Clock { c.(saved := c.stamp) }

  /** `initLastAuthzOK` of a new process, which knows only the file. */
  function Init(c: Clock, now: Time): Clock {
    c.(lastOk := if c.saved.Some? then c.saved.value else now, stamp := c.saved, started := Some(now))
  }

  function Grace(minutes: nat): Time { minutes * MINUTE }

  /** Ten minutes, or half the grace if that is shorter. */
  function StartupGrace(minutes: nat): Time {
    var half := Grace(minutes) / 2;
    if 0 < half < 10 * MINUTE then half else 10 * MINUTE
  }

  predicate Settled(c: Clock, now: Time, minutes: nat) {
    c.started.None? || now - c.started.value >= StartupGrace(minutes)
  }

  predicate MustFlush(c: Clock, now: Time, minutes: nat, failClosed: bool) {
    now - c.lastOk > Grace(minutes) && failClosed && Settled(c, now, minutes)
  }

  // --- runs --------------------------------------------------------------------------

  /** The backend answered, the runtime was written for another reason, a process
      started, or one started and found its state file corrupt. */
  datatype Event = Answered(at: Time, written: bool) | Wrote(at: Time) | Restarted(at: Time) | Recovered(at: Time)

  /** What really happened: the last answer, and whether the process restarted or
      lost its state since. */
  datatype Truth = Truth(now: Time, answered: Option<Time>, restarted: bool, lost: bool)

  function Step(c: Clock, e: Event): Clock {
    match e
    case Answered(t, written) => Mark(c, t, written)
    case Wrote(_) => Save(c)
    case Restarted(t) => Init(c, t)
    case Recovered(t) => Init(c.(saved := None), t)
  }

  function Learn(h: Truth, e: Event): Truth {
    match e
    case Answered(t, _) => Truth(t, Some(t), false, false)
    case Wrote(t) => h.(now := t)
    case Restarted(t) => h.(now := t, restarted := true)
    case Recovered(t) => h.(now := t, restarted := true, lost := true)
  }

  predicate InOrder(now: Time, run: seq<Event>)
    decreases |run|
  {
    run == [] || (now <= run[0].at && InOrder(run[0].at, run[1..]))
  }

  function Run(c: Clock, run: seq<Event>): Clock
    decreases |run|
  {
    if run == [] then c else Run(Step(c, run[0]), run[1..])
  }

  function History(h: Truth, run: seq<Event>): Truth
    decreases |run|
  {
    if run == [] then h else History(Learn(h, run[0]), run[1..])
  }

  /** Every restart finds the file as new as memory was. */
  predicate FileKept(c: Clock, run: seq<Event>)
    decreases |run|
  {
    run == [] || ((run[0].Restarted? ==> c.saved == c.stamp) && FileKept(Step(c, run[0]), run[1..]))
  }

  /** Every restart finds some time in the file. */
  predicate FileDated(c: Clock, run: seq<Event>)
    decreases |run|
  {
    run == [] || ((run[0].Restarted? ==> c.saved.Some?) && FileDated(Step(c, run[0]), run[1..]))
  }

  /** The recorded times are not in the future. */
  predicate Past(c: Clock, now: Time) {
    (c.stamp.Some? ==> c.stamp.value <= now) && (c.saved.Some? ==> c.saved.value <= now)
  }

  predicate Inv(c: Clock, h: Truth) {
    Past(c, h.now) &&
    (h.answered.Some? ==>
      var s := h.answered.value;
      && s <= h.now
      && (!h.restarted ==> c.lastOk == s)
      && s - MINUTE < c.lastOk <= h.now
      && (c.stamp.Some? ==> s - MINUTE < c.stamp.value <= s))
  }

  lemma {:induction false} RunInv(c: Clock, h: Truth, run: seq<Event>)
    requires Inv(c, h) && InOrder(h.now, run) && FileKept(c, run)
    ensures Inv(Run(c, run), History(h, run))
    decreases |run|
  {
    if run != [] {
      RunInv(Step(c, run[0]), Learn(h, run[0]), run[1..]);
    }
  }

  /** A flush at `t` means the backend has been silent for the whole grace in minutes, less
      at most one when the process restarted since it last answered; and never within ten
      minutes of the start of a process, or half the grace if that is shorter. */
  lemma FlushMeansSilence(c: Clock, h: Truth, run: seq<Event>, t: Time, minutes: nat, failClosed: bool)
    requires h.answered.None? && Past(c, h.now) && InOrder(h.now, run) && History(h, run).now <= t && FileKept(c, run)
    requires MustFlush(Run(c, run), t, minutes, failClosed)
    ensures var e := History(h, run);
            e.answered.Some? ==>
              && t - e.answered.value > (minutes - 1) * 60_000_000_000
              && (!e.restarted ==> t - e.answered.value > minutes * 60_000_000_000)
    ensures Run(c, run).started.Some? ==>
              t - Run(c, run).started.value >= if 0 < minutes < 20 then minutes * 30_000_000_000 else 600_000_000_000
  {
    RunInv(c, h, run);
  }

  /** The last answer is no earlier than any recorded time. */
  predicate Behind(c: Clock, h: Truth) {
    Past(c, h.now) &&
    (h.answered.Some? ==>
      var s := h.answered.value;
      && s <= h.now && (c.stamp.Some? ==> c.stamp.value <= s) && (c.saved.Some? ==> c.saved.value <= s)
      && (!h.lost ==> c.lastOk <= s))
  }

  lemma {:induction false} RunBehind(c: Clock, h: Truth, run: seq<Event>)
    requires Behind(c, h) && InOrder(h.now, run) && FileDated(c, run)
    ensures Behind(Run(c, run), History(h, run))
    decreases |run|
  {
    if run != [] {
      RunBehind(Step(c, run[0]), Learn(h, run[0]), run[1..]);
    }
  }

  /** The other half: silence longer than the grace flushes however often the
      process restarted in between, once it has settled, unless state was lost. */
  lemma SilenceMeansFlush(c: Clock, h: Truth, run: seq<Event>, t: Time, minutes: nat)
    requires h.answered.None? && Past(c, h.now) && InOrder(h.now, run) && History(h, run).now <= t && FileDated(c, run)
    requires History(h, run).answered.Some? && !History(h, run).lost
    requires t - History(h, run).answered.value > minutes * 60_000_000_000
    requires Run(c, run).started.Some? ==>
               t - Run(c, run).started.value >= if 0 < minutes < 20 then minutes * 30_000_000_000 else 600_000_000_000
    ensures MustFlush(Run(c, run), t, minutes, true)
  {
    RunBehind(c, h, run);
  }

  // --- a file left behind ------------------------------------------------------------------

  /** A process that starts at `now` after a last answer at `s` flushes only after the
      grace less a minute of silence if and only if the file lags that answer by at
      most a minute, holds no time, or the startup grace alone lasts that long. */
  lemma RestartSafeIff(c: Clock, s: Time, now: Time, minutes: nat)
    requires s <= now
    ensures (forall t :: t >= now && MustFlush(Init(c, now), t, minutes, true) ==> t - s > Grace(minutes) - MINUTE)
            <==> c.saved.None? || c.saved.value >= s - MINUTE || now + StartupGrace(minutes) - s > Grace(minutes) - MINUTE
  {
    var c' := Init(c, now);
    if c.saved.Some? {
      var over, settled := c.saved.value + Grace(minutes) + 1, now + StartupGrace(minutes);
      var first := if over > settled then over else settled;
      assert MustFlush(c', first, minutes, true);
    }
  }

  /** An answer whose write failed, then a restart: with a grace of four hours the set
      is flushed before the backend was silent for two and a half. */
  lemma FileBehindFlushesEarly()
    ensures var start, run := Clock(0, None, None, None), [Answered(0, true), Answered(100 * MINUTE, false), Restarted(100 * MINUTE)];
            var t := 240 * MINUTE + 1;
            && InOrder(0, run) && MustFlush(Run(start, run), t, 240, true)
            && History(Truth(0, None, false, false), run).answered == Some(100 * MINUTE)
            && t - 100 * MINUTE < 150 * MINUTE
  {
    var start := Clock(0, None, None, None);
    var last := Restarted(100 * MINUTE);
    var rest := [Answered(100 * MINUTE, false), last];
    var run := [Answered(0, true)] + rest;
    assert run == [Answered(0, true), Answered(100 * MINUTE, false), last];
    assert run[1..] == rest && rest[1..] == [last] && [last][1..] == [];
    assert InOrder(100 * MINUTE, [last]) && InOrder(0, rest);
    var c1 := Clock(0, Some(0), Some(0), None);
    var c2 := Clock(100 * MINUTE, Some(100 * MINUTE), Some(0), None);
    assert Run(c2, [last]) == Clock(0, Some(0), Some(0), Some(100 * MINUTE));
    assert Run(c1, rest) == Run(c2, [last]);
    assert Run(start, run) == Run(c1, rest);
    var h1, h2 := Truth(0, Some(0), false, false), Truth(100 * MINUTE, Some(100 * MINUTE), false, false);
    assert History(h2, [last]).answered == Some(100 * MINUTE);
    assert History(h1, rest) == History(h2, [last]);
  }
}
