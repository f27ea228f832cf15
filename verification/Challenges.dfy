/** Single-use login challenges remembered only as long as needed
    (backend/nostr/challenge.go). */
module Challenges {
  import opened AuthzLog

  const TTL: int := 120
  const PRUNE_ABOVE: nat := 1024

  datatype Attempt = Attempt(challenge: string, at: int)

  type Seen = map<string, int>

  /** The expiry of a challenge that carries a valid MAC, as a parameter. */
  type Expiry = string -> Option<int>

  predicate Verifies(expiry: Expiry, a: Attempt) {
    expiry(a.challenge).Some? && a.at <= expiry(a.challenge).value
  }

  predicate Used(seen: Seen, a: Attempt) { a.challenge in seen && seen[a.challenge] >= a.at }

  function Pruned(seen: Seen, now: int): Seen {
    if |seen| > PRUNE_ABOVE then map c | c in seen && seen[c] >= now :: seen[c] else seen
  }

  function Remember(seen: Seen, a: Attempt): Seen {
    Pruned(seen, a.at)[a.challenge := a.at + TTL]
  }

  /** Verified and not consumed before. */
  predicate Accepts(seen: Seen, expiry: Expiry, a: Attempt) { Verifies(expiry, a) && !Used(seen, a) }

  class UsedChallenges {
    var seen: Seen

    constructor ()
      ensures seen == map[]
    {
      seen := map[];
    }

    method Consume(challenge: string, now: int) returns (isNew: bool)
      modifies this
      ensures isNew == !Used(old(seen), Attempt(challenge, now))
      ensures seen == if isNew then Remember(old(seen), Attempt(challenge, now)) else old(seen)
      ensures isNew <==> !(challenge in old(seen) && old(seen)[challenge] >= now)
      ensures isNew ==> challenge in seen && seen[challenge] == now + 120
      ensures isNew ==> forall c :: c != challenge ==>
                (c in seen <==> c in old(seen) && (|old(seen)| <= 1024 || old(seen)[c] >= now))
    {
      if challenge in seen && seen[challenge] >= now { return false; }
      if |seen| > PRUNE_ABOVE {
        var todo := seen.Keys;
        while todo != {}
          invariant todo <= old(seen).Keys
          invariant forall c :: c in seen <==> c in old(seen) && (c in todo || old(seen)[c] >= now)
          invariant forall c :: c in seen ==> seen[c] == old(seen)[c]
          decreases |todo|
        {
          var c :| c in todo;
          if seen[c] < now {
            seen := seen - {c};
          }
          todo := todo - {c};
        }
        assert seen == Pruned(old(seen), now);
      }
      seen := seen[challenge := now + TTL];
      return true;
    }
  }

  // --- runs of verify, then consume --------------------------------------------------------------

  function After(attempts: seq<Attempt>, expiry: Expiry): Seen {
    if attempts == [] then map[]
    else
      var seen, last := After(attempts[..|attempts| - 1], expiry), attempts[|attempts| - 1];
      if Accepts(seen, expiry, last) then Remember(seen, last) else seen
  }

  predicate InOrder(attempts: seq<Attempt>) {
    forall i, j :: 0 <= i <= j < |attempts| ==> attempts[i].at <= attempts[j].at
  }

  /** No attempt precedes the issue of its challenge. */
  predicate NotBeforeIssue(attempts: seq<Attempt>, expiry: Expiry) {
    forall a :: a in attempts && expiry(a.challenge).Some? ==> a.at >= expiry(a.challenge).value - 120
  }

  /** The challenges accepted so far. */
  function AcceptedOnce(attempts: seq<Attempt>, expiry: Expiry): set<string> {
    if attempts == [] then {}
    else
      var front, last := attempts[..|attempts| - 1], attempts[|attempts| - 1];
      AcceptedOnce(front, expiry) + if Accepts(After(front, expiry), expiry, last) then {last.challenge} else {}
  }

  /** An accepted challenge is remembered until it could no longer verify. */
  ghost predicate Remembered(seen: Seen, accepted: set<string>, expiry: Expiry, now: int) {
    forall c :: c in accepted ==>
      expiry(c).Some? && ((c in seen && seen[c] >= expiry(c).value) || expiry(c).value < now)
  }

  /** Pruning only removes entries whose challenge has expired. */
  lemma PruneKeeps(seen: Seen, accepted: set<string>, expiry: Expiry, now: int)
    requires Remembered(seen, accepted, expiry, now)
    ensures Remembered(Pruned(seen, now), accepted, expiry, now)
  {
  }

  lemma RememberedStep(seen: Seen, accepted: set<string>, expiry: Expiry, before: int, a: Attempt)
    requires Remembered(seen, accepted, expiry, before) && before <= a.at && Accepts(seen, expiry, a)
    requires a.at >= expiry(a.challenge).value - 120
    ensures a.challenge !in accepted
    ensures Remembered(Remember(seen, a), accepted + {a.challenge}, expiry, a.at)
  {
    PruneKeeps(seen, accepted, expiry, a.at);
  }

  lemma {:induction false} RunRemembers(attempts: seq<Attempt>, expiry: Expiry)
    requires InOrder(attempts) && NotBeforeIssue(attempts, expiry)
    ensures forall now :: (attempts != [] ==> attempts[|attempts| - 1].at <= now) ==>
              Remembered(After(attempts, expiry), AcceptedOnce(attempts, expiry), expiry, now)
  {
    if attempts != [] {
      var front, last := attempts[..|attempts| - 1], attempts[|attempts| - 1];
      RunRemembers(front, expiry);
      var seen, accepted := After(front, expiry), AcceptedOnce(front, expiry);
      assert front != [] ==> front[|front| - 1].at <= last.at;
      assert Remembered(seen, accepted, expiry, last.at);
      assert last in attempts;
      if Accepts(seen, expiry, last) {
        RememberedStep(seen, accepted, expiry, last.at, last);
      }
    }
  }

  /** Every attempt is answered as by a cache that never forgets: accepted exactly
      when the challenge verifies and was not accepted before. */
  lemma AcceptedAtMostOnce(attempts: seq<Attempt>, expiry: Expiry, next: Attempt)
    requires InOrder(attempts + [next]) && NotBeforeIssue(attempts + [next], expiry)
    ensures Accepts(After(attempts, expiry), expiry, next) <==>
            expiry(next.challenge).Some? && next.at <= expiry(next.challenge).value && next.challenge !in AcceptedOnce(attempts, expiry)
  {
    assert forall i :: 0 <= i < |attempts| ==> attempts[i] == (attempts + [next])[i];
    assert attempts != [] ==> attempts[|attempts| - 1].at <= (attempts + [next])[|attempts|].at;
    RunRemembers(attempts, expiry);
    assert Remembered(After(attempts, expiry), AcceptedOnce(attempts, expiry), expiry, next.at);
    SeenWereAccepted(attempts, expiry);
  }

  lemma {:induction false} SeenWereAccepted(attempts: seq<Attempt>, expiry: Expiry)
    ensures After(attempts, expiry).Keys <= AcceptedOnce(attempts, expiry)
  {
    if attempts != [] {
      SeenWereAccepted(attempts[..|attempts| - 1], expiry);
    }
  }

  // --- without assuming anything about issue times --------------------------------------------------

  /** When the challenge was last accepted. */
  function LastAccepted(attempts: seq<Attempt>, expiry: Expiry, c: string): Option<int> {
    if attempts == [] then None
    else
      var front, last := attempts[..|attempts| - 1], attempts[|attempts| - 1];
      if last.challenge == c && Accepts(After(front, expiry), expiry, last) then Some(last.at) else LastAccepted(front, expiry, c)
  }

  /** The cache knows the last acceptance, or that was more than the lifetime ago. */
  predicate Knows(seen: Seen, last: Option<int>, c: string, now: int) {
    if c in seen then last.Some? && seen[c] == last.value + 120 else last.Some? ==> last.value + 120 < now
  }

  lemma KnowsRemember(seen: Seen, last: Option<int>, c: string, a: Attempt)
    requires Knows(seen, last, c, a.at)
    ensures Knows(Remember(seen, a), if a.challenge == c then Some(a.at) else last, c, a.at)
  {
  }

  lemma {:induction false} RunKnows(attempts: seq<Attempt>, expiry: Expiry, c: string, now: int)
    requires InOrder(attempts) && (attempts != [] ==> attempts[|attempts| - 1].at <= now)
    ensures Knows(After(attempts, expiry), LastAccepted(attempts, expiry, c), c, now)
  {
    if attempts != [] {
      var front, last := attempts[..|attempts| - 1], attempts[|attempts| - 1];
      assert front != [] ==> front[|front| - 1].at <= last.at;
      RunKnows(front, expiry, c, last.at);
      KnowsRemember(After(front, expiry), LastAccepted(front, expiry, c), c, last);
    }
  }

  /** The exact answer over every run in time order: an attempt is accepted if and only
      if it verifies and the challenge was never accepted, or last more than the
      lifetime of 120 seconds ago. */
  lemma AcceptedIff(attempts: seq<Attempt>, expiry: Expiry, next: Attempt)
    requires InOrder(attempts + [next])
    ensures var last := LastAccepted(attempts, expiry, next.challenge);
            Accepts(After(attempts, expiry), expiry, next) <==>
              expiry(next.challenge).Some? && next.at <= expiry(next.challenge).value && (last.None? || last.value + 120 < next.at)
  {
    assert forall i :: 0 <= i < |attempts| ==> attempts[i] == (attempts + [next])[i];
    assert attempts != [] ==> attempts[|attempts| - 1].at <= (attempts + [next])[|attempts|].at;
    RunKnows(attempts, expiry, next.challenge, next.at);
  }

  /** So after any run a challenge accepted at `first` has room for a replay if and only
      if that was before its issue: only a clock set back makes it. */
  lemma ReplayIff(attempts: seq<Attempt>, expiry: Expiry, c: string, first: int)
    requires InOrder(attempts) && expiry(c).Some? && LastAccepted(attempts, expiry, c) == Some(first)
    requires attempts != [] && attempts[|attempts| - 1].at <= expiry(c).value
    ensures (exists later :: later >= attempts[|attempts| - 1].at && Accepts(After(attempts, expiry), expiry, Attempt(c, later)))
            <==> first < expiry(c).value - 120
  {
    var exp, now := expiry(c).value, attempts[|attempts| - 1].at;
    forall later | later >= now
      ensures Accepts(After(attempts, expiry), expiry, Attempt(c, later)) <==> later <= exp && first + 120 < later
    {
      assert InOrder(attempts + [Attempt(c, later)]);
      AcceptedIff(attempts, expiry, Attempt(c, later));
    }
    if first < exp - 120 {
      assert Accepts(After(attempts, expiry), expiry, Attempt(c, exp));
    }
  }
}
