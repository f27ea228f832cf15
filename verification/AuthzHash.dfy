/** The order-independent fingerprint of an address set (pkg/authzhash) and the
    heartbeat's drift verdict (backend/api.go). */
module AuthzHash {
  import opened AuthzLog

  const WIDTH := 16

  function Pow256(n: nat): (p: nat)
    ensures p >= 1
  {
    if n == 0 then 1 else 256 * Pow256(n - 1)
  }

  /** The `n` big-endian bytes of an address; `As16` is the case of 16. */
  function Bytes(a: nat, n: nat): (d: seq<nat>)
    ensures |d| == n
  {
    if n == 0 then [] else Bytes(a / 256, n - 1) + [a % 256]
  }

  /** `bytes.Compare(x, y) < 0` for strings of one length. */
  predicate LexLess(x: seq<nat>, y: seq<nat>)
    requires |x| == |y|
  {
    var n := |x| - 1;
    |x| > 0 && (LexLess(x[..n], y[..n]) || (x[..n] == y[..n] && x[n] < y[n]))
  }

  /** Comparing the bytes is comparing the addresses. */
  lemma {:induction false} LexIsNumeric(a: nat, b: nat, n: nat)
    requires a < Pow256(n) && b < Pow256(n)
    ensures LexLess(Bytes(a, n), Bytes(b, n)) <==> a < b
    ensures Bytes(a, n) == Bytes(b, n) <==> a == b
  {
    if n > 0 {
      LexIsNumeric(a / 256, b / 256, n - 1);
      var x, y := Bytes(a, n), Bytes(b, n);
      assert x[..n - 1] == Bytes(a / 256, n - 1) && y[..n - 1] == Bytes(b / 256, n - 1);
      assert x[n - 1] == a % 256 && y[n - 1] == b % 256;
    }
  }

  // --- the canonical list of a set -------------------------------------------------

  predicate Increasing(s: seq<Addr>) { forall i, j :: 0 <= i < j < |s| ==> s[i] < s[j] }
  predicate NonDecreasing(s: seq<Addr>) { forall i, j :: 0 <= i < j < |s| ==> s[i] <= s[j] }

  function Members(s: seq<Addr>): set<Addr> { set a | a in s }

  /** A set has one increasing list. */
  lemma {:induction false} IncreasingUnique(s: seq<Addr>, t: seq<Addr>)
    requires Increasing(s) && Increasing(t) && Members(s) == Members(t)
    ensures s == t
    decreases |s|
  {
    assert forall a :: a in s <==> a in Members(s);
    assert forall a :: a in t <==> a in Members(t);
    assert t != [] ==> t[0] in s;
    if s != [] {
      assert s[0] in t;
      assert t[0] in s;
      assert s[0] == t[0];
      var s', t' := s[1..], t[1..];
      assert forall a :: a in s' <==> a in s && a != s[0] by {
        assert s == [s[0]] + s';
      }
      assert forall a :: a in t' <==> a in t && a != t[0] by {
        assert t == [t[0]] + t';
      }
      IncreasingUnique(s', t');
    }
  }

  /** The keys' bytes, one after the other. */
  function Flatten(s: seq<Addr>, w: nat): (b: seq<nat>)
    ensures s != [] ==> |b| >= w
  {
    if s == [] then [] else Flatten(s[..|s| - 1], w) + Bytes(s[|s| - 1], w)
  }

  predicate Fit(s: seq<Addr>, w: nat) { forall i :: 0 <= i < |s| ==> s[i] < Pow256(w) }

  /** Keys of one width can be read back off the stream. */
  lemma {:induction false} FlattenInjective(s: seq<Addr>, t: seq<Addr>, w: nat)
    requires w > 0 && Fit(s, w) && Fit(t, w) && Flatten(s, w) == Flatten(t, w)
    ensures s == t
  {
    if s != [] {
      var m, n, b := |s| - 1, |t| - 1, Flatten(s, w);
      assert b[..|b| - w] == Flatten(s[..m], w) && b[|b| - w..] == Bytes(s[m], w);
      assert b[..|b| - w] == Flatten(t[..n], w) && b[|b| - w..] == Bytes(t[n], w);
      LexIsNumeric(s[m], t[n], w);
      FlattenInjective(s[..m], t[..n], w);
    }
  }

  // --- sort and skip duplicates ---------------------------------------------------

  lemma HeadLeast(s: seq<Addr>)
    requires NonDecreasing(s) && s != []
    ensures forall x :: x in s ==> s[0] <= x
  {
  }

  lemma HeadFirst(a: Addr, s: seq<Addr>)
    requires NonDecreasing(s) && forall x :: x in s ==> a <= x
    ensures NonDecreasing([a] + s)
  {
    assert forall i :: 0 <= i < |s| ==> s[i] in s;
  }

  /** Stand-in for `sort.Slice`: any sort gives the same list here. */
  function Insert(a: Addr, s: seq<Addr>): (r: seq<Addr>)
    requires NonDecreasing(s)
    ensures NonDecreasing(r) && forall x :: x in r <==> x in s || x == a
  {
    if s == [] || a <= s[0] then [a] + s
    else
      assert s == [s[0]] + s[1..];
      var r := Insert(a, s[1..]);
      HeadLeast(s);
      HeadFirst(s[0], r);
      [s[0]] + r
  }

  function Sort(s: seq<Addr>): (r: seq<Addr>)
    ensures NonDecreasing(r) && forall x :: x in r <==> x in s
  {
    if s == [] then []
    else
      assert s == [s[0]] + s[1..];
      Insert(s[0], Sort(s[1..]))
  }

  /** The loop of `Of`: keys equal to their predecessor are skipped. */
  function Distinct(s: seq<Addr>): (r: seq<Addr>)
    requires NonDecreasing(s)
    ensures Increasing(r) && forall x :: x in r <==> x in s
    ensures s != [] ==> r != [] && r[|r| - 1] == s[|s| - 1]
  {
    if s == [] then []
    else
      var n := |s| - 1;
      var r := Distinct(s[..n]);
      assert s == s[..n] + [s[n]];
      if n > 0 && s[n] == s[n - 1] then r else r + [s[n]]
  }

  /** The increasing list of the input's set, whatever its order and repetitions. */
  function Canonical(addrs: seq<Addr>): (keys: seq<Addr>)
    ensures Increasing(keys) && Members(keys) == Members(addrs)
  {
    Distinct(Sort(addrs))
  }

  /** `sum` is the (truncated, hex-encoded) SHA-256. */
  function Fingerprint(sum: seq<nat> -> string, addrs: seq<Addr>): string {
    sum(Flatten(Canonical(addrs), WIDTH))
  }

  method Of(sum: seq<nat> -> string, addrs: seq<Addr>) returns (hash: string)
    ensures hash == Fingerprint(sum, addrs)
  {
    var sorted := Sort(addrs);
    var stream := [];
    var prev := 0;
    for i := 0 to |sorted|
      invariant stream == Flatten(Distinct(sorted[..i]), WIDTH)
      invariant i > 0 ==> prev == sorted[i - 1]
    {
      var k := sorted[i];
      assert sorted[..i + 1][..i] == sorted[..i];
      if i > 0 && k == prev {
        continue;
      }
      FlattenSnoc(Distinct(sorted[..i]), k, WIDTH);
      stream := stream + Bytes(k, WIDTH);
      prev := k;
    }
    assert sorted[..|sorted|] == sorted;
    return sum(stream);
  }

  lemma FingerprintOfSet(sum: seq<nat> -> string, s: seq<Addr>, t: seq<Addr>)
    requires Members(s) == Members(t)
    ensures Fingerprint(sum, s) == Fingerprint(sum, t)
  {
    IncreasingUnique(Canonical(s), Canonical(t));
  }

  lemma FlattenSnoc(s: seq<Addr>, k: Addr, w: nat)
    ensures Flatten(s + [k], w) == Flatten(s, w) + Bytes(k, w)
  {
    assert (s + [k])[..|s|] == s;
  }

  /** Two streams agree exactly when the sets do. */
  lemma StreamsEqualIff(s: seq<Addr>, t: seq<Addr>, w: nat)
    requires w > 0 && Fit(s, w) && Fit(t, w)
    ensures Flatten(Canonical(s), w) == Flatten(Canonical(t), w) <==> Members(s) == Members(t)
  {
    var x, y := Canonical(s), Canonical(t);
    CanonicalFits(s, w);
    CanonicalFits(t, w);
    if Flatten(x, w) == Flatten(y, w) {
      FlattenInjective(x, y, w);
    }
    if Members(x) == Members(y) {
      IncreasingUnique(x, y);
    }
  }

  lemma CanonicalFits(addrs: seq<Addr>, w: nat)
    requires Fit(addrs, w)
    ensures Fit(Canonical(addrs), w)
  {
    var keys := Canonical(addrs);
    forall i | 0 <= i < |keys|
      ensures keys[i] < Pow256(w)
    {
      assert keys[i] in Members(keys);
    }
  }

  // --- the heartbeat's verdict ---------------------------------------------------

  /** What a node reports: its cursor, and the size and fingerprint of its live
      set, absent when it could not read the set. */
  datatype Report = Unread(rev: nat) | SizeOnly(rev: nat, size: nat) | Hashed(rev: nat, size: nat, hash: string)

  /** The backend's own view at one snapshot. */
  datatype Status = Status(rev: nat, count: nat, hash: string)

  function Resync(req: Report, st: Status): bool {
    req.rev == st.rev &&
    match req
    case Hashed(_, _, hash) => hash != st.hash
    case SizeOnly(_, size) => size != st.count
    case Unread(_) => false
  }

  /** Two streams that the hash does not confuse. */
  predicate NoCollision(sum: seq<nat> -> string, x: seq<nat>, y: seq<nat>) {
    sum(x) == sum(y) ==> x == y
  }

  /** At an equal revision the heartbeat asks for a resync exactly when the node's
      live set differs from the backend's. The hash is of the addresses as 16 bytes. */
  lemma DriftExact(sum: seq<nat> -> string, live: seq<Addr>, current: seq<Addr>, req: Report, st: Status)
    requires Fit(live, 16) && Fit(current, 16)
    requires NoCollision(sum, Flatten(Canonical(live), 16), Flatten(Canonical(current), 16))
    requires req.Hashed? && req.rev == st.rev
    requires req.hash == Fingerprint(sum, live) && st.hash == Fingerprint(sum, current)
    ensures Resync(req, st) <==> Members(live) != Members(current)
  {
    StreamsEqualIff(live, current, 16);
  }

  /** A node that sends no hash is asked exactly when the sizes differ: never when the
      sets agree, and not for a drift that keeps the size. */
  lemma DriftBySize(live: set<Addr>, current: set<Addr>, req: Report, st: Status)
    requires req.SizeOnly? && req.rev == st.rev && req.size == |live| && st.count == |current|
    ensures Resync(req, st) ==> live != current
    ensures !Resync(req, st) <==> |live| == |current|
  {
  }

  /** Nothing is asked of a node that is at another revision or could not read its set:
      at another revision its next pull brings the difference. */
  lemma NoDriftVerdict(req: Report, st: Status)
    requires req.rev != st.rev || req.Unread?
    ensures !Resync(req, st)
  {
  }
}
