/** Big-endian bit strings: the reference meaning of the regrouping and checksum
    loops in pkg/fipsaddr/npub.go. */
module Bits {

  function Pow2(n: nat): (p: nat)
    ensures p >= 1
  {
    if n == 0 then 1 else 2 * Pow2(n - 1)
  }

  function Zeros(n: nat): (b: seq<bool>)
    ensures |b| == n && forall i :: 0 <= i < n ==> !b[i]
  {
    seq(n, i => false)
  }

  /** The low `w` bits of `x`, most significant first. */
  function ToBits(x: nat, w: nat): (b: seq<bool>)
    ensures |b| == w
  {
    if w == 0 then [] else ToBits(x / 2, w - 1) + [x % 2 == 1]
  }

  function FromBits(b: seq<bool>): (x: nat)
    ensures x < Pow2(|b|)
  {
    if b == [] then 0 else 2 * FromBits(b[..|b| - 1]) + (if b[|b| - 1] then 1 else 0)
  }

  predicate Fits(data: seq<nat>, w: nat) {
    forall i :: 0 <= i < |data| ==> data[i] < Pow2(w)
  }

  lemma FitsSnoc(data: seq<nat>, v: nat, w: nat)
    ensures Fits(data + [v], w) <==> Fits(data, w) && v < Pow2(w)
  {
    var s := data + [v];
    assert s[|data|] == v;
    assert forall i :: 0 <= i < |data| ==> s[i] == data[i];
  }

  /** The bits of a sequence of `w`-bit groups, concatenated. */
  function Spread(data: seq<nat>, w: nat): (b: seq<bool>)
  {
    if data == [] then [] else ToBits(data[0], w) + Spread(data[1..], w)
  }

  /** The complete `w`-bit groups at the front of `b`. */
  function Group(b: seq<bool>, w: nat): (data: seq<nat>)
    requires w > 0
  {
    if |b| < w then [] else [FromBits(b[..w])] + Group(b[w..], w)
  }

  /** What `Group` leaves over. */
  function Rest(b: seq<bool>, w: nat): (t: seq<bool>)
    requires w > 0
    ensures |t| < w
  {
    if |b| < w then b else Rest(b[w..], w)
  }

  lemma {:induction false} FromToBits(x: nat, w: nat)
    requires x < Pow2(w)
    ensures FromBits(ToBits(x, w)) == x
  {
    if w > 0 {
      FromToBits(x / 2, w - 1);
      assert ToBits(x, w)[..w - 1] == ToBits(x / 2, w - 1);
    }
  }

  lemma {:induction false} ToFromBits(b: seq<bool>)
    ensures ToBits(FromBits(b), |b|) == b
  {
    if b != [] {
      ToFromBits(b[..|b| - 1]);
    }
  }

  /** `x >> b`. */
  function ShiftRight(x: nat, b: nat): nat {
    if b == 0 then x else ShiftRight(x / 2, b - 1)
  }

  /** `x << b`, before any truncation. */
  function ShiftLeft(x: nat, b: nat): nat {
    if b == 0 then x else 2 * ShiftLeft(x, b - 1)
  }

  /** `x & (2^w - 1)`. */
  function Mask(x: nat, w: nat): (y: nat)
    ensures y < Pow2(w)
  {
    if w == 0 then 0 else 2 * Mask(x / 2, w - 1) + x % 2
  }

  lemma {:induction false} SplitBits(x: nat, a: nat, b: nat)
    ensures ToBits(x, a + b) == ToBits(ShiftRight(x, b), a) + ToBits(x, b)
  {
    if b > 0 {
      SplitBits(x / 2, a, b - 1);
    }
  }

  /** Shifting left by `k` and adding a `k`-bit value appends its bits. */
  lemma {:induction false} JoinBits(x: nat, v: nat, w: nat, k: nat)
    requires v < Pow2(k)
    ensures ToBits(ShiftLeft(x, k) + v, w + k) == ToBits(x, w) + ToBits(v, k)
  {
    if k > 0 {
      JoinBits(x, v / 2, w, k - 1);
      assert (ShiftLeft(x, k) + v) / 2 == ShiftLeft(x, k - 1) + v / 2;
    }
  }

  /** Truncating to `m` bits keeps every lower bit. */
  lemma {:induction false} TruncateBits(x: nat, m: nat, w: nat)
    requires w <= m
    ensures ToBits(Mask(x, m), w) == ToBits(x, w)
  {
    if w > 0 {
      TruncateBits(x / 2, m - 1, w - 1);
    }
  }

  lemma {:induction false} ZeroBits(w: nat)
    ensures ToBits(0, w) == Zeros(w)
    ensures FromBits(Zeros(w)) == 0
  {
    if w > 0 {
      ZeroBits(w - 1);
      assert Zeros(w)[..w - 1] == Zeros(w - 1);
    }
  }

  lemma {:induction false} SpreadAppend(a: seq<nat>, b: seq<nat>, w: nat)
    ensures Spread(a + b, w) == Spread(a, w) + Spread(b, w)
  {
    if a == [] {
      assert a + b == b;
    } else {
      assert (a + b)[1..] == a[1..] + b;
      SpreadAppend(a[1..], b, w);
    }
  }

  lemma SpreadSnoc(data: seq<nat>, v: nat, w: nat)
    ensures Spread(data + [v], w) == Spread(data, w) + ToBits(v, w)
  {
    SpreadAppend(data, [v], w);
    assert Spread([v], w) == ToBits(v, w) + Spread([], w);
  }

  lemma {:induction false} SpreadLength(data: seq<nat>, w: nat)
    ensures |Spread(data, w)| == |data| * w
  {
    if data != [] {
      SpreadLength(data[1..], w);
    }
  }

  /** Grouping undoes spreading, and what follows the groups is left over. */
  lemma {:induction false} GroupSpread(data: seq<nat>, t: seq<bool>, w: nat)
    requires w > 0 && |t| < w
    requires Fits(data, w)
    ensures Group(Spread(data, w) + t, w) == data
    ensures Rest(Spread(data, w) + t, w) == t
  {
    var b := Spread(data, w) + t;
    if data == [] {
      assert b == t;
    } else {
      FromToBits(data[0], w);
      assert b[..w] == ToBits(data[0], w);
      assert b[w..] == Spread(data[1..], w) + t;
      GroupSpread(data[1..], t, w);
    }
  }

  /** Spreading undoes grouping. */
  lemma {:induction false} SpreadGroup(b: seq<bool>, w: nat)
    requires w > 0
    ensures b == Spread(Group(b, w), w) + Rest(b, w)
    ensures Fits(Group(b, w), w)
  {
    if |b| >= w {
      ToFromBits(b[..w]);
      SpreadGroup(b[w..], w);
      assert b == b[..w] + b[w..];
    }
  }
}
