/** The Bech32 checksum (BIP-173, "Checksum") over 32-bit words written as bit
    strings, most significant bit first. Everything is stated for arbitrary
    generator words; only `Bech32Generators` fixes the ones Bech32 uses. */
module Checksum {
  import opened Bits

  type Word = w: seq<bool> | |w| == 32 witness Zeros(32)
  type Generators = g: seq<Word> | |g| == 5 witness seq(5, i => Zeros(32))

  const ZERO: Word := Zeros(32)
  const ONE: Word := Zeros(31) + [true]

  const GEN: seq<nat> := [0x3b6a57b2, 0x26508e6d, 0x1ea119fa, 0x3d4233dd, 0x2a1462b3]

  function Bech32Generators(): (g: Generators) {
    seq(5, i requires 0 <= i < 5 => ToBits(GEN[i], 32))
  }

  function Xor(a: Word, b: Word): (c: Word) {
    seq(32, i requires 0 <= i < 32 => a[i] != b[i])
  }

  /** `uint32(v)` for a byte `v`. */
  function Of(v: nat): (w: Word) { Zeros(24) + ToBits(v, 8) }

  /** `(b>>i) & 1` for `b = chk>>25`. */
  predicate Tap(chk: Word, i: nat)
    requires i < 5
  {
    chk[6 - i]
  }

  /** The generators selected by the top bits of `chk`, from number `i` on. */
  function Taps(g: Generators, chk: Word, i: nat): (w: Word)
    requires i <= 5
    decreases 5 - i
  {
    if i == 5 then ZERO
    else Xor(if Tap(chk, i) then g[i] else ZERO, Taps(g, chk, i + 1))
  }

  /** `(chk & 0x1ffffff) << 5`. */
  function Shift(chk: Word): (w: Word) { Zeros(2) + chk[7..] + Zeros(5) }

  /** One round of the checksum. */
  function Step(g: Generators, chk: Word, v: nat): (w: Word) {
    Xor(Xor(Shift(chk), Of(v)), Taps(g, chk, 0))
  }

  function Fold(g: Generators, chk: Word, values: seq<nat>): (w: Word)
    decreases |values|
  {
    if values == [] then chk
    else Step(g, Fold(g, chk, values[..|values| - 1]), values[|values| - 1])
  }

  method Polymod(g: Generators, values: seq<nat>) returns (chk: Word)
    ensures chk == Fold(g, ONE, values)
  {
    chk := ONE;
    var n := 0;
    while n < |values|
      invariant 0 <= n <= |values|
      invariant chk == Fold(g, ONE, values[..n])
    {
      assert values[..n + 1][..n] == values[..n];
      chk := PolymodRound(g, chk, values[n]);
      n := n + 1;
    }
    assert values[..n] == values;
  }

  method PolymodRound(g: Generators, prev: Word, v: nat) returns (chk: Word)
    ensures chk == Step(g, prev, v)
  {
    chk := Xor(Shift(prev), Of(v));
    ghost var goal := Step(g, prev, v);
    var i := 0;
    while i < 5
      invariant 0 <= i <= 5
      invariant goal == Xor(chk, Taps(g, prev, i))
    {
      if Tap(prev, i) {
        XorAssoc(chk, g[i], Taps(g, prev, i + 1));
        chk := Xor(chk, g[i]);
      } else {
        XorZero(Taps(g, prev, i + 1));
      }
      i := i + 1;
    }
    XorZero(chk);
  }

  // --- exclusive or -----------------------------------------------------------

  lemma XorZero(a: Word)
    ensures Xor(a, ZERO) == a && Xor(ZERO, a) == a
  {
  }

  lemma XorAssoc(a: Word, b: Word, c: Word)
    ensures Xor(Xor(a, b), c) == Xor(a, Xor(b, c))
  {
  }

  lemma XorSwap(a: Word, b: Word, c: Word, d: Word)
    ensures Xor(Xor(a, b), Xor(c, d)) == Xor(Xor(a, c), Xor(b, d))
  {
  }

  lemma XorSolve(a: Word, b: Word, c: Word)
    ensures Xor(a, b) == c <==> b == Xor(a, c)
  {
    assert Xor(a, Xor(a, c)) == c;
    assert Xor(a, Xor(a, b)) == b;
  }

  // --- linearity --------------------------------------------------------------

  lemma TapLinear(a: Word, b: Word, i: nat, w: Word)
    requires i < 5
    ensures (if Tap(Xor(a, b), i) then w else ZERO)
         == Xor(if Tap(a, i) then w else ZERO, if Tap(b, i) then w else ZERO)
  {
  }

  lemma {:induction false} TapsLinear(g: Generators, a: Word, b: Word, i: nat)
    requires i <= 5
    ensures Taps(g, Xor(a, b), i) == Xor(Taps(g, a, i), Taps(g, b, i))
    decreases 5 - i
  {
    if i == 5 {
      XorZero(ZERO);
    } else {
      TapsLinear(g, a, b, i + 1);
      TapLinear(a, b, i, g[i]);
      XorSwap(if Tap(a, i) then g[i] else ZERO, Taps(g, a, i + 1),
              if Tap(b, i) then g[i] else ZERO, Taps(g, b, i + 1));
    }
  }

  lemma ShiftLinear(a: Word, b: Word)
    ensures Shift(Xor(a, b)) == Xor(Shift(a), Shift(b))
  {
  }

  lemma OfZero()
    ensures Of(0) == ZERO
  {
    ZeroBits(8);
  }

  lemma StepLinear(g: Generators, a: Word, b: Word, v: nat)
    ensures Step(g, Xor(a, b), v) == Xor(Step(g, a, 0), Step(g, b, v))
  {
    var x, y, u := Shift(a), Shift(b), Of(v);
    var s, t := Taps(g, a, 0), Taps(g, b, 0);
    TapsLinear(g, a, b, 0);
    ShiftLinear(a, b);
    OfZero();
    XorZero(x);
    XorAssoc(x, y, u);
    XorSwap(x, Xor(y, u), s, t);
  }

  lemma FoldSnoc(g: Generators, chk: Word, init: seq<nat>, v: nat)
    ensures Fold(g, chk, init + [v]) == Step(g, Fold(g, chk, init), v)
  {
    assert (init + [v])[..|init|] == init;
  }

  lemma {:induction false} FoldAppend(g: Generators, chk: Word, a: seq<nat>, b: seq<nat>)
    ensures Fold(g, chk, a + b) == Fold(g, Fold(g, chk, a), b)
    decreases |b|
  {
    if b == [] {
      assert a + b == a;
    } else {
      var n := |b| - 1;
      assert a + b == (a + b[..n]) + [b[n]];
      FoldSnoc(g, chk, a + b[..n], b[n]);
      FoldAppend(g, chk, a, b[..n]);
    }
  }

  function Blank(n: nat): (z: seq<nat>)
    ensures |z| == n
  {
    seq(n, i => 0)
  }

  lemma FoldBlank(g: Generators, chk: Word, n: nat)
    ensures Fold(g, chk, Blank(n + 1)) == Step(g, Fold(g, chk, Blank(n)), 0)
  {
    assert Blank(n + 1) == Blank(n) + [0];
    FoldSnoc(g, chk, Blank(n), 0);
  }

  /** Folding a message from `a xor b` is folding a blank of the same length
      from `a`, exclusive-or the message folded from `b`. */
  lemma {:induction false} FoldLinear(g: Generators, a: Word, b: Word, values: seq<nat>)
    ensures Fold(g, Xor(a, b), values) == Xor(Fold(g, a, Blank(|values|)), Fold(g, b, values))
    decreases |values|
  {
    if values != [] {
      var n := |values| - 1;
      var init, v := values[..n], values[n];
      FoldLinear(g, a, b, init);
      StepLinear(g, Fold(g, a, Blank(n)), Fold(g, b, init), v);
      FoldBlank(g, a, n);
    }
  }

  // --- six symbols fit the word exactly -----------------------------------------

  lemma SymbolBits(v: nat)
    requires v < 32
    ensures Of(v) == Zeros(27) + ToBits(v, 5)
  {
    SplitBits(v, 3, 5);
    ShiftBelow(v, 5);
    ZeroBits(3);
  }

  lemma {:induction false} ShiftBelow(x: nat, b: nat)
    requires x < Pow2(b)
    ensures ShiftRight(x, b) == 0
  {
    if b > 0 {
      ShiftBelow(x / 2, b - 1);
    }
  }

  lemma {:induction false} NoTaps(g: Generators, chk: Word, i: nat)
    requires i <= 5 && forall j :: 0 <= j < 7 ==> !chk[j]
    ensures Taps(g, chk, i) == ZERO
    decreases 5 - i
  {
    if i < 5 {
      NoTaps(g, chk, i + 1);
      XorZero(ZERO);
    }
  }

  /** No tap is open while the top seven bits are clear, so symbols line up. */
  lemma ShiftIn(g: Generators, chk: Word, v: nat, k: nat, s: seq<bool>)
    requires v < 32 && k <= 25 && |s| == k && chk == Zeros(32 - k) + s
    ensures Step(g, chk, v) == Zeros(27 - k) + (s + ToBits(v, 5))
  {
    SymbolBits(v);
    NoTaps(g, chk, 0);
    assert Shift(chk) == Zeros(27 - k) + s + Zeros(5);
    XorZero(Xor(Shift(chk), Of(v)));
  }

  lemma {:induction false} FoldFromZero(g: Generators, syms: seq<nat>)
    requires |syms| <= 6 && Fits(syms, 5)
    ensures |Spread(syms, 5)| == 5 * |syms|
    ensures Fold(g, ZERO, syms) == Zeros(32 - 5 * |syms|) + Spread(syms, 5)
  {
    SpreadLength(syms, 5);
    if syms != [] {
      var n := |syms| - 1;
      var init, v := syms[..n], syms[n];
      assert syms == init + [v];
      FitsSnoc(init, v, 5);
      FoldFromZero(g, init);
      SpreadSnoc(init, v, 5);
      ShiftIn(g, Fold(g, ZERO, init), v, 5 * n, Spread(init, 5));
    }
  }

  /** The checksum register never leaves its low 30 bits. */
  predicate Narrow(w: Word) { !w[0] && !w[1] }

  predicate AllNarrow(g: Generators) { forall i :: 0 <= i < 5 ==> Narrow(g[i]) }

  lemma {:induction false} TapsNarrow(g: Generators, chk: Word, i: nat)
    requires i <= 5 && AllNarrow(g)
    ensures Narrow(Taps(g, chk, i))
    decreases 5 - i
  {
    if i < 5 {
      TapsNarrow(g, chk, i + 1);
    }
  }

  lemma StepNarrow(g: Generators, chk: Word, v: nat)
    requires AllNarrow(g)
    ensures Narrow(Step(g, chk, v))
  {
    TapsNarrow(g, chk, 0);
  }

  lemma FoldNarrow(g: Generators, chk: Word, values: seq<nat>)
    requires AllNarrow(g) && Narrow(chk)
    ensures Narrow(Fold(g, chk, values))
  {
    if values != [] {
      StepNarrow(g, Fold(g, chk, values[..|values| - 1]), values[|values| - 1]);
    }
  }

  lemma NarrowBits(x: nat)
    requires x < 0x4000_0000
    ensures Narrow(ToBits(x, 32))
  {
    assert Pow2(5) == 32 && Pow2(10) == 32 * Pow2(5) && Pow2(15) == 32 * Pow2(10);
    assert Pow2(20) == 32 * Pow2(15) && Pow2(25) == 32 * Pow2(20) && Pow2(30) == 32 * Pow2(25);
    SplitBits(x, 2, 30);
    ShiftBelow(x, 30);
    ZeroBits(2);
  }

  lemma GeneratorsNarrow()
    ensures AllNarrow(Bech32Generators())
  {
    forall i | 0 <= i < 5
      ensures Narrow(Bech32Generators()[i])
    {
      NarrowBits(GEN[i]);
    }
  }

  /** `polymod(values ++ six zeros) ^ 1`, for a message folded to `chk`. */
  function Residue(g: Generators, chk: Word): (w: Word) {
    Xor(Fold(g, chk, Blank(6)), ONE)
  }

  /** The six symbols that close a message folded to `chk`. */
  function Closing(g: Generators, chk: Word): (syms: seq<nat>) {
    Group(Residue(g, chk)[2..], 5)
  }

  lemma ClosingShape(g: Generators, chk: Word)
    ensures |Closing(g, chk)| == 6 && Fits(Closing(g, chk), 5)
    ensures Spread(Closing(g, chk), 5) == Residue(g, chk)[2..]
  {
    var b := Residue(g, chk)[2..];
    SpreadGroup(b, 5);
    SpreadLength(Group(b, 5), 5);
  }

  /** Exactly one choice of six symbols makes the checksum come out as one. */
  lemma ClosingUnique(g: Generators, chk: Word, syms: seq<nat>)
    requires AllNarrow(g) && Narrow(chk) && |syms| == 6 && Fits(syms, 5)
    ensures Fold(g, chk, syms) == ONE <==> syms == Closing(g, chk)
  {
    var blank, packed := Fold(g, chk, Blank(6)), Fold(g, ZERO, syms);
    assert Fold(g, chk, syms) == Xor(blank, packed) by {
      XorZero(chk);
      FoldLinear(g, chk, ZERO, syms);
    }
    XorSolve(blank, packed, ONE);
    FoldNarrow(g, chk, Blank(6));
    FoldFromZero(g, syms);
    PackedEquals(syms, Residue(g, chk));
  }

  lemma PackedEquals(syms: seq<nat>, want: Word)
    requires |syms| == 6 && Fits(syms, 5) && Narrow(want)
    ensures |Spread(syms, 5)| == 30
    ensures Zeros(2) + Spread(syms, 5) == want <==> syms == Group(want[2..], 5)
  {
    var s, b := Spread(syms, 5), want[2..];
    SpreadLength(syms, 5);
    GroupSpread(syms, [], 5);
    assert s + [] == s;
    SpreadGroup(b, 5);
    SpreadLength(Group(b, 5), 5);
    assert (Zeros(2) + s)[2..] == s;
    assert want == Zeros(2) + b;
  }
}
