/** The checksum as the code BIP-173 names: long division over GF(32) by the
    generator polynomial x^6 + 29x^5 + 22x^4 + 20x^3 + 21x^2 + 29x + 18
    (pkg/fipsaddr/npub.go). */
module Gf32 {
  import opened Bits
  import C = Checksum

  // --- the field: polynomials over GF(2) modulo x^5 + x^3 + 1 -------------------------

  /** Coefficients of x^4 down to 1. */
  type F = f: seq<bool> | |f| == 5 witness Zeros(5)

  const NIL: F := [false, false, false, false, false]

  /** The element written as a number below 32. */
  function Fe(v: nat): F { [v / 16 % 2 == 1, v / 8 % 2 == 1, v / 4 % 2 == 1, v / 2 % 2 == 1, v % 2 == 1] }

  function Add(a: F, b: F): F { [a[0] != b[0], a[1] != b[1], a[2] != b[2], a[3] != b[3], a[4] != b[4]] }

  /** Multiplication by x: what leaves at the top comes back as x^3 + 1. */
  function Double(a: F): F { [a[1], a[2] != a[0], a[3], a[4], a[0]] }

  function If(c: bool, b: F): F { if c then b else NIL }

  /** One step of Horner's rule: the coefficient times `b`, and x times what came so far. */
  function Horner(c: bool, b: F, t: F): F { Add(If(c, b), Double(t)) }

  /** The coefficient of x^i. */
  predicate Coeff(a: F, i: nat)
    requires i < 5
  {
    a[4 - i]
  }

  function MulFrom(a: F, b: F, i: nat): F
    requires i <= 5
    decreases 5 - i
  {
    if i == 5 then NIL else Horner(Coeff(a, i), b, MulFrom(a, b, i + 1))
  }

  function Mul(a: F, b: F): F { MulFrom(a, b, 0) }

  lemma Swap(a: F, b: F, t: F, u: F)
    ensures Add(Add(a, b), Add(t, u)) == Add(Add(a, t), Add(b, u))
  {
  }

  lemma AddNil(a: F)
    ensures Add(a, NIL) == a && Add(NIL, a) == a && Add(a, a) == NIL
  {
  }

  lemma DoubleAdds(t: F, u: F)
    ensures Double(Add(t, u)) == Add(Double(t), Double(u))
  {
  }

  lemma IfAdds(c: bool, d: bool, b: F)
    ensures If(c != d, b) == Add(If(c, b), If(d, b))
  {
    AddNil(b);
    AddNil(NIL);
  }

  lemma HornerAdds(c: bool, d: bool, b: F, t: F, u: F)
    ensures Horner(c != d, b, Add(t, u)) == Add(Horner(c, b, t), Horner(d, b, u))
  {
    IfAdds(c, d, b);
    DoubleAdds(t, u);
    Swap(If(c, b), If(d, b), Double(t), Double(u));
  }

  lemma {:induction false} AddsMul(a: F, b: F, c: F, i: nat)
    requires i <= 5
    ensures MulFrom(Add(a, b), c, i) == Add(MulFrom(a, c, i), MulFrom(b, c, i))
    decreases 5 - i
  {
    if i == 5 {
      AddNil(NIL);
    } else {
      AddsMul(a, b, c, i + 1);
      AddsStep(a, b, c, i, MulFrom(a, c, i + 1), MulFrom(b, c, i + 1));
    }
  }

  lemma AddsStep(a: F, b: F, c: F, i: nat, t: F, u: F)
    requires i < 5
    ensures Horner(Coeff(Add(a, b), i), c, Add(t, u)) == Add(Horner(Coeff(a, i), c, t), Horner(Coeff(b, i), c, u))
  {
    assert Coeff(Add(a, b), i) == (Coeff(a, i) != Coeff(b, i));
    HornerAdds(Coeff(a, i), Coeff(b, i), c, t, u);
  }

  lemma HornerLinear(c: bool, b: F, d: F, t: F, u: F)
    ensures Horner(c, Add(b, d), Add(t, u)) == Add(Horner(c, b, t), Horner(c, d, u))
  {
    DoubleAdds(t, u);
    Swap(If(c, b), If(c, d), Double(t), Double(u));
    AddNil(NIL);
  }

  lemma {:induction false} MulAdds(a: F, b: F, c: F, i: nat)
    requires i <= 5
    ensures MulFrom(a, Add(b, c), i) == Add(MulFrom(a, b, i), MulFrom(a, c, i))
    decreases 5 - i
  {
    if i == 5 {
      AddNil(NIL);
    } else {
      MulAdds(a, b, c, i + 1);
      HornerLinear(Coeff(a, i), b, c, MulFrom(a, b, i + 1), MulFrom(a, c, i + 1));
    }
  }

  lemma {:induction false} MulNothing(c: F, i: nat)
    requires i <= 5
    ensures MulFrom(NIL, c, i) == NIL
    decreases 5 - i
  {
    if i < 5 {
      MulNothing(c, i + 1);
      assert Double(NIL) == NIL;
      AddNil(NIL);
    }
  }

  lemma Associate(a: F, b: F, c: F)
    ensures Add(a, Add(b, c)) == Add(Add(a, b), c)
  {
  }

  lemma FiveTimes(e: F)
    ensures Double(Double(Double(Double(Double(e))))) == Add(Double(Double(Double(e))), e)
  {
    var e2 := Double(Double(e));
    assert e2 == [e[2] != e[0], e[3] != e[1], e[4], e[0], e[1]];
    var e3 := Double(e2);
    assert e3 == [e[3] != e[1], e[4] != (e[2] != e[0]), e[0], e[1], e[2] != e[0]];
  }

  /** An extra summand passes through a step. */
  lemma HornerExtra(c: bool, b: F, t: F, u: F)
    ensures Horner(c, b, Add(t, u)) == Add(Horner(c, b, t), Double(u))
  {
    DoubleAdds(t, u);
    Associate(If(c, b), Double(t), Double(u));
  }

  /** The partial products of x times `a`, against those of `a`. */
  lemma DoubleFrom(a: F, c: F)
    ensures var d, m, e := Double(a), (i: nat) requires i <= 5 => MulFrom(a, c, i), MulFrom(a, c, 4);
            && MulFrom(d, c, 4) == Add(m(3), Double(e))
            && MulFrom(d, c, 3) == Add(m(2), Add(e, Double(Double(e))))
  {
    var d, m3, e := Double(a), MulFrom(a, c, 3), MulFrom(a, c, 4);
    TopIsIf(a, c);
    TopIsIf(d, c);
    assert MulFrom(d, c, 4) == Add(m3, Double(e)) by {
      Undo(If(Coeff(a, 3), c), Double(e));
    }
    HornerAdds(Coeff(a, 2), Coeff(a, 4), c, m3, Double(e));
    assert Coeff(d, 3) == (Coeff(a, 2) != Coeff(a, 4));
  }

  /** Multiplying by x first or last is the same: x^5 is x^3 + 1. */
  lemma DoubleMul(a: F, c: F)
    ensures Mul(Double(a), c) == Double(Mul(a, c))
  {
    var d := Double(a);
    var m1, m2, e := MulFrom(a, c, 1), MulFrom(a, c, 2), MulFrom(a, c, 4);
    var e1, e2, e3, e4 := Double(e), Double(Double(e)), Double(Double(Double(e))), Double(Double(Double(Double(e))));
    DoubleFrom(a, c);
    assert MulFrom(d, c, 2) == Add(m1, Add(e1, e3)) by {
      HornerExtra(Coeff(a, 1), c, m2, Add(e, e2));
      DoubleAdds(e, e2);
    }
    assert MulFrom(d, c, 1) == Add(Mul(a, c), Add(e2, e4)) by {
      HornerExtra(Coeff(a, 0), c, m1, Add(e1, e3));
      DoubleAdds(e1, e3);
    }
    assert e == If(Coeff(d, 0), c) by {
      TopIsIf(a, c);
    }
    HornerExtra(Coeff(a, 4), c, Mul(a, c), Add(e2, e4));
    DoubleAdds(e2, e4);
    FiveTimes(e);
    Closes(e, Double(Mul(a, c)), e3);
  }

  lemma TopIsIf(a: F, c: F)
    ensures MulFrom(a, c, 4) == If(Coeff(a, 4), c)
  {
    assert MulFrom(a, c, 5) == NIL && Double(NIL) == NIL;
    AddNil(If(Coeff(a, 4), c));
  }

  lemma Undo(t: F, u: F)
    ensures t == Add(Add(t, u), u)
  {
  }

  lemma Closes(e: F, m: F, e3: F)
    ensures Add(Add(e, m), Add(e3, Add(e3, e))) == m
  {
  }

  lemma HornerMul(c: bool, b: F, t: F, d: F)
    ensures Mul(Horner(c, b, t), d) == Horner(c, Mul(b, d), Mul(t, d))
  {
    AddsMul(If(c, b), Double(t), d, 0);
    DoubleMul(t, d);
    MulNothing(d, 0);
  }

  lemma {:induction false} MulAssociates(a: F, b: F, c: F, i: nat)
    requires i <= 5
    ensures Mul(MulFrom(a, b, i), c) == MulFrom(a, Mul(b, c), i)
    decreases 5 - i
  {
    if i == 5 {
      MulNothing(c, 0);
    } else {
      MulAssociates(a, b, c, i + 1);
      HornerMul(Coeff(a, i), b, MulFrom(a, b, i + 1), c);
    }
  }

  // --- the code -----------------------------------------------------------------------------

  /** A remainder, highest coefficient first. */
  type Reg = r: seq<F> | |r| == 6 witness [NIL, NIL, NIL, NIL, NIL, NIL]

  const NONE: Reg := [NIL, NIL, NIL, NIL, NIL, NIL]

  function AddReg(r: Reg, t: Reg): Reg { seq(6, i requires 0 <= i < 6 => Add(r[i], t[i])) }

  function Scale(a: F, r: Reg): Reg { seq(6, i requires 0 <= i < 6 => Mul(a, r[i])) }

  /** The generator polynomial below its leading x^6. */
  function Generator(): Reg { [Fe(29), Fe(22), Fe(20), Fe(21), Fe(29), Fe(18)] }

  /** Long division, one symbol: bring the next one down and take off the leading
      coefficient's multiple of the generator. */
  function Divide(r: Reg, v: F): Reg { AddReg(r[1..] + [v], Scale(r[0], Generator())) }

  function Remainder(r: Reg, values: seq<nat>): Reg {
    if values == [] then r else Divide(Remainder(r, values[..|values| - 1]), Fe(values[|values| - 1]))
  }

  // --- words as remainders --------------------------------------------------------------------

  function Sym(w: C.Word, i: nat): F
    requires i < 6
  {
    w[5 * i + 2..5 * i + 7]
  }

  function RegOf(w: C.Word): Reg { seq(6, i requires 0 <= i < 6 => Sym(w, i)) }

  lemma SymXor(a: C.Word, b: C.Word, i: nat)
    requires i < 6
    ensures Sym(C.Xor(a, b), i) == Add(Sym(a, i), Sym(b, i))
  {
  }

  lemma RegXor(a: C.Word, b: C.Word)
    ensures RegOf(C.Xor(a, b)) == AddReg(RegOf(a), RegOf(b))
  {
    forall i | 0 <= i < 6
      ensures RegOf(C.Xor(a, b))[i] == AddReg(RegOf(a), RegOf(b))[i]
    {
      SymXor(a, b, i);
    }
  }

  lemma RegZero()
    ensures RegOf(C.ZERO) == NONE
  {
    assert forall i :: 0 <= i < 6 ==> Sym(C.ZERO, i) == NIL;
  }

  lemma RegShift(w: C.Word)
    ensures RegOf(C.Shift(w)) == RegOf(w)[1..] + [NIL]
  {
    var t := C.Shift(w);
    assert forall j :: 2 <= j < 27 ==> t[j] == w[j + 5];
    assert forall j :: 27 <= j < 32 ==> !t[j];
    forall i | 0 <= i < 6
      ensures RegOf(t)[i] == (RegOf(w)[1..] + [NIL])[i]
    {
      if i < 5 {
        assert Sym(t, i) == Sym(w, i + 1);
      } else {
        assert Sym(t, 5) == NIL;
      }
    }
  }

  lemma FiveBits(v: nat)
    ensures ToBits(v, 5) == Fe(v)
  {
    Quarters(v);
    TwoBits(v, 3);
    TwoBits(v / 4, 1);
    assert ToBits(v / 16, 1) == [] + [v / 16 % 2 == 1];
  }

  lemma Quarters(v: nat)
    ensures v / 4 / 4 == v / 16 && v / 4 / 2 == v / 8
  {
    var q, r := v / 4, v % 4;
    var s, t := q / 4, q % 4;
    assert v == 16 * s + (4 * t + r) && 4 * t + r < 16;
  }

  lemma TwoBits(v: nat, n: nat)
    ensures ToBits(v, n + 2) == ToBits(v / 4, n) + [v / 2 % 2 == 1, v % 2 == 1]
  {
    assert v / 2 / 2 == v / 4;
    assert ToBits(v, n + 2) == ToBits(v / 2, n + 1) + [v % 2 == 1];
    assert ToBits(v / 2, n + 1) == ToBits(v / 4, n) + [v / 2 % 2 == 1];
  }

  lemma RegSymbol(v: nat)
    requires v < 32
    ensures RegOf(C.Of(v)) == NONE[1..] + [Fe(v)]
  {
    C.SymbolBits(v);
    FiveBits(v);
    forall i | 0 <= i < 6
      ensures RegOf(C.Of(v))[i] == (NONE[1..] + [Fe(v)])[i]
    {
      assert i < 5 ==> Sym(C.Of(v), i) == NIL;
      assert Sym(C.Of(v), 5) == ToBits(v, 5);
    }
  }

  // --- the five generator words are the generator times 1, x, x^2, x^3, x^4 ----------------------

  function Pack(s: seq<nat>): nat {
    if s == [] then 0 else 32 * Pack(s[..|s| - 1]) + s[|s| - 1]
  }

  lemma FiveLeft(x: nat)
    ensures ShiftLeft(x, 5) == 32 * x && Pow2(5) == 32
  {
    assert ShiftLeft(x, 1) == 2 * x && ShiftLeft(x, 2) == 4 * x && ShiftLeft(x, 3) == 8 * x && ShiftLeft(x, 4) == 16 * x;
  }

  lemma {:induction false} PackBits(s: seq<nat>)
    requires Fits(s, 5)
    ensures ToBits(Pack(s), 5 * |s|) == Spread(s, 5)
  {
    if s != [] {
      var front, last := s[..|s| - 1], s[|s| - 1];
      PackBits(front);
      FiveLeft(Pack(front));
      JoinBits(Pack(front), last, 5 * |front|, 5);
      SpreadSnoc(front, last, 5);
      assert front + [last] == s;
    }
  }

  lemma WindowAfter(head: seq<bool>, rest: seq<bool>, from: nat, w: nat)
    requires |head| == w && from + w <= |rest|
    ensures (head + rest)[from + w..from + w + w] == rest[from..from + w]
  {
  }

  lemma {:induction false} SpreadAt(s: seq<nat>, i: nat)
    requires i < |s|
    ensures |Spread(s, 5)| == 5 * |s| && Spread(s, 5)[5 * i..5 * i + 5] == ToBits(s[i], 5)
  {
    var tail := s[1..];
    var head, rest := ToBits(s[0], 5), Spread(tail, 5);
    assert Spread(s, 5) == head + rest;
    if i > 0 {
      SpreadAt(tail, i - 1);
      WindowAfter(head, rest, 5 * (i - 1), 5);
      assert s[i] == tail[i - 1];
    } else {
      SpreadLength(tail, 5);
    }
  }

  function Six(s: seq<nat>): Reg
    requires |s| == 6
  {
    seq(6, i requires 0 <= i < 6 => Fe(s[i]))
  }

  /** The word of six packed symbols. */
  lemma RegPacked(x: nat, s: seq<nat>)
    requires |s| == 6 && Fits(s, 5) && x == Pack(s)
    ensures RegOf(ToBits(x, 32)) == Six(s)
  {
    PackBits(s);
    SplitBits(x, 2, 30);
    var b := ToBits(x, 32);
    assert b[2..] == Spread(s, 5);
    forall i | 0 <= i < 6
      ensures RegOf(b)[i] == Six(s)[i]
    {
      SpreadAt(s, i);
      FiveBits(s[i]);
      assert Sym(b, i) == b[2..][5 * i..5 * i + 5];
    }
  }

  /** The generator's multiples by powers of x, as packed symbols. */
  function Multiple(j: nat): seq<nat>
    requires j < 5
  {
    [[29, 22, 20, 21, 29, 18],
     [19, 5, 1, 3, 19, 13],
     [15, 10, 2, 6, 15, 26],
     [30, 20, 4, 12, 30, 29],
     [21, 1, 8, 24, 21, 19]][j]
  }

  function PowerOf(j: nat): F
    requires j < 5
  {
    [[false, false, false, false, true], [false, false, false, true, false], [false, false, true, false, false],
     [false, true, false, false, false], [true, false, false, false, false]][j]
  }

  lemma PackSix(s: seq<nat>)
    requires |s| == 6
    ensures Pack(s) == 32 * (32 * (32 * (32 * (32 * s[0] + s[1]) + s[2]) + s[3]) + s[4]) + s[5]
  {
    assert s[..5][..4] == s[..4] && s[..4][..3] == s[..3] && s[..3][..2] == s[..2] && s[..2][..1] == s[..1] && s[..1][..0] == [];
    assert Pack(s[..1]) == s[0];
    assert Pack(s[..2]) == 32 * s[0] + s[1];
    assert Pack(s[..3]) == 32 * Pack(s[..2]) + s[2];
    assert Pack(s[..4]) == 32 * Pack(s[..3]) + s[3];
    assert Pack(s[..5]) == 32 * Pack(s[..4]) + s[4];
  }

  lemma GeneratorWord(j: nat)
    requires j < 5
    ensures RegOf(C.Bech32Generators()[j]) == Six(Multiple(j))
  {
    FiveLeft(0);
    PackSix(Multiple(j));
    RegPacked(C.GEN[j], Multiple(j));
  }

  lemma MulOne(b: F)
    ensures Mul(PowerOf(0), b) == b
  {
    var one := PowerOf(0);
    assert MulFrom(one, b, 5) == NIL && Double(NIL) == NIL;
    AddNil(NIL);
    assert MulFrom(one, b, 4) == NIL;
    assert MulFrom(one, b, 3) == NIL;
    assert MulFrom(one, b, 2) == NIL;
    assert MulFrom(one, b, 1) == NIL;
    AddNil(b);
  }

  lemma MulPower(j: nat, b: F)
    requires 0 < j < 5
    ensures Mul(PowerOf(j), b) == Double(Mul(PowerOf(j - 1), b))
  {
    assert PowerOf(j) == Double(PowerOf(j - 1));
    DoubleMul(PowerOf(j - 1), b);
  }

  /** `b` is `a` times x. */
  predicate Twice(a: nat, b: nat) { Fe(b) == Double(Fe(a)) }

  lemma TwiceFirst()
    ensures Twice(29, 19) && Twice(22, 5) && Twice(20, 1) && Twice(21, 3) && Twice(18, 13) && Twice(19, 15)
  {
  }

  lemma TwiceSecond()
    ensures Twice(5, 10) && Twice(1, 2) && Twice(3, 6) && Twice(13, 26) && Twice(15, 30) && Twice(10, 20)
  {
  }

  lemma TwiceThird()
    ensures Twice(2, 4) && Twice(6, 12) && Twice(26, 29) && Twice(30, 21) && Twice(4, 8) && Twice(12, 24)
  {
  }

  lemma MultipleTwice(j: nat, i: nat)
    requires 0 < j < 5 && i < 6
    ensures Twice(Multiple(j - 1)[i], Multiple(j)[i])
  {
    TwiceFirst();
    TwiceSecond();
    TwiceThird();
  }

  /** The five words are the generator polynomial times 1, x, x^2, x^3 and x^4. */
  lemma {:induction false} WordIsMultiple(j: nat)
    requires j < 5
    ensures RegOf(C.Bech32Generators()[j]) == Scale(PowerOf(j), Generator())
  {
    GeneratorWord(j);
    if j > 0 {
      WordIsMultiple(j - 1);
      GeneratorWord(j - 1);
    }
    forall i | 0 <= i < 6
      ensures Six(Multiple(j))[i] == Scale(PowerOf(j), Generator())[i]
    {
      MultipleIs(j, i);
    }
  }

  lemma {:induction false} MultipleIs(j: nat, i: nat)
    requires j < 5 && i < 6
    ensures Fe(Multiple(j)[i]) == Mul(PowerOf(j), Generator()[i])
  {
    if j == 0 {
      MulOne(Generator()[i]);
    } else {
      MultipleIs(j - 1, i);
      MulPower(j, Generator()[i]);
      MultipleTwice(j, i);
    }
  }

  // --- a round is a step of the division ------------------------------------------------------------

  /** The leading symbol from its coefficient of x^i up. */
  function High(a: F, i: nat): F
    requires i <= 5
    decreases 5 - i
  {
    if i == 5 then NIL else Add(If(Coeff(a, i), PowerOf(i)), High(a, i + 1))
  }

  lemma HighIsAll(a: F)
    ensures High(a, 0) == a
  {
    assert High(a, 5) == NIL;
    assert High(a, 4) == [a[0], false, false, false, false];
    assert High(a, 3) == [a[0], a[1], false, false, false];
    assert High(a, 2) == [a[0], a[1], a[2], false, false];
    assert High(a, 1) == [a[0], a[1], a[2], a[3], false];
  }

  lemma ScaleAdds(a: F, b: F, r: Reg)
    ensures Scale(Add(a, b), r) == AddReg(Scale(a, r), Scale(b, r))
  {
    forall i | 0 <= i < 6
      ensures Scale(Add(a, b), r)[i] == AddReg(Scale(a, r), Scale(b, r))[i]
    {
      AddsMul(a, b, r[i], 0);
    }
  }

  lemma ScaleNil(r: Reg)
    ensures Scale(NIL, r) == NONE
  {
    forall i | 0 <= i < 6
      ensures Scale(NIL, r)[i] == NONE[i]
    {
      MulNothing(r[i], 0);
    }
  }

  /** The selected words together are the leading symbol times the generator. */
  lemma {:induction false} TapsAreMultiple(w: C.Word, i: nat)
    requires i <= 5
    ensures RegOf(C.Taps(C.Bech32Generators(), w, i)) == Scale(High(Sym(w, 0), i), Generator())
    decreases 5 - i
  {
    if i == 5 {
      RegZero();
      ScaleNil(Generator());
    } else {
      var g, lead := C.Bech32Generators(), Sym(w, 0);
      var chosen: C.Word := if C.Tap(w, i) then g[i] else C.ZERO;
      TapsAreMultiple(w, i + 1);
      assert C.Tap(w, i) == Coeff(lead, i);
      WordIsMultiple(i);
      RegZero();
      ScaleNil(Generator());
      RegXor(chosen, C.Taps(g, w, i + 1));
      ScaleAdds(If(Coeff(lead, i), PowerOf(i)), High(lead, i + 1), Generator());
    }
  }

  lemma BringDown(r: Reg, v: F)
    ensures AddReg(r[1..] + [NIL], NONE[1..] + [v]) == r[1..] + [v]
  {
    forall i | 0 <= i < 6
      ensures AddReg(r[1..] + [NIL], NONE[1..] + [v])[i] == (r[1..] + [v])[i]
    {
      AddNil((r[1..] + [v])[i]);
    }
  }

  /** One round of the checksum is one step of long division by the generator. */
  lemma StepDivides(w: C.Word, v: nat)
    requires v < 32
    ensures RegOf(C.Step(C.Bech32Generators(), w, v)) == Divide(RegOf(w), Fe(v))
  {
    var g := C.Bech32Generators();
    TapsAreMultiple(w, 0);
    HighIsAll(Sym(w, 0));
    RegXor(C.Xor(C.Shift(w), C.Of(v)), C.Taps(g, w, 0));
    RegXor(C.Shift(w), C.Of(v));
    RegShift(w);
    RegSymbol(v);
    BringDown(RegOf(w), Fe(v));
  }

  /** The checksum register is the remainder of the symbols by the generator polynomial. */
  lemma {:induction false} FoldIsRemainder(w: C.Word, values: seq<nat>)
    requires Fits(values, 5)
    ensures RegOf(C.Fold(C.Bech32Generators(), w, values)) == Remainder(RegOf(w), values)
  {
    if values != [] {
      var front, last := values[..|values| - 1], values[|values| - 1];
      FiveLeft(0);
      FoldIsRemainder(w, front);
      StepDivides(C.Fold(C.Bech32Generators(), w, front), last);
    }
  }

  // --- the code is linear over the whole field ---------------------------------------------------------

  /** Every symbol of `scaled` is `a` times that of `values`. */
  predicate Times(a: F, values: seq<nat>, scaled: seq<nat>) {
    |scaled| == |values| && forall i :: 0 <= i < |values| ==> Fe(scaled[i]) == Mul(a, Fe(values[i]))
  }

  lemma ScaleScale(a: F, b: F, r: Reg)
    ensures Scale(Mul(a, b), r) == Scale(a, Scale(b, r))
  {
    forall i | 0 <= i < 6
      ensures Scale(Mul(a, b), r)[i] == Scale(a, Scale(b, r))[i]
    {
      MulAssociates(a, b, r[i], 0);
    }
  }

  lemma ScaleSum(a: F, r: Reg, t: Reg)
    ensures Scale(a, AddReg(r, t)) == AddReg(Scale(a, r), Scale(a, t))
  {
    forall i | 0 <= i < 6
      ensures Scale(a, AddReg(r, t))[i] == AddReg(Scale(a, r), Scale(a, t))[i]
    {
      MulAdds(a, r[i], t[i], 0);
    }
  }

  lemma ScaleDivide(a: F, r: Reg, v: F)
    ensures Divide(Scale(a, r), Mul(a, v)) == Scale(a, Divide(r, v))
  {
    ScaleSum(a, r[1..] + [v], Scale(r[0], Generator()));
    ScaleScale(a, r[0], Generator());
    assert Scale(a, r)[1..] + [Mul(a, v)] == Scale(a, r[1..] + [v]);
  }

  /** Multiplying every symbol by an element multiplies the remainder by it. */
  lemma {:induction false} RemainderScales(a: F, r: Reg, values: seq<nat>, scaled: seq<nat>)
    requires Times(a, values, scaled)
    ensures Remainder(Scale(a, r), scaled) == Scale(a, Remainder(r, values))
  {
    if values != [] {
      var n := |values| - 1;
      RemainderScales(a, r, values[..n], scaled[..n]);
      ScaleDivide(a, Remainder(r, values[..n]), Fe(values[n]));
    }
  }
}
