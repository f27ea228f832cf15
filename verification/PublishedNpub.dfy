/** A published npub (NIP-19) decodes to its published key, so the constants of the
    codec are those of the standard (pkg/fipsaddr/npub.go, pkg/fipsaddr/fipsaddr_test.go). */
module PublishedNpub {
  import opened Bits
  import opened Bech32
  import opened Gf32
  import opened Npub
  import C = Checksum

  // --- symbols in machine words -------------------------------------------------------------------

  /** The symbol in the low five bits. */
  function Low(v: bv32): F { [v & 16 != 0, v & 8 != 0, v & 4 != 0, v & 2 != 0, v & 1 != 0] }

  /** The register shifted so that symbol `i` is lowest. */
  function Part(b: bv32, i: nat): bv32 {
    match i case 0 => b >> 25 case 1 => b >> 20 case 2 => b >> 15 case 3 => b >> 10 case 4 => b >> 5 case _ => b
  }

  function At(b: bv32, i: nat): F { Low(Part(b, i)) }

  function Split(b: bv32): Reg { seq(6, i requires 0 <= i < 6 => At(b, i)) }

  lemma LowXor(a: bv32, b: bv32)
    ensures Low(a ^ b) == Add(Low(a), Low(b))
  {
  }

  lemma ShiftXor(a: bv32, b: bv32)
    ensures (a ^ b) >> 25 == (a >> 25) ^ (b >> 25) && (a ^ b) >> 20 == (a >> 20) ^ (b >> 20)
    ensures (a ^ b) >> 15 == (a >> 15) ^ (b >> 15) && (a ^ b) >> 10 == (a >> 10) ^ (b >> 10)
    ensures (a ^ b) >> 5 == (a >> 5) ^ (b >> 5)
  {
  }

  lemma AtXor(a: bv32, b: bv32, i: nat)
    ensures At(a ^ b, i) == Add(At(a, i), At(b, i))
  {
    PartXor(a, b, i);
    LowXor(Part(a, i), Part(b, i));
  }

  lemma PartXor(a: bv32, b: bv32, i: nat)
    ensures Part(a ^ b, i) == Part(a, i) ^ Part(b, i)
  {
    ShiftXor(a, b);
    match i {
      case 0 =>
      case 1 =>
      case 2 =>
      case 3 =>
      case 4 =>
      case _ =>
    }
  }

  lemma AtZero(i: nat)
    ensures At(0, i) == NIL
  {
  }

  function Mix(s: bv32, t: bv32): bv32 { s ^ t }

  function XorFrom(c: seq<bv32>, j: nat): bv32
    requires j <= |c|
    decreases |c| - j
  {
    if j == |c| then 0 else Mix(c[j], XorFrom(c, j + 1))
  }

  /** The sum of the multiples `m` that the coefficients of `a` select, from x^j up. */
  function SumFrom(m: seq<F>, a: F, j: nat): F
    requires |m| == 5 && j <= 5
    decreases 5 - j
  {
    if j == 5 then NIL else Add(If(Coeff(a, j), m[j]), SumFrom(m, a, j + 1))
  }

  lemma {:induction false} AtXorFrom(c: seq<bv32>, m: seq<F>, a: F, i: nat, j: nat)
    requires |c| == 5 == |m| && j <= 5 && forall n :: 0 <= n < 5 ==> At(c[n], i) == If(Coeff(a, n), m[n])
    ensures At(XorFrom(c, j), i) == SumFrom(m, a, j)
    decreases 5 - j
  {
    if j == 5 {
      AtZero(i);
    } else {
      AtXorFrom(c, m, a, i, j + 1);
      AtXor(c[j], XorFrom(c, j + 1), i);
    }
  }

  lemma {:induction false} SumIs(m: seq<F>, a: F, g: F, j: nat)
    requires |m| == 5 && j <= 5 && forall n :: 0 <= n < 5 ==> m[n] == Mul(PowerOf(n), g)
    ensures SumFrom(m, a, j) == Mul(High(a, j), g)
    decreases 5 - j
  {
    MulNothing(g, 0);
    if j < 5 {
      SumIs(m, a, g, j + 1);
      AddsMul(If(Coeff(a, j), PowerOf(j)), High(a, j + 1), g, 0);
    }
  }

  // --- a round of the source's loop is a step of the division ---------------------------------------

  function GenWord(j: nat): bv32 {
    match j case 0 => 0x3b6a57b2 case 1 => 0x26508e6d case 2 => 0x1ea119fa case 3 => 0x3d4233dd case _ => 0x2a1462b3
  }

  lemma FeTable()
    ensures Fe(0) == Low(0) && Fe(1) == Low(1) && Fe(2) == Low(2) && Fe(3) == Low(3)
    ensures Fe(4) == Low(4) && Fe(5) == Low(5) && Fe(6) == Low(6) && Fe(7) == Low(7)
    ensures Fe(8) == Low(8) && Fe(9) == Low(9) && Fe(10) == Low(10) && Fe(11) == Low(11)
    ensures Fe(12) == Low(12) && Fe(13) == Low(13) && Fe(14) == Low(14) && Fe(15) == Low(15)
    ensures Fe(16) == Low(16) && Fe(17) == Low(17) && Fe(18) == Low(18) && Fe(19) == Low(19)
    ensures Fe(20) == Low(20) && Fe(21) == Low(21) && Fe(22) == Low(22) && Fe(23) == Low(23)
    ensures Fe(24) == Low(24) && Fe(25) == Low(25) && Fe(26) == Low(26) && Fe(27) == Low(27)
    ensures Fe(28) == Low(28) && Fe(29) == Low(29) && Fe(30) == Low(30) && Fe(31) == Low(31)
  {
  }

  lemma SplitGenerator(j: nat)
    requires j < 5
    ensures forall i :: 0 <= i < 6 ==> At(GenWord(j), i) == Fe(Multiple(j)[i])
  {
    FeTable();
  }

  predicate Lead(b: bv32, j: nat) {
    match j
    case 0 => b & 0x2000000 != 0
    case 1 => b & 0x4000000 != 0
    case 2 => b & 0x8000000 != 0
    case 3 => b & 0x10000000 != 0
    case _ => b & 0x20000000 != 0
  }

  lemma LeadIsCoeff(b: bv32, j: nat)
    requires j < 5
    ensures Lead(b, j) == Coeff(At(b, 0), j)
  {
  }

  function Chosen(b: bv32, j: nat): bv32 { if Lead(b, j) then GenWord(j) else 0 }

  function Choices(b: bv32): seq<bv32> { [Chosen(b, 0), Chosen(b, 1), Chosen(b, 2), Chosen(b, 3), Chosen(b, 4)] }

  function Shifted(b: bv32, v: bv32): bv32 { ((b & 0x1ffffff) << 5) ^ v }

  function Taken(b: bv32): bv32 {
    Mix(if b & 0x2000000 != 0 then 0x3b6a57b2 else 0,
      Mix(if b & 0x4000000 != 0 then 0x26508e6d else 0,
        Mix(if b & 0x8000000 != 0 then 0x1ea119fa else 0,
          Mix(if b & 0x10000000 != 0 then 0x3d4233dd else 0,
            Mix(if b & 0x20000000 != 0 then 0x2a1462b3 else 0, 0)))))
  }

  function Round(b: bv32, v: bv32): bv32 { Mix(Shifted(b, v), Taken(b)) }

  lemma XorFive(c: seq<bv32>)
    requires |c| == 5
    ensures XorFrom(c, 0) == Mix(c[0], Mix(c[1], Mix(c[2], Mix(c[3], Mix(c[4], 0)))))
  {
    assert XorFrom(c, 4) == Mix(c[4], 0);
    assert XorFrom(c, 2) == Mix(c[2], Mix(c[3], XorFrom(c, 4)));
  }

  lemma TakenIs(b: bv32)
    ensures Taken(b) == XorFrom(Choices(b), 0)
  {
    XorFive(Choices(b));
  }

  function Multiples(i: nat): seq<F>
    requires i < 6
  {
    seq(5, j requires 0 <= j < 5 => Fe(Multiple(j)[i]))
  }

  lemma ChosenAt(b: bv32, j: nat, i: nat)
    requires j < 5 && i < 6
    ensures At(Chosen(b, j), i) == If(Coeff(At(b, 0), j), Multiples(i)[j])
  {
    LeadIsCoeff(b, j);
    SplitGenerator(j);
    AtZero(i);
  }

  lemma ChoicesAt(b: bv32, i: nat)
    requires i < 6
    ensures forall n :: 0 <= n < 5 ==> At(Choices(b)[n], i) == If(Coeff(At(b, 0), n), Multiples(i)[n])
  {
    ChosenAt(b, 0, i);
    ChosenAt(b, 1, i);
    ChosenAt(b, 2, i);
    ChosenAt(b, 3, i);
    ChosenAt(b, 4, i);
  }

  lemma TakenOff(c: seq<bv32>, a: F, i: nat)
    requires i < 6 && |c| == 5 && forall n :: 0 <= n < 5 ==> At(c[n], i) == If(Coeff(a, n), Multiples(i)[n])
    ensures At(XorFrom(c, 0), i) == Mul(a, Generator()[i])
  {
    AtXorFrom(c, Multiples(i), a, i, 0);
    forall n | 0 <= n < 5
      ensures Multiples(i)[n] == Mul(PowerOf(n), Generator()[i])
    {
      MultipleIs(n, i);
    }
    SumIs(Multiples(i), a, Generator()[i], 0);
    HighIsAll(a);
  }

  lemma OffAt(b: bv32, i: nat)
    requires i < 6
    ensures At(XorFrom(Choices(b), 0), i) == Mul(At(b, 0), Generator()[i])
  {
    ChoicesAt(b, i);
    TakenOff(Choices(b), At(b, 0), i);
  }

  lemma PartShift(b: bv32, v: bv32, i: nat)
    requires v < 32
    ensures i < 5 ==> Part(Shifted(b, v), i) & 31 == Part(b, i + 1) & 31
    ensures i >= 5 ==> Part(Shifted(b, v), i) & 31 == v & 31
  {
  }

  lemma LowSame(a: bv32, b: bv32)
    requires a & 31 == b & 31
    ensures Low(a) == Low(b)
  {
  }

  lemma AtShift(b: bv32, v: bv32, i: nat)
    requires v < 32 && i < 6
    ensures At(Shifted(b, v), i) == if i < 5 then At(b, i + 1) else Low(v)
  {
    PartShift(b, v, i);
    LowSame(Part(Shifted(b, v), i), if i < 5 then Part(b, i + 1) else v);
  }

  lemma RoundVia(s: bv32, t: bv32, i: nat, next: F, off: F)
    requires At(s, i) == next && At(t, i) == off
    ensures At(Mix(s, t), i) == Add(next, off)
  {
    AtXor(s, t, i);
  }

  lemma RoundAt(b: bv32, v: bv32, i: nat)
    requires v < 32 && i < 6
    ensures At(Round(b, v), i) == Add(if i < 5 then At(b, i + 1) else Low(v), Mul(At(b, 0), Generator()[i]))
  {
    OffAt(b, i);
    AtShift(b, v, i);
    TakenIs(b);
    RoundVia(Shifted(b, v), Taken(b), i, if i < 5 then At(b, i + 1) else Low(v), Mul(At(b, 0), Generator()[i]));
  }

  lemma SplitIs(b: bv32, r: Reg)
    requires forall i :: 0 <= i < 6 ==> At(b, i) == r[i]
    ensures Split(b) == r
  {
  }

  lemma DivideAt(r: Reg, v: F, i: nat)
    requires i < 6
    ensures Divide(r, v)[i] == Add(if i < 5 then r[i + 1] else v, Mul(r[0], Generator()[i]))
  {
  }

  lemma RoundDivides(b: bv32, v: bv32)
    requires v < 32
    ensures Split(Round(b, v)) == Divide(Split(b), Low(v))
  {
    forall i | 0 <= i < 6
      ensures At(Round(b, v), i) == Divide(Split(b), Low(v))[i]
    {
      RoundAt(b, v, i);
      DivideAt(Split(b), Low(v), i);
    }
    SplitIs(Round(b, v), Divide(Split(b), Low(v)));
  }

  // --- a few symbols at a time --------------------------------------------------------------------------

  function Wide(n: nat): bv32
    requires n < 32
  {
    match n
    case 0 => 0 case 1 => 1 case 2 => 2 case 3 => 3 case 4 => 4 case 5 => 5 case 6 => 6 case 7 => 7
    case 8 => 8 case 9 => 9 case 10 => 10 case 11 => 11 case 12 => 12 case 13 => 13 case 14 => 14 case 15 => 15
    case 16 => 16 case 17 => 17 case 18 => 18 case 19 => 19 case 20 => 20 case 21 => 21 case 22 => 22 case 23 => 23
    case 24 => 24 case 25 => 25 case 26 => 26 case 27 => 27 case 28 => 28 case 29 => 29 case 30 => 30
    case _ => 31
  }

  lemma FeWide0(n: nat)
    requires 0 <= n < 4
    ensures Wide(n) < 32 && Fe(n) == Low(Wide(n))
  {
    assert Fe(0) == Low(0) && Fe(1) == Low(1) && Fe(2) == Low(2) && Fe(3) == Low(3);
  }

  lemma FeWide4(n: nat)
    requires 4 <= n < 8
    ensures Wide(n) < 32 && Fe(n) == Low(Wide(n))
  {
    assert Fe(4) == Low(4) && Fe(5) == Low(5) && Fe(6) == Low(6) && Fe(7) == Low(7);
  }

  lemma FeWide8(n: nat)
    requires 8 <= n < 12
    ensures Wide(n) < 32 && Fe(n) == Low(Wide(n))
  {
    assert Fe(8) == Low(8) && Fe(9) == Low(9) && Fe(10) == Low(10) && Fe(11) == Low(11);
  }

  lemma FeWide12(n: nat)
    requires 12 <= n < 16
    ensures Wide(n) < 32 && Fe(n) == Low(Wide(n))
  {
    assert Fe(12) == Low(12) && Fe(13) == Low(13) && Fe(14) == Low(14) && Fe(15) == Low(15);
  }

  lemma FeWide16(n: nat)
    requires 16 <= n < 20
    ensures Wide(n) < 32 && Fe(n) == Low(Wide(n))
  {
    assert Fe(16) == Low(16) && Fe(17) == Low(17) && Fe(18) == Low(18) && Fe(19) == Low(19);
  }

  lemma FeWide20(n: nat)
    requires 20 <= n < 24
    ensures Wide(n) < 32 && Fe(n) == Low(Wide(n))
  {
    assert Fe(20) == Low(20) && Fe(21) == Low(21) && Fe(22) == Low(22) && Fe(23) == Low(23);
  }

  lemma FeWide24(n: nat)
    requires 24 <= n < 28
    ensures Wide(n) < 32 && Fe(n) == Low(Wide(n))
  {
    assert Fe(24) == Low(24) && Fe(25) == Low(25) && Fe(26) == Low(26) && Fe(27) == Low(27);
  }

  lemma FeWide28(n: nat)
    requires 28 <= n < 32
    ensures Wide(n) < 32 && Fe(n) == Low(Wide(n))
  {
    assert Fe(28) == Low(28) && Fe(29) == Low(29) && Fe(30) == Low(30) && Fe(31) == Low(31);
  }

  lemma FeWide(n: nat)
    requires n < 32
    ensures Wide(n) < 32 && Fe(n) == Low(Wide(n))
  {
    if n < 4 {
      FeWide0(n);
    } else if n < 8 {
      FeWide4(n);
    } else if n < 12 {
      FeWide8(n);
    } else if n < 16 {
      FeWide12(n);
    } else if n < 20 {
      FeWide16(n);
    } else if n < 24 {
      FeWide20(n);
    } else if n < 28 {
      FeWide24(n);
    } else {
      FeWide28(n);
    }
  }

  predicate Leads(a: bv32, v: nat, b: bv32) { v < 32 && Round(a, Wide(v)) == b }

  predicate StepAt(leads: (bv32, nat, bv32) -> bool, states: seq<bv32>, s: seq<nat>, k: nat)
    requires k < |s| && |states| == |s| + 1
  {
    leads(states[k], s[k], states[k + 1])
  }

  /** The registers met on the way through the symbols `s`. */
  predicate Walk(leads: (bv32, nat, bv32) -> bool, states: seq<bv32>, s: seq<nat>) {
    |states| == |s| + 1 && forall k :: 0 <= k < |s| ==> StepAt(leads, states, s, k)
  }

  lemma LeadsDivides(r: Reg, s: seq<nat>, a: bv32, v: nat, b: bv32)
    requires Remainder(r, s) == Split(a) && Leads(a, v, b)
    ensures Remainder(r, s + [v]) == Split(b)
  {
    FeWide(v);
    RoundDivides(a, Wide(v));
    assert (s + [v])[..|s|] == s;
  }

  /** What every step keeps holds at the end of the walk. */
  lemma {:induction false} WalkKeeps(leads: (bv32, nat, bv32) -> bool, states: seq<bv32>, s: seq<nat>, inv: (seq<nat>, bv32) -> bool)
    requires Walk(leads, states, s) && inv([], states[0])
    requires forall t, a, v, b :: inv(t, a) && leads(a, v, b) ==> inv(t + [v], b)
    ensures inv(s, states[|s|])
  {
    if s != [] {
      var n := |s| - 1;
      var front, head := states[..n + 1], s[..n];
      assert StepAt(leads, states, s, n);
      forall k | 0 <= k < n
        ensures StepAt(leads, front, head, k)
      {
        assert StepAt(leads, states, s, k);
      }
      WalkKeeps(leads, front, head, inv);
      assert head + [s[n]] == s;
    } else {
      assert s == [];
    }
  }

  lemma WalkDivides(states: seq<bv32>, s: seq<nat>)
    requires Walk(Leads, states, s)
    ensures Remainder(Split(states[0]), s) == Split(states[|s|])
  {
    var r := Split(states[0]);
    var inv := (t: seq<nat>, a: bv32) => Remainder(r, t) == Split(a);
    forall t: seq<nat>, a: bv32, v: nat, b: bv32 | inv(t, a) && Leads(a, v, b)
      ensures inv(t + [v], b)
    {
      LeadsDivides(r, t, a, v, b);
    }
    WalkKeeps(Leads, states, s, inv);
  }

  /** The symbols `s` take the register from `a` to `b`. */
  ghost predicate Path(leads: (bv32, nat, bv32) -> bool, a: bv32, s: seq<nat>, b: bv32) {
    exists states :: Walk(leads, states, s) && states[0] == a && states[|s|] == b
  }

  lemma PathStep(leads: (bv32, nat, bv32) -> bool, a: bv32, v: nat, b: bv32)
    requires leads(a, v, b)
    ensures Path(leads, a, [v], b)
  {
    var w := [a, b];
    assert StepAt(leads, w, [v], 0);
    assert Walk(leads, w, [v]);
  }

  lemma PathJoin(leads: (bv32, nat, bv32) -> bool, a: bv32, s: seq<nat>, b: bv32, s': seq<nat>, c: bv32)
    requires Path(leads, a, s, b) && Path(leads, b, s', c)
    ensures Path(leads, a, s + s', c)
  {
    var w :| Walk(leads, w, s) && w[0] == a && w[|s|] == b;
    var w' :| Walk(leads, w', s') && w'[0] == b && w'[|s'|] == c;
    var all := w + w'[1..];
    forall k | 0 <= k < |s + s'|
      ensures StepAt(leads, all, s + s', k)
    {
      if k < |s| {
        assert StepAt(leads, w, s, k);
      } else {
        assert StepAt(leads, w', s', k - |s|);
      }
    }
    assert Walk(leads, all, s + s');
  }

  lemma PathFour(leads: (bv32, nat, bv32) -> bool, a: bv32, i: nat, b: bv32, j: nat, c: bv32, k: nat, d: bv32, l: nat, e: bv32)
    requires leads(a, i, b) && leads(b, j, c) && leads(c, k, d) && leads(d, l, e)
    ensures Path(leads, a, [i, j, k, l], e)
  {
    PathStep(leads, a, i, b);
    PathStep(leads, b, j, c);
    PathStep(leads, c, k, d);
    PathStep(leads, d, l, e);
    PathJoin(leads, a, [i], b, [j], c);
    PathJoin(leads, a, [i] + [j], c, [k], d);
    PathJoin(leads, a, [i] + [j] + [k], d, [l], e);
    assert [i] + [j] + [k] + [l] == [i, j, k, l];
  }

  /** The characters `t` spell the symbols `s`. */
  predicate Spells(t: string, s: seq<nat>) {
    |t| == |s| && forall i :: 0 <= i < |s| ==> s[i] < 32 && Rank(t[i]) == s[i]
  }

  lemma SpellsJoin(t: string, s: seq<nat>, t': string, s': seq<nat>)
    requires Spells(t, s) && Spells(t', s')
    ensures Spells(t + t', s + s')
  {
  }

  lemma RankTells(c: char, v: nat)
    requires v < 32 && Rank(c) == v
    ensures CHARSET[v] == c
  {
    RankOfCharset(v);
  }

  lemma SpelledChars(t: string, s: seq<nat>)
    requires Spells(t, s)
    ensures Fits(s, 5) && Chars(s) == t
  {
    FiveLeft(0);
    forall i | 0 <= i < |s|
      ensures Chars(s)[i] == t[i]
    {
      RankTells(t[i], s[i]);
    }
  }

  // --- what the symbols prove ---------------------------------------------------------------------------

  lemma StartSplits()
    ensures Split(1) == RegOf(C.ONE)
  {
    forall i | 0 <= i < 6
      ensures At(1, i) == Sym(C.ONE, i)
    {
      assert i < 5 ==> At(1, i) == NIL && Sym(C.ONE, i) == NIL;
      assert At(1, 5) == Sym(C.ONE, 5);
    }
  }

  /** Narrow words with the same symbols are the same. */
  lemma SameWord(a: C.Word, b: C.Word)
    requires C.Narrow(a) && C.Narrow(b) && RegOf(a) == RegOf(b)
    ensures a == b
  {
    forall j | 0 <= j < 32
      ensures a[j] == b[j]
    {
      if j >= 2 {
        var i := (j - 2) / 5;
        assert RegOf(a)[i] == Sym(a, i) && RegOf(b)[i] == Sym(b, i);
        assert Sym(a, i)[j - 2 - 5 * i] == a[j];
        assert Sym(b, i)[j - 2 - 5 * i] == b[j];
      }
    }
  }

  lemma PathFits(s: seq<nat>, w: seq<bv32>)
    requires Walk(Leads, w, s)
    ensures Fits(s, 5)
  {
    FiveLeft(0);
    forall k | 0 <= k < |s|
      ensures s[k] < 32
    {
      assert StepAt(Leads, w, s, k);
    }
  }

  lemma RemainderIsOne(s: seq<nat>)
    requires Fits(s, 5) && Remainder(RegOf(C.ONE), s) == RegOf(C.ONE)
    ensures C.Fold(C.Bech32Generators(), C.ONE, s) == C.ONE
  {
    var g := C.Bech32Generators();
    FoldIsRemainder(C.ONE, s);
    C.GeneratorsNarrow();
    C.FoldNarrow(g, C.ONE, s);
    SameWord(C.Fold(g, C.ONE, s), C.ONE);
  }

  /** Symbols that lead from one back to one check out. */
  lemma LeavesOne(s: seq<nat>)
    requires Path(Leads, 1, s, 1)
    ensures Fits(s, 5) && C.Fold(C.Bech32Generators(), C.ONE, s) == C.ONE
  {
    var w :| Walk(Leads, w, s) && w[0] == 1 && w[|s|] == 1;
    PathFits(s, w);
    WalkDivides(w, s);
    StartSplits();
    RemainderIsOne(s);
  }

  lemma JoinLower(hrp: string, t: string)
    requires ToLower(hrp) == hrp && ToLower(t) == t
    ensures ToLower(Join(hrp, t)) == Join(hrp, t)
  {
  }

  /** A lower-case prefix and the characters of symbols that check out. */
  lemma SpelledDecodes(hrp: string, t: string, s: seq<nat>)
    requires hrp != "" && ToLower(hrp) == hrp && Spells(t, s) && |s| >= 6
    requires Path(Leads, 1, Expand(hrp) + s, 1)
    ensures Decode(Join(hrp, t)) == Ok((hrp, s[..|s| - 6]))
    ensures ToLower(Join(hrp, t)) == Join(hrp, t)
  {
    LeavesOne(Expand(hrp) + s);
    SpelledChars(t, s);
    ValuesOfChars(s);
    DecodeJoin(hrp, t);
    JoinLower(hrp, t);
  }

  // --- bytes in symbols ---------------------------------------------------------------------------------

  function Pack8(s: seq<nat>): nat {
    if s == [] then 0 else 256 * Pack8(s[..|s| - 1]) + s[|s| - 1]
  }

  lemma EightLeft(x: nat)
    ensures ShiftLeft(x, 8) == 256 * x && Pow2(8) == 256
  {
    FiveLeft(x);
    assert ShiftLeft(x, 6) == 64 * x && ShiftLeft(x, 7) == 128 * x;
    assert Pow2(6) == 64 && Pow2(7) == 128;
  }

  lemma SpreadPushed(front: seq<nat>, last: nat, x: nat, w: nat, v: nat)
    requires ToBits(x, w) == Spread(front, v) && last < Pow2(v)
    ensures ToBits(ShiftLeft(x, v) + last, w + v) == Spread(front + [last], v)
  {
    JoinBits(x, last, w, v);
    SpreadSnoc(front, last, v);
  }

  lemma {:induction false} Pack8Bits(s: seq<nat>)
    requires Fits(s, 8)
    ensures ToBits(Pack8(s), 8 * |s|) == Spread(s, 8)
  {
    if s != [] {
      var front, last := s[..|s| - 1], s[|s| - 1];
      EightLeft(Pack8(front));
      Pack8Bits(front);
      SpreadPushed(front, last, Pack8(front), 8 * |front|, 8);
      assert front + [last] == s;
    }
  }

  /** Symbols of `v` bits carry the values of `w` bits `k`, with `rest` after them. */
  predicate Carries(k: seq<nat>, w: nat, s: seq<nat>, v: nat, rest: seq<bool>) {
    Fits(k, w) && Fits(s, v) && Spread(s, v) == Spread(k, w) + rest
  }

  lemma SameBits(k: seq<nat>, s: seq<nat>)
    requires 8 * |k| == 5 * |s| && Fits(k, 8) && Fits(s, 5) && Pack8(k) == Pack(s)
    ensures Carries(k, 8, s, 5, [])
  {
    Pack8Bits(k);
    PackBits(s);
  }

  lemma PadBits(x: nat, w: nat)
    ensures ToBits(16 * x, w + 4) == ToBits(x, w) + Zeros(4)
  {
    FiveLeft(x);
    JoinBits(x, 0, w, 4);
    assert ToBits(0, 4) == Zeros(4);
  }

  lemma LastBits(k: seq<nat>, s: seq<nat>)
    requires 8 * |k| + 4 == 5 * |s| && Fits(k, 8) && Fits(s, 5) && 16 * Pack8(k) == Pack(s)
    ensures Carries(k, 8, s, 5, Zeros(4))
  {
    Pack8Bits(k);
    PackBits(s);
    PadBits(Pack8(k), 8 * |k|);
  }

  lemma MiddleNothing(a: seq<bool>, b: seq<bool>, c: seq<bool>)
    ensures (a + []) + (b + c) == (a + b) + c
  {
  }

  lemma CarriesOn(k: seq<nat>, w: nat, s: seq<nat>, v: nat, k': seq<nat>, s': seq<nat>, rest: seq<bool>)
    requires Carries(k, w, s, v, []) && Carries(k', w, s', v, rest)
    ensures Carries(k + k', w, s + s', v, rest)
  {
    SpreadAppend(k, k', w);
    SpreadAppend(s, s', v);
    FitsConcat(k, k', w);
    FitsConcat(s, s', v);
    MiddleNothing(Spread(k, w), Spread(k', w), rest);
  }

  lemma CarriesBoth(k: seq<nat>, w: nat, s: seq<nat>, v: nat, k': seq<nat>, a: seq<nat>, b: seq<nat>)
    requires Carries(k, w, s, v, []) && Carries(k', w, a + b, v, [])
    ensures Carries(k + k', w, s + a + b, v, [])
  {
    CarriesOn(k, w, s, v, k', a + b, []);
    assert s + a + b == s + (a + b);
  }

  lemma PackLast(s: seq<nat>, v: nat)
    ensures Pack(s + [v]) == 32 * Pack(s) + v
  {
    assert (s + [v])[..|s|] == s;
  }

  lemma PackFour(s: seq<nat>, a: nat, b: nat, c: nat, d: nat)
    ensures Pack(s + [a, b, c, d]) == 1048576 * Pack(s) + 32768 * a + 1024 * b + 32 * c + d
  {
    PackLast(s, a);
    PackLast(s + [a], b);
    PackLast(s + [a] + [b], c);
    PackLast(s + [a] + [b] + [c], d);
    assert s + [a] + [b] + [c] + [d] == s + [a, b, c, d];
  }

  lemma PackEight(s: seq<nat>)
    requires |s| == 8
    ensures Pack(s) == 1048576 * (32768 * s[0] + 1024 * s[1] + 32 * s[2] + s[3]) + 32768 * s[4] + 1024 * s[5] + 32 * s[6] + s[7]
  {
    PackFour([], s[0], s[1], s[2], s[3]);
    PackFour(s[..4], s[4], s[5], s[6], s[7]);
    assert [] + [s[0], s[1], s[2], s[3]] == s[..4];
    assert s[..4] + [s[4], s[5], s[6], s[7]] == s;
  }

  lemma Pack8Last(s: seq<nat>, v: nat)
    ensures Pack8(s + [v]) == 256 * Pack8(s) + v
  {
    assert (s + [v])[..|s|] == s;
  }

  lemma Pack8Five(k: seq<nat>)
    requires |k| == 5
    ensures Pack8(k) == 16777216 * (256 * k[0] + k[1]) + 65536 * k[2] + 256 * k[3] + k[4]
  {
    Pack8Last([], k[0]);
    Pack8Last([k[0]], k[1]);
    Pack8Last([k[0]] + [k[1]], k[2]);
    Pack8Last([k[0]] + [k[1]] + [k[2]], k[3]);
    Pack8Last([k[0]] + [k[1]] + [k[2]] + [k[3]], k[4]);
    assert [] + [k[0]] == [k[0]];
    assert k == [k[0]] + [k[1]] + [k[2]] + [k[3]] + [k[4]];
  }

  /** Five bytes and eight symbols that are one number in base 256 and in base 32. */
  lemma Carry(k: seq<nat>, s: seq<nat>)
    requires |k| == 5 && |s| == 8
    requires forall i :: 0 <= i < 5 ==> k[i] < 256
    requires forall i :: 0 <= i < 8 ==> s[i] < 32
    requires 16777216 * (256 * k[0] + k[1]) + 65536 * k[2] + 256 * k[3] + k[4]
             == 1048576 * (32768 * s[0] + 1024 * s[1] + 32 * s[2] + s[3]) + 32768 * s[4] + 1024 * s[5] + 32 * s[6] + s[7]
    ensures Carries(k, 8, s, 5, [])
  {
    FiveLeft(0);
    EightLeft(0);
    PackEight(s);
    Pack8Five(k);
    SameBits(k, s);
  }

  lemma CarryLast(k: seq<nat>, s: seq<nat>)
    requires |k| == 2 && |s| == 4 && k[0] < 256 && k[1] < 256
    requires s[0] < 32 && s[1] < 32 && s[2] < 32 && s[3] < 32
    requires 16 * (256 * k[0] + k[1]) == 32768 * s[0] + 1024 * s[1] + 32 * s[2] + s[3]
    ensures Carries(k, 8, s, 5, Zeros(4))
  {
    FiveLeft(0);
    EightLeft(0);
    PackFour([], s[0], s[1], s[2], s[3]);
    assert [] + [s[0], s[1], s[2], s[3]] == s;
    Pack8Last([], k[0]);
    Pack8Last([k[0]], k[1]);
    assert [] + [k[0]] == [k[0]] && [k[0]] + [k[1]] == k;
    LastBits(k, s);
  }

  lemma DecodesTo(validXOnly: seq<nat> -> bool, s: string, data: seq<nat>, k: seq<nat>)
    requires Decode(s) == Ok(("npub", data)) && Carries(k, 8, data, 5, Zeros(4)) && |k| == 32
    ensures DecodeKey(validXOnly, s) == if validXOnly(k) then Ok(k) else Err(InvalidPubkey)
  {
    RegroupSplit(data, 5, 8, false, k, Zeros(4));
  }

  // --- the published string -----------------------------------------------------------------------------

  const PREFIX: seq<nat> := [3, 3, 3, 3, 0, 14, 16, 21, 2]

  const A0: bv32 := 0x1773adfb
  const A1: bv32 := 0x75f1bb5
  const A2: bv32 := 0x2da5ea69
  const A3: bv32 := 0x26ab200a
  const A4: bv32 := 0x2e8dfc23
  const A5: bv32 := 0x128fe807
  const A6: bv32 := 0x3baf8376
  const A7: bv32 := 0x1f01772e
  const A8: bv32 := 0x3cb7533a
  const A9: bv32 := 0x1e032d34
  const A10: bv32 := 0x3793f903
  const A11: bv32 := 0x2b354f2a
  const A12: bv32 := 0x3b0705ea
  const A13: bv32 := 0x36602fb4
  const A14: bv32 := 1

  const S0: seq<nat> := [7, 15, 24, 12]
  const S1: seq<nat> := [12, 15, 30, 11]
  const S2: seq<nat> := [18, 13, 3, 3]
  const S3: seq<nat> := [8, 1, 29, 15]
  const S4: seq<nat> := [18, 30, 18, 30]
  const S5: seq<nat> := [11, 27, 19, 4]
  const S6: seq<nat> := [31, 10, 4, 3]
  const S7: seq<nat> := [26, 4, 3, 30]
  const S8: seq<nat> := [31, 7, 18, 21]
  const S9: seq<nat> := [16, 17, 25, 12]
  const S10: seq<nat> := [9, 26, 28, 26]
  const S11: seq<nat> := [21, 11, 23, 26]
  const S12: seq<nat> := [8, 22, 14, 16]
  const S13: seq<nat> := [4, 18, 23, 26, 14, 26]

  lemma PrefixPath4()
    ensures Path(Leads, 1, [3, 3, 3, 3], 0x118c63)
  {
    assert Leads(1, 3, 0x23);
    assert Leads(0x23, 3, 0x463);
    assert Leads(0x463, 3, 0x8c63);
    assert Leads(0x8c63, 3, 0x118c63);
    PathFour(Leads, 1, 3, 0x23, 3, 0x463, 3, 0x8c63, 3, 0x118c63);
  }

  lemma PrefixPath8()
    ensures Path(Leads, 0x118c63, [0, 14, 16, 21], 0x3dc6a358)
  {
    assert Leads(0x118c63, 0, 0x2318c60);
    assert Leads(0x2318c60, 14, 0x3d5bdbbc);
    assert Leads(0x3d5bdbbc, 16, 0x4dcb169);
    assert Leads(0x4dcb169, 21, 0x3dc6a358);
    PathFour(Leads, 0x118c63, 0, 0x2318c60, 14, 0x3d5bdbbc, 16, 0x4dcb169, 21, 0x3dc6a358);
  }

  lemma PrefixPath()
    ensures Path(Leads, 1, PREFIX, A0)
  {
    PrefixPath4();
    PrefixPath8();
    assert Leads(0x3dc6a358, 2, 0x1773adfb);
    PathStep(Leads, 0x3dc6a358, 2, 0x1773adfb);
    PathJoin(Leads, 1, [3, 3, 3, 3], 0x118c63, [0, 14, 16, 21], 0x3dc6a358);
    PathJoin(Leads, 1, [3, 3, 3, 3] + [0, 14, 16, 21], 0x3dc6a358, [2], A0);
    assert [3, 3, 3, 3] + [0, 14, 16, 21] + [2] == PREFIX;
  }

  lemma Step0()
    ensures Path(Leads, A0, S0, A1)
  {
    assert Leads(0x1773adfb, 7, 0xe0d5565);
    assert Leads(0xe0d5565, 15, 0x2316c8a);
    assert Leads(0x2316c8a, 24, 0x3d47c6ea);
    assert Leads(0x3d47c6ea, 12, 0x75f1bb5);
    PathFour(Leads, 0x1773adfb, 7, 0xe0d5565, 15, 0x2316c8a, 24, 0x3d47c6ea, 12, 0x75f1bb5);
  }

  lemma Step1()
    ensures Path(Leads, A1, S1, A2)
  {
    assert Leads(0x75f1bb5, 12, 0x36d9af73);
    assert Leads(0x36d9af73, 15, 0x115966de);
    assert Leads(0x115966de, 30, 0x166ee803);
    assert Leads(0x166ee803, 11, 0x2da5ea69);
    PathFour(Leads, 0x75f1bb5, 12, 0x36d9af73, 15, 0x115966de, 30, 0x166ee803, 11, 0x2da5ea69);
  }

  lemma Step2()
    ensures Path(Leads, A2, S2, A3)
  {
    assert Leads(0x2da5ea69, 18, 0x2658b816);
    assert Leads(0x2658b816, 13, 0x3c39b9a1);
    assert Leads(0x3c39b9a1, 3, 0x2890f2da);
    assert Leads(0x2890f2da, 3, 0x26ab200a);
    PathFour(Leads, 0x2da5ea69, 18, 0x2658b816, 13, 0x3c39b9a1, 3, 0x2890f2da, 3, 0x26ab200a);
  }

  lemma Step3()
    ensures Path(Leads, A3, S3, A4)
  {
    assert Leads(0x26ab200a, 8, 0x224aba24);
    assert Leads(0x224aba24, 1, 0x18297180);
    assert Leads(0x18297180, 29, 0x26cd1a3a);
    assert Leads(0x26cd1a3a, 15, 0x2e8dfc23);
    PathFour(Leads, 0x26ab200a, 8, 0x224aba24, 1, 0x18297180, 29, 0x26cd1a3a, 15, 0x2e8dfc23);
  }

  lemma Step4()
    ensures Path(Leads, A4, S4, A5)
  {
    assert Leads(0x2e8dfc23, 18, 0x383026e4);
    assert Leads(0x383026e4, 30, 0xff3940a);
    assert Leads(0xff3940a, 18, 0x3de94177);
    assert Leads(0x3de94177, 30, 0x128fe807);
    PathFour(Leads, 0x2e8dfc23, 18, 0x383026e4, 30, 0xff3940a, 18, 0x3de94177, 30, 0x128fe807);
  }

  lemma Step5()
    ensures Path(Leads, A5, S5, A6)
  {
    assert Leads(0x128fe807, 11, 0x17d56484);
    assert Leads(0x17d56484, 27, 0x1ad47a99);
    assert Leads(0x1ad47a99, 19, 0x2062ea6);
    assert Leads(0x2062ea6, 4, 0x3baf8376);
    PathFour(Leads, 0x128fe807, 11, 0x17d56484, 27, 0x1ad47a99, 19, 0x2062ea6, 4, 0x3baf8376);
  }

  lemma Step6()
    ensures Path(Leads, A6, S6, A7)
  {
    assert Leads(0x3baf8376, 31, 0x76d71f9);
    assert Leads(0x76d71f9, 10, 0x3094e6f5);
    assert Leads(0x3094e6f5, 4, 0x5ca8fca);
    assert Leads(0x5ca8fca, 3, 0x1f01772e);
    PathFour(Leads, 0x3baf8376, 31, 0x76d71f9, 10, 0x3094e6f5, 4, 0x5ca8fca, 3, 0x1f01772e);
  }

  lemma Step7()
    ensures Path(Leads, A7, S7, A8)
  {
    assert Leads(0x1f01772e, 26, 0x1ef71622);
    assert Leads(0x1ef71622, 4, 0x203b37bc);
    assert Leads(0x203b37bc, 3, 0x2d729530);
    assert Leads(0x2d729530, 30, 0x3cb7533a);
    PathFour(Leads, 0x1f01772e, 26, 0x1ef71622, 4, 0x203b37bc, 3, 0x2d729530, 30, 0x3cb7533a);
  }

  lemma Step8()
    ensures Path(Leads, A8, S8, A9)
  {
    assert Leads(0x3cb7533a, 31, 0x394da1a6);
    assert Leads(0x394da1a6, 7, 0x20437c53);
    assert Leads(0x20437c53, 18, 0x227be8c1);
    assert Leads(0x227be8c1, 21, 0x1e032d34);
    PathFour(Leads, 0x3cb7533a, 31, 0x394da1a6, 7, 0x20437c53, 18, 0x227be8c1, 21, 0x1e032d34);
  }

  lemma Step9()
    ensures Path(Leads, A9, S9, A10)
  {
    assert Leads(0x1e032d34, 16, 0x3ebc5568);
    assert Leads(0x3ebc5568, 17, 0x3473c5a);
    assert Leads(0x3473c5a, 25, 0x138ddceb);
    assert Leads(0x138ddceb, 12, 0x3793f903);
    PathFour(Leads, 0x1e032d34, 16, 0x3ebc5568, 17, 0x3473c5a, 25, 0x138ddceb, 12, 0x3793f903);
  }

  lemma Step10()
    ensures Path(Leads, A10, S10, A11)
  {
    assert Leads(0x3793f903, 9, 0x3813a8d8);
    assert Leads(0x3813a8d8, 26, 0xb82538e);
    assert Leads(0xb82538e, 28, 0x15813f94);
    assert Leads(0x15813f94, 26, 0x2b354f2a);
    PathFour(Leads, 0x3793f903, 9, 0x3813a8d8, 26, 0xb82538e, 28, 0x15813f94, 26, 0x2b354f2a);
  }

  lemma Step11()
    ensures Path(Leads, A11, S11, A12)
  {
    assert Leads(0x2b354f2a, 21, 0x2976c9ae);
    assert Leads(0x2976c9ae, 11, 0x1a6c4e82);
    assert Leads(0x1a6c4e82, 23, 0x1500adc2);
    assert Leads(0x1500adc2, 26, 0x3b0705ea);
    PathFour(Leads, 0x2b354f2a, 21, 0x2976c9ae, 11, 0x1a6c4e82, 23, 0x1500adc2, 26, 0x3b0705ea);
  }

  lemma Step12()
    ensures Path(Leads, A12, S12, A13)
  {
    assert Leads(0x3b0705ea, 8, 0x127da26e);
    assert Leads(0x127da26e, 22, 0x99c29b9);
    assert Leads(0x99c29b9, 14, 0x2d242ed4);
    assert Leads(0x2d242ed4, 16, 0x36602fb4);
    PathFour(Leads, 0x3b0705ea, 8, 0x127da26e, 22, 0x99c29b9, 14, 0x2d242ed4, 16, 0x36602fb4);
  }

  lemma StepFour()
    ensures Path(Leads, A13, [4, 18, 23, 26], 0x28f65c11)
  {
    assert Leads(0x36602fb4, 4, 0x6697e35);
    assert Leads(0x6697e35, 18, 0x10151f6d);
    assert Leads(0x10151f6d, 23, 0x3fe1de6a);
    assert Leads(0x3fe1de6a, 26, 0x28f65c11);
    PathFour(Leads, 0x36602fb4, 4, 0x6697e35, 18, 0x10151f6d, 23, 0x3fe1de6a, 26, 0x28f65c11);
  }

  lemma StepTwo()
    ensures Path(Leads, 0x28f65c11, [14, 26], A14)
  {
    assert Leads(0x28f65c11, 14, 0x2a7ef967);
    PathStep(Leads, 0x28f65c11, 14, 0x2a7ef967);
    assert Leads(0x2a7ef967, 26, 1);
    PathStep(Leads, 0x2a7ef967, 26, 1);
    PathJoin(Leads, 0x28f65c11, [14], 0x2a7ef967, [26], A14);
    assert [14] + [26] == [14, 26];
  }

  lemma Step13()
    ensures Path(Leads, A13, S13, A14)
  {
    StepFour();
    StepTwo();
    PathJoin(Leads, A13, [4, 18, 23, 26], 0x28f65c11, [14, 26], A14);
    assert [4, 18, 23, 26] + [14, 26] == S13;
  }

  const D0 := S0
  const D1 := D0 + S1
  const D2 := D1 + S2
  const D3 := D2 + S3
  const D4 := D3 + S4
  const D5 := D4 + S5
  const D6 := D5 + S6
  const D7 := D6 + S7
  const D8 := D7 + S8
  const D9 := D8 + S9
  const D10 := D9 + S10
  const D11 := D10 + S11
  const D12 := D11 + S12
  const D13 := D12 + S13

  lemma Path1()
    ensures Path(Leads, A0, D1, A2)
  {
    Step0();
    Step1();
    PathJoin(Leads, A0, D0, A1, S1, A2);
  }

  lemma Path2()
    ensures Path(Leads, A0, D2, A3)
  {
    Path1();
    Step2();
    PathJoin(Leads, A0, D1, A2, S2, A3);
  }

  lemma Path3()
    ensures Path(Leads, A0, D3, A4)
  {
    Path2();
    Step3();
    PathJoin(Leads, A0, D2, A3, S3, A4);
  }

  lemma Path4()
    ensures Path(Leads, A0, D4, A5)
  {
    Path3();
    Step4();
    PathJoin(Leads, A0, D3, A4, S4, A5);
  }

  lemma Path5()
    ensures Path(Leads, A0, D5, A6)
  {
    Path4();
    Step5();
    PathJoin(Leads, A0, D4, A5, S5, A6);
  }

  lemma Path6()
    ensures Path(Leads, A0, D6, A7)
  {
    Path5();
    Step6();
    PathJoin(Leads, A0, D5, A6, S6, A7);
  }

  lemma Path7()
    ensures Path(Leads, A0, D7, A8)
  {
    Path6();
    Step7();
    PathJoin(Leads, A0, D6, A7, S7, A8);
  }

  lemma Path8()
    ensures Path(Leads, A0, D8, A9)
  {
    Path7();
    Step8();
    PathJoin(Leads, A0, D7, A8, S8, A9);
  }

  lemma Path9()
    ensures Path(Leads, A0, D9, A10)
  {
    Path8();
    Step9();
    PathJoin(Leads, A0, D8, A9, S9, A10);
  }

  lemma Path10()
    ensures Path(Leads, A0, D10, A11)
  {
    Path9();
    Step10();
    PathJoin(Leads, A0, D9, A10, S10, A11);
  }

  lemma Path11()
    ensures Path(Leads, A0, D11, A12)
  {
    Path10();
    Step11();
    PathJoin(Leads, A0, D10, A11, S11, A12);
  }

  lemma Path12()
    ensures Path(Leads, A0, D12, A13)
  {
    Path11();
    Step12();
    PathJoin(Leads, A0, D11, A12, S12, A13);
  }

  lemma Path13()
    ensures Path(Leads, A0, D13, A14)
  {
    Path12();
    Step13();
    PathJoin(Leads, A0, D12, A13, S13, A14);
  }

  const T0 := "80cv"
  const T1 := T0 + "v07t"
  const T2 := T1 + "jdrr"
  const T3 := T2 + "gpa0"
  const T4 := T3 + "j7j7"
  const T5 := T4 + "tmny"
  const T6 := T5 + "l2yr"
  const T7 := T6 + "6yr7"
  const T8 := T7 + "l8j4"
  const T9 := T8 + "s3ev"
  const T10 := T9 + "f6u6"
  const T11 := T10 + "4th6"
  const T12 := T11 + "gkws"
  const T13 := T12 + "yjh6w6"

  lemma Text0()
    ensures Spells(T0, D0)
  {
  }

  lemma Text1()
    ensures Spells(T1, D1)
  {
    Text0();
    SpellsJoin(T0, D0, "v07t", S1);
  }

  lemma Text2()
    ensures Spells(T2, D2)
  {
    Text1();
    SpellsJoin(T1, D1, "jdrr", S2);
  }

  lemma Text3()
    ensures Spells(T3, D3)
  {
    Text2();
    SpellsJoin(T2, D2, "gpa0", S3);
  }

  lemma Text4()
    ensures Spells(T4, D4)
  {
    Text3();
    SpellsJoin(T3, D3, "j7j7", S4);
  }

  lemma Text5()
    ensures Spells(T5, D5)
  {
    Text4();
    SpellsJoin(T4, D4, "tmny", S5);
  }

  lemma Text6()
    ensures Spells(T6, D6)
  {
    Text5();
    SpellsJoin(T5, D5, "l2yr", S6);
  }

  lemma Text7()
    ensures Spells(T7, D7)
  {
    Text6();
    SpellsJoin(T6, D6, "6yr7", S7);
  }

  lemma Text8()
    ensures Spells(T8, D8)
  {
    Text7();
    SpellsJoin(T7, D7, "l8j4", S8);
  }

  lemma Text9()
    ensures Spells(T9, D9)
  {
    Text8();
    SpellsJoin(T8, D8, "s3ev", S9);
  }

  lemma Text10()
    ensures Spells(T10, D10)
  {
    Text9();
    SpellsJoin(T9, D9, "f6u6", S10);
  }

  lemma Text11()
    ensures Spells(T11, D11)
  {
    Text10();
    SpellsJoin(T10, D10, "4th6", S11);
  }

  lemma Text12()
    ensures Spells(T12, D12)
  {
    Text11();
    SpellsJoin(T11, D11, "gkws", S12);
  }

  lemma Text13()
    ensures Spells(T13, D13)
  {
    Text12();
    SpellsJoin(T12, D12, "yjh6w6", S13);
  }

  const K0: seq<nat> := [0x3b, 0xf0, 0xc6, 0x3f, 0xcb]
  const K1: seq<nat> := [0x93, 0x46, 0x34, 0x07, 0xaf]
  const K2: seq<nat> := [0x97, 0xa5, 0xe5, 0xee, 0x64]
  const K3: seq<nat> := [0xfa, 0x88, 0x3d, 0x10, 0x7e]
  const K4: seq<nat> := [0xf9, 0xe5, 0x58, 0x47, 0x2c]
  const K5: seq<nat> := [0x4e, 0xb9, 0xaa, 0xae, 0xfa]
  const K6: seq<nat> := [0x45, 0x9d]

  const E0 := K0
  const E1 := E0 + K1
  const E2 := E1 + K2
  const E3 := E2 + K3
  const E4 := E3 + K4
  const E5 := E4 + K5
  const KEY := E5 + K6

  lemma Carry0()
    ensures Carries(K0, 8, S0 + S1, 5, [])
  {
    Carry(K0, S0 + S1);
  }

  lemma Carry1()
    ensures Carries(K1, 8, S2 + S3, 5, [])
  {
    Carry(K1, S2 + S3);
  }

  lemma Carry2()
    ensures Carries(K2, 8, S4 + S5, 5, [])
  {
    Carry(K2, S4 + S5);
  }

  lemma Carry3()
    ensures Carries(K3, 8, S6 + S7, 5, [])
  {
    Carry(K3, S6 + S7);
  }

  lemma Carry4()
    ensures Carries(K4, 8, S8 + S9, 5, [])
  {
    Carry(K4, S8 + S9);
  }

  lemma Carry5()
    ensures Carries(K5, 8, S10 + S11, 5, [])
  {
    Carry(K5, S10 + S11);
  }

  lemma Carried1()
    ensures Carries(E1, 8, D3, 5, [])
  {
    Carry0();
    Carry1();
    CarriesBoth(E0, 8, D1, 5, K1, S2, S3);
  }

  lemma Carried2()
    ensures Carries(E2, 8, D5, 5, [])
  {
    Carried1();
    Carry2();
    CarriesBoth(E1, 8, D3, 5, K2, S4, S5);
  }

  lemma Carried3()
    ensures Carries(E3, 8, D7, 5, [])
  {
    Carried2();
    Carry3();
    CarriesBoth(E2, 8, D5, 5, K3, S6, S7);
  }

  lemma Carried4()
    ensures Carries(E4, 8, D9, 5, [])
  {
    Carried3();
    Carry4();
    CarriesBoth(E3, 8, D7, 5, K4, S8, S9);
  }

  lemma Carried5()
    ensures Carries(E5, 8, D11, 5, [])
  {
    Carried4();
    Carry5();
    CarriesBoth(E4, 8, D9, 5, K5, S10, S11);
  }

  lemma Carried6()
    ensures Carries(KEY, 8, D12, 5, Zeros(4))
  {
    Carried5();
    CarryLast(K6, S12);
    CarriesOn(E5, 8, D11, 5, K6, S12, Zeros(4));
  }

  lemma PrefixExpands()
    ensures Expand("npub") == PREFIX
  {
  }

  lemma HrpLower()
    ensures ToLower("npub") == "npub"
  {
  }

  lemma TextDecodes()
    ensures Decode(Join("npub", T13)) == Ok(("npub", D12)) && ToLower(Join("npub", T13)) == Join("npub", T13)
  {
    PrefixExpands();
    HrpLower();
    PrefixPath();
    Path13();
    PathJoin(Leads, 1, PREFIX, A0, D13, 1);
    Text13();
    SpelledDecodes("npub", T13, D13);
    assert D13[..|D13| - 6] == D12;
  }

  const NPUB := "npub1" + T13

  lemma Associate3(a: string, b: string, c: string)
    ensures a + (b + c) == (a + b) + c
  {
  }

  lemma Reads4()
    ensures "npub1" + T4 == "npub180cvv07tjdrrgpa0j7j7"
  {
    Associate3("npub1", T0, "v07t");
    assert "npub180cv" + "v07t" == "npub180cvv07t";
    Associate3("npub1", T1, "jdrr");
    assert "npub180cvv07t" + "jdrr" == "npub180cvv07tjdrr";
    Associate3("npub1", T2, "gpa0");
    assert "npub180cvv07tjdrr" + "gpa0" == "npub180cvv07tjdrrgpa0";
    Associate3("npub1", T3, "j7j7");
    assert "npub180cvv07tjdrrgpa0" + "j7j7" == "npub180cvv07tjdrrgpa0j7j7";
  }

  lemma Reads9()
    ensures "npub1" + T9 == "npub180cvv07tjdrrgpa0j7j7tmnyl2yr6yr7l8j4s3ev"
  {
    Reads4();
    Associate3("npub1", T4, "tmny");
    assert "npub180cvv07tjdrrgpa0j7j7" + "tmny" == "npub180cvv07tjdrrgpa0j7j7tmny";
    Associate3("npub1", T5, "l2yr");
    assert "npub180cvv07tjdrrgpa0j7j7tmny" + "l2yr" == "npub180cvv07tjdrrgpa0j7j7tmnyl2yr";
    Associate3("npub1", T6, "6yr7");
    assert "npub180cvv07tjdrrgpa0j7j7tmnyl2yr" + "6yr7" == "npub180cvv07tjdrrgpa0j7j7tmnyl2yr6yr7";
    Associate3("npub1", T7, "l8j4");
    assert "npub180cvv07tjdrrgpa0j7j7tmnyl2yr6yr7" + "l8j4" == "npub180cvv07tjdrrgpa0j7j7tmnyl2yr6yr7l8j4";
    Associate3("npub1", T8, "s3ev");
    assert "npub180cvv07tjdrrgpa0j7j7tmnyl2yr6yr7l8j4" + "s3ev" == "npub180cvv07tjdrrgpa0j7j7tmnyl2yr6yr7l8j4s3ev";
  }

  lemma NpubReads()
    ensures NPUB == "npub180cvv07tjdrrgpa0j7j7tmnyl2yr6yr7l8j4s3evf6u64th6gkwsyjh6w6"
  {
    Reads9();
    Associate3("npub1", T9, "f6u6");
    assert "npub180cvv07tjdrrgpa0j7j7tmnyl2yr6yr7l8j4s3ev" + "f6u6" == "npub180cvv07tjdrrgpa0j7j7tmnyl2yr6yr7l8j4s3evf6u6";
    Associate3("npub1", T10, "4th6");
    assert "npub180cvv07tjdrrgpa0j7j7tmnyl2yr6yr7l8j4s3evf6u6" + "4th6" == "npub180cvv07tjdrrgpa0j7j7tmnyl2yr6yr7l8j4s3evf6u64th6";
    Associate3("npub1", T11, "gkws");
    assert "npub180cvv07tjdrrgpa0j7j7tmnyl2yr6yr7l8j4s3evf6u64th6" + "gkws" == "npub180cvv07tjdrrgpa0j7j7tmnyl2yr6yr7l8j4s3evf6u64th6gkws";
    Associate3("npub1", T12, "yjh6w6");
    assert "npub180cvv07tjdrrgpa0j7j7tmnyl2yr6yr7l8j4s3evf6u64th6gkws" + "yjh6w6" == "npub180cvv07tjdrrgpa0j7j7tmnyl2yr6yr7l8j4s3evf6u64th6gkwsyjh6w6";
  }

  lemma NpubDecodes()
    ensures Decode(NPUB) == Ok(("npub", D12)) && ToLower(NPUB) == NPUB
  {
    TextDecodes();
    assert Join("npub", T13) == NPUB;
  }

  lemma KeyLength()
    ensures |KEY| == 32
  {
  }

  /** The published string decodes to the published key. */
  lemma PublishedDecodes(validXOnly: seq<nat> -> bool)
    ensures DecodeKey(validXOnly, NPUB) == if validXOnly(KEY) then Ok(KEY) else Err(InvalidPubkey)
  {
    NpubDecodes();
    KeyLength();
    Carried6();
    DecodesTo(validXOnly, NPUB, D12, KEY);
  }

  lemma EncodesBack(validXOnly: seq<nat> -> bool, s: string, k: seq<nat>)
    requires DecodeKey(validXOnly, s) == Ok(k) && ToLower(s) == s
    ensures IsKey(k) && EncodeKey(k) == s
  {
    EncodeKeyDecodeKey(validXOnly, s, k);
  }

  lemma PublishedEncodes()
    ensures IsKey(KEY) && EncodeKey(KEY) == NPUB
  {
    var any: seq<nat> -> bool := k => true;
    PublishedDecodes(any);
    NpubDecodes();
    EncodesBack(any, NPUB, KEY);
  }
}
