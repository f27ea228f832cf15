/** Bech32 (BIP-173) as pkg/fipsaddr/npub.go implements it: the regrouping loop,
    the checksum loop, and string encoding and decoding. */
module Bech32 {
  import opened Bits

  datatype Error =
    | MixedCase | Malformed | BadCharacter | BadChecksum
    | BadGroup | BadPadding | NotNpub | BadLength | InvalidPubkey

  datatype Result<+T> = Ok(value: T) | Err(error: Error)

  // --- regrouping -----------------------------------------------------------

  /** Reference meaning of `convertBits`: read the groups as one bit string and
      cut that string into groups of the other width. */
  function Regroup(data: seq<nat>, fromBits: nat, toBits: nat, pad: bool): (r: Result<seq<nat>>)
    requires toBits > 0
  {
    if !Fits(data, fromBits) then Err(BadGroup)
    else
      var bits := Spread(data, fromBits);
      var groups, rest := Group(bits, toBits), Rest(bits, toBits);
      if pad then Ok(Close(groups, rest, toBits))
      else if |rest| >= fromBits || true in rest then Err(BadPadding)
      else Ok(groups)
  }

  /** A last group for the left-over bits, filled up with zeros. */
  function Close(groups: seq<nat>, rest: seq<bool>, w: nat): (r: seq<nat>)
    requires |rest| < w
  {
    if rest == [] then groups else groups + [FromBits(rest + Zeros(w - |rest|))]
  }

  lemma SpreadClosed(groups: seq<nat>, last: seq<bool>, w: nat)
    requires |last| == w && Fits(groups, w)
    ensures Fits(groups + [FromBits(last)], w) && Spread(groups + [FromBits(last)], w) == Spread(groups, w) + last
  {
    ToFromBits(last);
    SpreadSnoc(groups, FromBits(last), w);
    FitsSnoc(groups, FromBits(last), w);
  }

  lemma Reassociate(a: seq<bool>, b: seq<bool>, c: seq<bool>)
    ensures a + (b + c) == a + b + c && a + [] + Zeros(0) == a
  {
  }

  lemma CloseSpread(groups: seq<nat>, rest: seq<bool>, w: nat)
    requires |rest| < w && Fits(groups, w)
    ensures Fits(Close(groups, rest, w), w)
    ensures Spread(Close(groups, rest, w), w) == Spread(groups, w) + rest + Zeros(if rest == [] then 0 else w - |rest|)
  {
    var zeros := Zeros(w - |rest|);
    Reassociate(Spread(groups, w), rest, zeros);
    if rest != [] {
      SpreadClosed(groups, rest + zeros, w);
    }
  }

  /** The accumulator of `convertBits` is an unmasked uint32: bits shifted past
      position 31 are lost. Its low bits are the ones not yet written out. */
  const WORD := 32

  /** `acc<<k | v`: the shifted word ends in `k` zeros, so the or is an addition. */
  function Push(acc: nat, v: nat, k: nat): nat {
    Mask(ShiftLeft(acc, k) + v, WORD)
  }

  /** `acc>>bits & maxv`. */
  function Take(acc: nat, bits: nat, w: nat): nat {
    Mask(ShiftRight(acc, bits), w)
  }

  /** `acc<<(toBits-bits) & maxv`. */
  function Pad(acc: nat, bits: nat, w: nat): nat
    requires bits <= w
  {
    Mask(Push(acc, 0, w - bits), w)
  }

  lemma PushBits(acc: nat, v: nat, bits: nat, k: nat)
    requires v < Pow2(k) && bits + k <= WORD
    ensures ToBits(Push(acc, v, k), bits + k) == ToBits(acc, bits) + ToBits(v, k)
  {
    var x := ShiftLeft(acc, k) + v;
    JoinBits(acc, v, bits, k);
    TruncateBits(x, WORD, bits + k);
  }

  lemma TakeBits(acc: nat, bits: nat, w: nat)
    ensures ToBits(acc, w + bits) == ToBits(Take(acc, bits, w), w) + ToBits(acc, bits)
    ensures Take(acc, bits, w) < Pow2(w)
  {
    var x := ShiftRight(acc, bits);
    SplitBits(acc, w, bits);
    TruncateBits(x, w, w);
  }

  lemma PadBits(acc: nat, bits: nat, k: nat)
    requires bits + k <= WORD
    ensures ToBits(Pad(acc, bits, bits + k), bits + k) == ToBits(acc, bits) + Zeros(k)
  {
    PushBits(acc, 0, bits, k);
    ZeroBits(k);
    TruncateBits(Push(acc, 0, k), bits + k, bits + k);
  }

  /** The final group holds the pending bits followed by zeros; it is zero
      exactly when no pending bit is set. */
  lemma ValueOfPadded(x: nat, rest: seq<bool>, k: nat, w: nat)
    requires w == |rest| + k && x < Pow2(w)
    requires ToBits(x, w) == rest + Zeros(k)
    ensures x == FromBits(rest + Zeros(k))
    ensures x != 0 <==> true in rest
  {
    FromToBits(x, w);
    ZeroBits(w);
    if x == 0 {
      assert forall i :: 0 <= i < |rest| ==> rest[i] == (rest + Zeros(k))[i];
    }
    if true !in rest {
      forall i | 0 <= i < |rest|
        ensures !rest[i]
      {
        assert rest[i] in rest;
      }
      assert rest + Zeros(k) == Zeros(w);
    }
  }

  /** `whole` is what the groups in `out` and the low `bits` bits of `acc` spell. */
  ghost predicate Spells(whole: seq<bool>, out: seq<nat>, acc: nat, bits: nat, w: nat) {
    Fits(out, w) && whole == Spread(out, w) + ToBits(acc, bits)
  }

  method ConvertBits(data: seq<nat>, fromBits: nat, toBits: nat, pad: bool)
    returns (r: Result<seq<nat>>)
    requires 1 <= fromBits <= 8 && 1 <= toBits <= 8
    ensures r == Regroup(data, fromBits, toBits, pad)
  {
    var ok, out, acc, bits := GatherGroups(data, fromBits, toBits);
    if !ok {
      return Err(BadGroup);
    }
    RegroupIs(data, fromBits, toBits, pad, out, acc, bits);
    if pad {
      if bits > 0 {
        out := out + [Pad(acc, bits, toBits)];
      }
    } else if bits >= fromBits || Pad(acc, bits, toBits) != 0 {
      return Err(BadPadding);
    }
    return Ok(out);
  }

  /** The main loop of `convertBits`; it stops at the first oversized group. */
  method GatherGroups(data: seq<nat>, fromBits: nat, toBits: nat)
    returns (ok: bool, out: seq<nat>, acc: nat, bits: nat)
    requires 1 <= fromBits <= 8 && 1 <= toBits <= 8
    ensures ok <==> Fits(data, fromBits)
    ensures ok ==> bits < toBits && Spells(Spread(data, fromBits), out, acc, bits, toBits)
  {
    out, acc, bits := [], 0, 0;
    var i := 0;
    assert Spells([], out, acc, bits, toBits);
    while i < |data| && data[i] < Pow2(fromBits)
      invariant 0 <= i <= |data| && bits < toBits
      invariant Gathered(data, i, fromBits, out, acc, bits, toBits)
    {
      PushGroup(data, i, fromBits, out, acc, bits, toBits);
      acc := Push(acc, data[i], fromBits);
      bits := bits + fromBits;
      i := i + 1;
      out, bits := Drain(Spread(data[..i], fromBits), out, acc, bits, toBits);
    }
    ok := i == |data|;
    assert ok ==> data[..i] == data;
  }

  /** The state of the loop after `i` groups. */
  ghost predicate Gathered(data: seq<nat>, i: nat, fromBits: nat, out: seq<nat>, acc: nat, bits: nat, toBits: nat)
    requires i <= |data|
  {
    Fits(data[..i], fromBits) && Spells(Spread(data[..i], fromBits), out, acc, bits, toBits)
  }

  lemma PushGroup(data: seq<nat>, i: nat, fromBits: nat, out: seq<nat>, acc: nat, bits: nat, toBits: nat)
    requires i < |data| && data[i] < Pow2(fromBits) && bits + fromBits <= WORD
    requires Gathered(data, i, fromBits, out, acc, bits, toBits)
    ensures Gathered(data, i + 1, fromBits, out, Push(acc, data[i], fromBits), bits + fromBits, toBits)
  {
    assert data[..i + 1] == data[..i] + [data[i]];
    FitsSnoc(data[..i], data[i], fromBits);
    SpreadSnoc(data[..i], data[i], fromBits);
    PushBits(acc, data[i], bits, fromBits);
  }

  lemma SpellsTake(whole: seq<bool>, out: seq<nat>, acc: nat, bits: nat, w: nat)
    requires Spells(whole, out, acc, w + bits, w)
    ensures Spells(whole, out + [Take(acc, bits, w)], acc, bits, w)
  {
    var g := Take(acc, bits, w);
    TakeBits(acc, bits, w);
    SpreadSnoc(out, g, w);
    FitsSnoc(out, g, w);
  }

  /** The inner loop of `convertBits`: write out every complete group. */
  method Drain(ghost whole: seq<bool>, out0: seq<nat>, acc: nat, bits0: nat, toBits: nat)
    returns (out: seq<nat>, bits: nat)
    requires toBits > 0 && Spells(whole, out0, acc, bits0, toBits)
    ensures bits < toBits && Spells(whole, out, acc, bits, toBits)
  {
    out, bits := out0, bits0;
    while bits >= toBits
      invariant Spells(whole, out, acc, bits, toBits)
    {
      bits := bits - toBits;
      SpellsTake(whole, out, acc, bits, toBits);
      out := out + [Take(acc, bits, toBits)];
    }
  }

  lemma RegroupSplit(data: seq<nat>, fromBits: nat, toBits: nat, pad: bool, out: seq<nat>, rest: seq<bool>)
    requires |rest| < toBits && Fits(data, fromBits) && Fits(out, toBits)
    requires Spread(data, fromBits) == Spread(out, toBits) + rest
    ensures Regroup(data, fromBits, toBits, pad) ==
            if pad then Ok(Close(out, rest, toBits))
            else if |rest| >= fromBits || true in rest then Err(BadPadding)
            else Ok(out)
  {
    GroupSpread(out, rest, toBits);
  }

  /** The last group as the loops compute it. */
  lemma PadIs(acc: nat, bits: nat, w: nat)
    requires bits < w <= WORD
    ensures var rest := ToBits(acc, bits);
            && Pad(acc, bits, w) == FromBits(rest + Zeros(w - bits))
            && (Pad(acc, bits, w) != 0 <==> true in rest)
  {
    PadBits(acc, bits, w - bits);
    ValueOfPadded(Pad(acc, bits, w), ToBits(acc, bits), w - bits, w);
  }

  /** The outcome in terms of the bits left over and in terms of the last group. */
  lemma PadDecides(r: Result<seq<nat>>, fromBits: nat, pad: bool, out: seq<nat>, acc: nat, bits: nat, w: nat)
    requires bits < w <= WORD
    requires var rest := ToBits(acc, bits);
             r == if pad then Ok(Close(out, rest, w)) else if |rest| >= fromBits || true in rest then Err(BadPadding) else Ok(out)
    ensures r == if pad then Ok(if bits == 0 then out else out + [Pad(acc, bits, w)])
                 else if bits >= fromBits || Pad(acc, bits, w) != 0 then Err(BadPadding)
                 else Ok(out)
  {
    PadIs(acc, bits, w);
  }

  /** The loops' final state determines the regrouping. */
  lemma RegroupIs(data: seq<nat>, fromBits: nat, toBits: nat, pad: bool, out: seq<nat>, acc: nat, bits: nat)
    requires bits < toBits <= WORD && Fits(data, fromBits)
    requires Spells(Spread(data, fromBits), out, acc, bits, toBits)
    ensures Regroup(data, fromBits, toBits, pad) ==
            if pad then Ok(if bits == 0 then out else out + [Pad(acc, bits, toBits)])
            else if bits >= fromBits || Pad(acc, bits, toBits) != 0 then Err(BadPadding)
            else Ok(out)
  {
    RegroupSplit(data, fromBits, toBits, pad, out, ToBits(acc, bits));
    PadDecides(Regroup(data, fromBits, toBits, pad), fromBits, pad, out, acc, bits, toBits);
  }
}
