/** npub strings (NIP-19 "Bare keys and ids") on top of the regrouping and the
    checksum: pkg/fipsaddr/npub.go. Letters fold as in ASCII. */
module Npub {
  import opened Bits
  import opened Bech32
  import C = Checksum

  const CHARSET := "qpzry9x8gf2tvdw0s3jn54khce6mua7l"
  const HRP := "npub"

  // --- characters -------------------------------------------------------------

  function Lower(c: char): char { if 'A' <= c <= 'Z' then (c as int + 32) as char else c }
  function Upper(c: char): char { if 'a' <= c <= 'z' then (c as int - 32) as char else c }

  function ToLower(s: string): (t: string)
    ensures |t| == |s| && forall i :: 0 <= i < |s| ==> t[i] == Lower(s[i])
  {
    seq(|s|, i requires 0 <= i < |s| => Lower(s[i]))
  }

  function ToUpper(s: string): (t: string)
    ensures |t| == |s| && forall i :: 0 <= i < |s| ==> t[i] == Upper(s[i])
  {
    seq(|s|, i requires 0 <= i < |s| => Upper(s[i]))
  }

  /** The last position of '1', or -1. */
  function LastOne(s: string): (p: int)
    ensures -1 <= p < |s|
    ensures p >= 0 ==> s[p] == '1'
    ensures forall i :: p < i < |s| ==> s[i] != '1'
  {
    if s == "" then -1
    else if s[|s| - 1] == '1' then |s| - 1
    else LastOne(s[..|s| - 1])
  }

  /** The first position of `c` in `t` at or after `from`, or -1. */
  function IndexFrom(t: string, c: char, from: nat): (p: int)
    requires from <= |t|
    ensures p == -1 ==> forall i :: from <= i < |t| ==> t[i] != c
    ensures p != -1 ==> from <= p < |t| && t[p] == c
    decreases |t| - from
  {
    if from == |t| then -1 else if t[from] == c then from else IndexFrom(t, c, from + 1)
  }

  function Symbol(c: char): (v: int)
    ensures v == -1 || (0 <= v < 32 && CHARSET[v] == c)
    ensures v == -1 ==> c !in CHARSET
  {
    IndexFrom(CHARSET, c, 0)
  }

  /** The charset position of a character, written out. */
  function Rank(c: char): nat {
    match c
    case 'q' => 0  case 'p' => 1  case 'z' => 2  case 'r' => 3
    case 'y' => 4  case '9' => 5  case 'x' => 6  case '8' => 7
    case 'g' => 8  case 'f' => 9  case '2' => 10 case 't' => 11
    case 'v' => 12 case 'd' => 13 case 'w' => 14 case '0' => 15
    case 's' => 16 case '3' => 17 case 'j' => 18 case 'n' => 19
    case '5' => 20 case '4' => 21 case 'k' => 22 case 'h' => 23
    case 'c' => 24 case 'e' => 25 case '6' => 26 case 'm' => 27
    case 'u' => 28 case 'a' => 29 case '7' => 30 case 'l' => 31
    case _ => 32
  }

  lemma RankOfCharset(v: nat)
    requires v < 32
    ensures Rank(CHARSET[v]) == v
    ensures CHARSET[v] != '1' && Lower(CHARSET[v]) == CHARSET[v]
  {
  }

  lemma SymbolOfCharset(v: nat)
    requires v < 32
    ensures Symbol(CHARSET[v]) == v
  {
    RankOfCharset(v);
    var p := Symbol(CHARSET[v]);
    assert CHARSET[v] in CHARSET;
    RankOfCharset(p);
  }

  function Chars(data: seq<nat>): (t: string)
    requires Fits(data, 5)
    ensures |t| == |data| && forall i :: 0 <= i < |data| ==> data[i] < 32 && t[i] == CHARSET[data[i]]
  {
    assert Pow2(5) == 32;
    seq(|data|, i requires 0 <= i < |data| => CHARSET[data[i]])
  }

  predicate AllSymbols(t: string) { forall i :: 0 <= i < |t| ==> Symbol(t[i]) >= 0 }

  function Values(t: string): (data: seq<nat>)
    requires AllSymbols(t)
    ensures |data| == |t| && forall i :: 0 <= i < |t| ==> data[i] == Symbol(t[i])
  {
    seq(|t|, i requires 0 <= i < |t| => Symbol(t[i]))
  }

  lemma ValuesOfChars(data: seq<nat>)
    requires Fits(data, 5)
    ensures AllSymbols(Chars(data)) && Values(Chars(data)) == data
    ensures ToLower(Chars(data)) == Chars(data) && '1' !in Chars(data)
  {
    forall i | 0 <= i < |data|
      ensures Symbol(Chars(data)[i]) == data[i]
      ensures Chars(data)[i] != '1' && Lower(Chars(data)[i]) == Chars(data)[i]
    {
      SymbolOfCharset(data[i]);
      RankOfCharset(data[i]);
    }
  }

  lemma CharsOfValues(t: string)
    requires AllSymbols(t)
    ensures Fits(Values(t), 5) && Chars(Values(t)) == t
  {
    assert Pow2(5) == 32;
  }

  // --- bech32 strings -----------------------------------------------------------

  function Expand(hrp: string): (v: seq<nat>) {
    seq(|hrp|, i requires 0 <= i < |hrp| => hrp[i] as int / 32) + [0]
    + seq(|hrp|, i requires 0 <= i < |hrp| => hrp[i] as int % 32)
  }

  /** The checksum register after the prefix and the data. */
  function Register(hrp: string, data: seq<nat>): (w: C.Word) {
    C.Fold(C.Bech32Generators(), C.ONE, Expand(hrp) + data)
  }

  function Closing(hrp: string, data: seq<nat>): (syms: seq<nat>)
    ensures |syms| == 6 && Fits(syms, 5)
  {
    C.ClosingShape(C.Bech32Generators(), Register(hrp, data));
    C.Closing(C.Bech32Generators(), Register(hrp, data))
  }

  function Encode(hrp: string, data: seq<nat>): (s: string)
    requires Fits(data, 5)
  {
    FitsConcat(data, Closing(hrp, data), 5);
    Join(hrp, Chars(data + Closing(hrp, data)))
  }

  function Join(hrp: string, body: string): (s: string) { hrp + "1" + body }

  function Decode(s: string): (r: Result<(string, seq<nat>)>)
  {
    if ToLower(s) != s && ToUpper(s) != s then Err(MixedCase)
    else
      var l := ToLower(s);
      var pos := LastOne(l);
      if pos < 1 || pos + 7 > |l| then Err(Malformed)
      else DecodeBody(l[..pos], l[pos + 1..])
  }

  function DecodeBody(hrp: string, body: string): (r: Result<(string, seq<nat>)>)
    requires |body| >= 6
  {
    if !AllSymbols(body) then Err(BadCharacter)
    else if Register(hrp, Values(body)) != C.ONE then Err(BadChecksum)
    else Ok((hrp, Values(body)[..|body| - 6]))
  }

  /** A message checks out exactly when its last six symbols are its closing. */
  lemma ChecksOut(hrp: string, data: seq<nat>, tail: seq<nat>)
    requires |tail| == 6 && Fits(tail, 5)
    ensures Register(hrp, data + tail) == C.ONE <==> tail == Closing(hrp, data)
  {
    var g := C.Bech32Generators();
    assert Expand(hrp) + (data + tail) == Expand(hrp) + data + tail;
    C.FoldAppend(g, C.ONE, Expand(hrp) + data, tail);
    C.GeneratorsNarrow();
    C.FoldNarrow(g, C.ONE, Expand(hrp) + data);
    C.ClosingUnique(g, Register(hrp, data), tail);
  }

  /** The separator is found again: the body has no '1' of its own. */
  lemma JoinSplits(hrp: string, body: string)
    requires '1' !in body
    ensures LastOne(Join(hrp, body)) == |hrp|
    ensures Join(hrp, body)[..|hrp|] == hrp && Join(hrp, body)[|hrp| + 1..] == body
  {
    var s, p := Join(hrp, body), |hrp|;
    assert forall i :: p < i < |s| ==> s[i] == body[i - p - 1];
    assert s[p] == '1';
  }

  lemma FitsConcat(a: seq<nat>, b: seq<nat>, w: nat)
    requires Fits(a, w) && Fits(b, w)
    ensures Fits(a + b, w)
  {
  }

  lemma DecodeJoin(hrp: string, body: string)
    requires hrp != "" && ToLower(hrp) == hrp && ToLower(body) == body
    requires '1' !in body && |body| >= 6 && AllSymbols(body)
    ensures Decode(Join(hrp, body)) ==
            if Register(hrp, Values(body)) != C.ONE then Err(BadChecksum)
            else Ok((hrp, Values(body)[..|body| - 6]))
  {
    var s := Join(hrp, body);
    assert ToLower(s) == s;
    JoinSplits(hrp, body);
  }

  lemma DecodeEncode(hrp: string, data: seq<nat>)
    requires hrp != "" && ToLower(hrp) == hrp && Fits(data, 5)
    ensures Decode(Encode(hrp, data)) == Ok((hrp, data))
  {
    var tail := Closing(hrp, data);
    FitsConcat(data, tail, 5);
    ValuesOfChars(data + tail);
    DecodeJoin(hrp, Chars(data + tail));
    ChecksOut(hrp, data, tail);
    assert (data + tail)[..|data|] == data;
  }

  /** A message that checks out is its data followed by its closing. */
  lemma ClosedMessage(hrp: string, all: seq<nat>)
    requires |all| >= 6 && Fits(all, 5) && Register(hrp, all) == C.ONE
    ensures all == all[..|all| - 6] + Closing(hrp, all[..|all| - 6])
  {
    var n := |all| - 6;
    assert all == all[..n] + all[n..];
    ChecksOut(hrp, all[..n], all[n..]);
  }

  lemma SplitAt(l: string, pos: nat)
    requires pos < |l| && l[pos] == '1'
    ensures Join(l[..pos], l[pos + 1..]) == l
  {
  }

  lemma DecodeParts(s: string, hrp: string, data: seq<nat>) returns (body: string)
    requires Decode(s) == Ok((hrp, data))
    ensures ToLower(s) == Join(hrp, body)
    ensures |body| >= 6 && AllSymbols(body) && Register(hrp, Values(body)) == C.ONE
    ensures data == Values(body)[..|body| - 6]
  {
    var l := ToLower(s);
    var pos := LastOne(l);
    body := l[pos + 1..];
    SplitAt(l, pos);
  }

  lemma EncodeBody(hrp: string, body: string)
    requires |body| >= 6 && AllSymbols(body) && Register(hrp, Values(body)) == C.ONE
    ensures Fits(Values(body)[..|body| - 6], 5)
    ensures Encode(hrp, Values(body)[..|body| - 6]) == Join(hrp, body)
  {
    CharsOfValues(body);
    ClosedMessage(hrp, Values(body));
  }

  lemma EncodeDecode(s: string, hrp: string, data: seq<nat>)
    requires Decode(s) == Ok((hrp, data))
    ensures Fits(data, 5) && Encode(hrp, data) == ToLower(s)
  {
    var body := DecodeParts(s, hrp, data);
    EncodeBody(hrp, body);
  }

  // --- npub -------------------------------------------------------------------

  predicate IsKey(k: seq<nat>) { |k| == 32 && Fits(k, 8) }

  function EncodeKey(k: seq<nat>): (s: string)
    requires Fits(k, 8)
  {
    RegroupOut(k);
    Encode(HRP, Regroup(k, 8, 5, true).value)
  }

  /** `validXOnly` is the caller's curve check. */
  function DecodeKey(validXOnly: seq<nat> -> bool, s: string): (r: Result<seq<nat>>) {
    match Decode(s)
    case Err(e) => Err(e)
    case Ok((hrp, data)) =>
      if hrp != HRP then Err(NotNpub)
      else match Regroup(data, 5, 8, false)
        case Err(e) => Err(e)
        case Ok(k) =>
          if |k| != 32 then Err(BadLength)
          else if !validXOnly(k) then Err(InvalidPubkey)
          else Ok(k)
  }

  lemma RegroupOut(k: seq<nat>)
    requires Fits(k, 8)
    ensures Regroup(k, 8, 5, true).Ok? && Fits(Regroup(k, 8, 5, true).value, 5)
    ensures exists pad :: 0 <= pad < 5 && Spread(Regroup(k, 8, 5, true).value, 5) == Spread(k, 8) + Zeros(pad)
  {
    var b := Spread(k, 8);
    var groups, rest := Group(b, 5), Rest(b, 5);
    SpreadGroup(b, 5);
    CloseSpread(groups, rest, 5);
    var pad := if rest == [] then 0 else 5 - |rest|;
    assert Spread(Regroup(k, 8, 5, true).value, 5) == b + Zeros(pad);
  }

  /** 8 to 5 to 8 is the identity on whole keys. */
  lemma RegroupBack(k: seq<nat>)
    requires Fits(k, 8) && |k| == 32
    ensures Regroup(k, 8, 5, true).Ok?
    ensures Regroup(Regroup(k, 8, 5, true).value, 5, 8, false) == Ok(k)
  {
    RegroupOut(k);
    var data := Regroup(k, 8, 5, true).value;
    var pad :| 0 <= pad < 5 && Spread(data, 5) == Spread(k, 8) + Zeros(pad);
    GroupSpread(k, Zeros(pad), 8);
  }

  /** 5 to 8 to 5 is the identity whenever the way out succeeds with 32 bytes. */
  lemma RegroupForth(data: seq<nat>, k: seq<nat>)
    requires Fits(data, 5) && Regroup(data, 5, 8, false) == Ok(k) && |k| == 32
    ensures Fits(k, 8) && Regroup(k, 8, 5, true) == Ok(data)
  {
    var b := Spread(data, 5);
    var rest := Rest(b, 8);
    SpreadGroup(b, 8);
    NoneSet(rest);
    RegroupOut(k);
    var out := Regroup(k, 8, 5, true).value;
    var pad :| 0 <= pad < 5 && Spread(out, 5) == Spread(k, 8) + Zeros(pad);
    SpreadLength(k, 8);
    SpreadLength(data, 5);
    SpreadLength(out, 5);
    assert |rest| == pad;
    GroupSpread(out, [], 5);
    GroupSpread(data, [], 5);
    assert Spread(out, 5) == Spread(data, 5);
  }

  lemma NoneSet(b: seq<bool>)
    requires true !in b
    ensures b == Zeros(|b|)
  {
    forall i | 0 <= i < |b|
      ensures !b[i]
    {
      assert b[i] in b;
    }
  }

  /** Every key the curve check accepts survives encoding; any other is refused. */
  lemma DecodeKeyEncodeKey(validXOnly: seq<nat> -> bool, k: seq<nat>)
    requires IsKey(k)
    ensures DecodeKey(validXOnly, EncodeKey(k)) == if validXOnly(k) then Ok(k) else Err(InvalidPubkey)
  {
    RegroupOut(k);
    RegroupBack(k);
    DecodeEncode(HRP, Regroup(k, 8, 5, true).value);
  }

  /** Every accepted string is the encoding of its key, up to case. */
  lemma EncodeKeyDecodeKey(validXOnly: seq<nat> -> bool, s: string, k: seq<nat>)
    requires DecodeKey(validXOnly, s) == Ok(k)
    ensures IsKey(k) && validXOnly(k) && EncodeKey(k) == ToLower(s)
  {
    var data := Decode(s).value.1;
    EncodeDecode(s, HRP, data);
    RegroupForth(data, k);
  }

  /** Two accepted strings name the same key exactly when they agree up to case,
      which is what storing npubs in lower case relies on. */
  lemma SameKeySameText(validXOnly: seq<nat> -> bool, s: string, t: string, j: seq<nat>, k: seq<nat>)
    requires DecodeKey(validXOnly, s) == Ok(j) && DecodeKey(validXOnly, t) == Ok(k)
    ensures j == k <==> ToLower(s) == ToLower(t)
  {
    EncodeKeyDecodeKey(validXOnly, s, j);
    EncodeKeyDecodeKey(validXOnly, t, k);
    DecodeKeyEncodeKey(validXOnly, j);
    DecodeKeyEncodeKey(validXOnly, k);
  }

  // --- the loops of the source ------------------------------------------------

  method HrpExpand(hrp: string) returns (out: seq<nat>)
    ensures out == Expand(hrp)
  {
    out := [];
    for i := 0 to |hrp|
      invariant out == seq(i, j requires 0 <= j < i => hrp[j] as int / 32)
    {
      out := out + [hrp[i] as int / 32];
    }
    ghost var high := out;
    out := out + [0];
    for i := 0 to |hrp|
      invariant out == high + [0] + seq(i, j requires 0 <= j < i => hrp[j] as int % 32)
    {
      out := out + [hrp[i] as int % 32];
    }
  }

  method WriteSymbols(data: seq<nat>) returns (t: string)
    requires Fits(data, 5)
    ensures t == Chars(data)
  {
    assert Pow2(5) == 32;
    t := "";
    for i := 0 to |data|
      invariant |t| == i && forall j :: 0 <= j < i ==> t[j] == Chars(data)[j]
    {
      t := t + [CHARSET[data[i]]];
    }
  }

  /** The six symbols `(polymod >> 5*(5-i)) & 31`. */
  method ClosingSymbols(p: C.Word) returns (syms: seq<nat>)
    ensures syms == Group(p[2..], 5)
  {
    var b := p[2..];
    syms := [];
    for i := 0 to 6
      invariant |syms| == i && i <= |Group(b, 5)| && syms == Group(b, 5)[..i]
    {
      GroupAt(b, i);
      syms := syms + [FromBits(b[5 * i..5 * i + 5])];
    }
    SpreadGroup(b, 5);
    SpreadLength(Group(b, 5), 5);
  }

  method Bech32Encode(hrp: string, data: seq<nat>) returns (s: string)
    requires Fits(data, 5)
    ensures s == Encode(hrp, data)
  {
    var g := C.Bech32Generators();
    var values := HrpExpand(hrp);
    values := values + data;
    C.FoldAppend(g, C.ONE, values, C.Blank(6));
    var p := C.Polymod(g, values + C.Blank(6));
    var tail := ClosingSymbols(C.Xor(p, C.ONE));
    assert tail == Closing(hrp, data);
    FitsConcat(data, tail, 5);
    var body := WriteSymbols(data + tail);
    s := hrp + "1" + body;
  }

  /** The groups of a bit string, by position. */
  lemma {:induction false} GroupAt(b: seq<bool>, i: nat)
    requires 5 * i + 5 <= |b|
    ensures i < |Group(b, 5)| && Group(b, 5)[i] == FromBits(b[5 * i..5 * i + 5])
    decreases i
  {
    if i > 0 {
      GroupAt(b[5..], i - 1);
      assert b[5..][5 * (i - 1)..5 * (i - 1) + 5] == b[5 * i..5 * i + 5];
    }
  }

  method ReadSymbols(body: string) returns (ok: bool, data: seq<nat>)
    ensures ok <==> AllSymbols(body)
    ensures ok ==> data == Values(body)
  {
    data := [];
    for i := 0 to |body|
      invariant |data| == i && forall j :: 0 <= j < i ==> Symbol(body[j]) >= 0 && data[j] == Symbol(body[j])
    {
      var idx := Symbol(body[i]);
      if idx < 0 {
        return false, [];
      }
      data := data + [idx];
    }
    ok := true;
  }

  method Bech32Decode(s: string) returns (r: Result<(string, seq<nat>)>)
    ensures r == Decode(s)
  {
    if ToLower(s) != s && ToUpper(s) != s {
      return Err(MixedCase);
    }
    var l := ToLower(s);
    var pos := LastOne(l);
    if pos < 1 || pos + 7 > |l| {
      return Err(Malformed);
    }
    r := CheckBody(l[..pos], l[pos + 1..]);
  }

  method CheckBody(hrp: string, body: string) returns (r: Result<(string, seq<nat>)>)
    requires |body| >= 6
    ensures r == DecodeBody(hrp, body)
  {
    var ok, data := ReadSymbols(body);
    if !ok {
      return Err(BadCharacter);
    }
    var expanded := HrpExpand(hrp);
    var chk := C.Polymod(C.Bech32Generators(), expanded + data);
    if chk != C.ONE {
      return Err(BadChecksum);
    }
    return Ok((hrp, data[..|data| - 6]));
  }

  method EncodeNpub(pubkey: seq<nat>) returns (s: string)
    requires IsKey(pubkey)
    ensures s == EncodeKey(pubkey)
  {
    RegroupOut(pubkey);
    var data := ConvertBits(pubkey, 8, 5, true);
    s := Bech32Encode(HRP, data.value);
  }

  method DecodeNpub(validXOnly: seq<nat> -> bool, npub: string) returns (r: Result<seq<nat>>)
    ensures r == DecodeKey(validXOnly, npub)
  {
    var decoded := Bech32Decode(npub);
    if decoded.Err? {
      return Err(decoded.error);
    }
    var (hrp, data) := decoded.value;
    if hrp != HRP {
      return Err(NotNpub);
    }
    var payload := ConvertBits(data, 5, 8, false);
    if payload.Err? {
      return Err(payload.error);
    }
    if |payload.value| != 32 {
      return Err(BadLength);
    }
    if !validXOnly(payload.value) {
      return Err(InvalidPubkey);
    }
    return Ok(payload.value);
  }
}
