/**
 * Packed decimals: groups of up to nine digits, big-endian, the partial groups in fewer bytes; a negative number is
 * complemented, and the top bit of the first byte is flipped so that byte order is numeric order.
 */
module Decimals {
  import opened Numbers
  import opened Memory
  import opened Values

  const DIG_BASE: nat := 1_000_000_000
  const E_DEC_OK := 0
  const E_DEC_TRUNCATED := 1
  const E_DEC_OVERFLOW := 2
  const E_DEC_ERROR := 31
  const BUFFER_WORDS: nat := 512

  /** A leading partial group, a group of nine digits, a trailing partial group. */
  datatype Group = Lead(d: nat) | Full | Trail(d: nat) {
    predicate Ok() { Full? || 1 <= d <= 8 }
    function Digits(): nat { if Full? then 9 else d }
    function Width(): nat { DigitBytes(Digits()) }
  }

  function Fulls(n: nat): seq<Group> { seq(n, _ => Full) }

  function IntGroups(intg: nat): seq<Group> {
    (if intg % 9 > 0 then [Lead(intg % 9)] else []) + Fulls(intg / 9)
  }

  function FracGroups(scale: nat): seq<Group> {
    Fulls(scale / 9) + (if scale % 9 > 0 then [Trail(scale % 9)] else [])
  }

  function Groups(precision: nat, scale: nat): seq<Group>
    requires scale <= precision
  {
    IntGroups(precision - scale) + FracGroups(scale)
  }

  predicate GroupsOk(gs: seq<Group>) { forall g | g in gs :: g.Ok() }

  function TotalDigits(gs: seq<Group>): nat { if gs == [] then 0 else gs[0].Digits() + TotalDigits(gs[1..]) }

  function TotalWidth(gs: seq<Group>): nat { if gs == [] then 0 else gs[0].Width() + TotalWidth(gs[1..]) }

  // ---------------------------------------------------------------- decoding

  function FlipByte(b: byte): byte { if b >= 128 then b - 128 else b + 128 }

  /** The `k` bytes at `p`, the first with its top bit flipped when it is the first of the field. */
  function Raw(m: seq<byte>, p: nat, k: nat, first: bool): seq<byte> {
    var bs := Slice(m, p, k);
    if first && k > 0 then [FlipByte(bs[0])] + bs[1..] else bs
  }

  /** The two's-complement big-endian reads `mi_sint1korr` .. `mi_sint4korr`. */
  function SignedBE(bs: seq<byte>): int {
    Val(256, bs) - (if bs != [] && bs[0] >= 128 then Pow(256, |bs|) else 0)
  }

  /** `x ^ mask`, the mask being 0 or -1. */
  function XorMask(x: int, neg: bool): int { if neg then -1 - x else x }

  function Wrap32(x: int): int {
    var u := x % TWO32;
    if u >= 0x8000_0000 then u - TWO32 else u
  }

  function Word(g: Group, bs: seq<byte>, neg: bool): int {
    var x := XorMask(SignedBE(bs), neg);
    if g.Trail? && g.d <= 9 then Wrap32(x * Pow(10, 9 - g.d)) else x
  }

  /** A leading group is checked against one digit more than it has. */
  predicate Accepts(g: Group, w: int) {
    if g.Lead? then 0 <= w < Pow(10, g.d + 1) else 0 <= w < DIG_BASE
  }

  function Words(gs: seq<Group>, m: seq<byte>, p: nat, first: bool, neg: bool): (ws: seq<int>)
    ensures |ws| == |gs|
  {
    if gs == [] then []
    else [Word(gs[0], Raw(m, p, gs[0].Width(), first), neg)] + Words(gs[1..], m, p + gs[0].Width(), false, neg)
  }

  predicate AllAccepted(gs: seq<Group>, ws: seq<int>)
    requires |gs| == |ws|
  {
    forall i | 0 <= i < |gs| :: Accepts(gs[i], ws[i])
  }

  function Append(kept: seq<int>, w: int): seq<int> { if kept == [] && w == 0 then [] else kept + [w] }

  /** The integer words without the zero words in front. */
  function Kept(ws: seq<int>): (k: seq<int>)
    ensures |k| <= |ws|
  {
    if ws == [] then [] else Append(Kept(ws[..|ws| - 1]), ws[|ws| - 1])
  }

  datatype Decimal = Decimal(sign: bool, intg: nat, frac: nat, words: seq<int>)

  function Decode(m: seq<byte>, p: nat, precision: nat, scale: nat): Option<Decimal>
    requires scale <= precision
  {
    var neg, gi, gs := At(m, p) < 128, IntGroups(precision - scale), Groups(precision, scale);
    var ws := Words(gs, m, p, true, neg);
    if !AllAccepted(gs, ws) then None
    else
      var kept := Kept(ws[..|gi|]);
      Some(Decimal(neg, TotalDigits(gi[|gi| - |kept|..]), scale, kept + ws[|gi|..]))
  }

  // ---------------------------------------------------------------- groups

  lemma {:induction false} TotalConcat(gs: seq<Group>, hs: seq<Group>)
    ensures TotalDigits(gs + hs) == TotalDigits(gs) + TotalDigits(hs)
    ensures TotalWidth(gs + hs) == TotalWidth(gs) + TotalWidth(hs)
  {
    if gs == [] {
      assert gs + hs == hs;
    } else {
      TotalConcat(gs[1..], hs);
      assert (gs + hs)[1..] == gs[1..] + hs;
    }
  }

  lemma {:induction false} TotalFulls(n: nat)
    ensures TotalDigits(Fulls(n)) == 9 * n && TotalWidth(Fulls(n)) == 4 * n
  {
    if n > 0 {
      TotalFulls(n - 1);
      assert Fulls(n)[1..] == Fulls(n - 1);
    }
  }

  lemma TotalOne(g: Group)
    ensures TotalDigits([g]) == g.Digits() && TotalWidth([g]) == g.Width()
  {
    assert [g][1..] == [];
  }

  /** The integer groups hold the integer digits, in as many words as the buffer is asked for. */
  lemma IntGroupsOk(intg: nat)
    ensures var gs := IntGroups(intg);
      && GroupsOk(gs) && TotalDigits(gs) == intg && |gs| == (intg + 8) / 9
      && TotalWidth(gs) == 4 * (intg / 9) + DigitBytes(intg % 9)
  {
    TotalFulls(intg / 9);
    var lead := if intg % 9 > 0 then [Lead(intg % 9)] else [];
    TotalConcat(lead, Fulls(intg / 9));
    TotalOne(Lead(intg % 9));
  }

  lemma FracGroupsOk(scale: nat)
    ensures var gs := FracGroups(scale);
      && GroupsOk(gs) && TotalDigits(gs) == scale && |gs| == (scale + 8) / 9
      && TotalWidth(gs) == 4 * (scale / 9) + DigitBytes(scale % 9)
  {
    TotalFulls(scale / 9);
    var trail := if scale % 9 > 0 then [Trail(scale % 9)] else [];
    TotalConcat(Fulls(scale / 9), trail);
    TotalOne(Trail(scale % 9));
  }

  /** The field is as wide as `calc_field_size` says, and its words always fit the buffer. */
  lemma DecimalExtent(precision: nat, scale: nat)
    requires scale <= precision
    ensures var gs := Groups(precision, scale);
      && GroupsOk(gs) && TotalDigits(gs) == precision
      && TotalWidth(gs) == DecimalSize(precision, scale)
      && |gs| == (precision - scale + 8) / 9 + (scale + 8) / 9
      && (precision <= 255 ==> |gs| < BUFFER_WORDS)
  {
    hide *;
    GroupsAre(precision, scale);
    var gi, gf := IntGroups(precision - scale), FracGroups(scale);
    IntGroupsOk(precision - scale);
    FracGroupsOk(scale);
    JoinExtent(gi, gf);
    DecimalSizeParts(precision, scale);
    FitsBuffer(precision, scale);
  }

  lemma JoinExtent(gs: seq<Group>, hs: seq<Group>)
    requires GroupsOk(gs) && GroupsOk(hs)
    ensures GroupsOk(gs + hs) && |gs + hs| == |gs| + |hs|
    ensures TotalDigits(gs + hs) == TotalDigits(gs) + TotalDigits(hs)
    ensures TotalWidth(gs + hs) == TotalWidth(gs) + TotalWidth(hs)
  {
    hide TotalDigits, TotalWidth, Group.Ok;
    TotalConcat(gs, hs);
  }

  lemma FitsBuffer(precision: nat, scale: nat)
    requires scale <= precision
    ensures precision <= 255 ==> (precision - scale + 8) / 9 + (scale + 8) / 9 < BUFFER_WORDS
  {
  }

  // ---------------------------------------------------------------- complementing

  function Complement(bs: seq<byte>): seq<byte> { seq<byte>(|bs|, i requires 0 <= i < |bs| => 255 - bs[i]) }

  lemma {:induction false} ValComplement(bs: seq<byte>)
    ensures Val(256, Complement(bs)) == Pow(256, |bs|) - 1 - Val(256, bs)
  {
    if bs != [] {
      var n := |bs| - 1;
      ValComplement(bs[..n]);
      assert Complement(bs)[..n] == Complement(bs[..n]);
    }
  }

  lemma WordComplement(g: Group, bs: seq<byte>, neg: bool)
    requires bs != []
    ensures Word(g, Complement(bs), !neg) == Word(g, bs, neg)
  {
    ValComplement(bs);
    assert SignedBE(Complement(bs)) == -1 - SignedBE(bs);
  }

  lemma ComplementConcat(bs: seq<byte>, cs: seq<byte>)
    ensures Complement(bs + cs) == Complement(bs) + Complement(cs)
  {
  }

  /** `m'` holds the complement of the `n` bytes at `p`. */
  ghost predicate Complemented(m: seq<byte>, m': seq<byte>, p: nat, n: nat) {
    Slice(m', p, n) == Complement(Slice(m, p, n))
  }

  lemma ComplementedSplit(m: seq<byte>, m': seq<byte>, p: nat, j: nat, k: nat)
    requires Complemented(m, m', p, j + k)
    ensures Complemented(m, m', p, j) && Complemented(m, m', p + j, k)
  {
    hide Slice, Complement;
    SliceSplit(m, p, j, k);
    SliceSplit(m', p, j, k);
    ComplementConcat(Slice(m, p, j), Slice(m, p + j, k));
    var u, v := Slice(m', p, j), Slice(m', p + j, k);
    var w := Complement(Slice(m, p, j)) + Complement(Slice(m, p + j, k));
    ComplementLength(Slice(m, p, j));
    assert u == (u + v)[..j] && v == (u + v)[j..];
    assert w[..j] == Complement(Slice(m, p, j)) && w[j..] == Complement(Slice(m, p + j, k));
  }

  lemma ComplementLength(bs: seq<byte>)
    ensures |Complement(bs)| == |bs|
  {
  }

  lemma RawComplement(m: seq<byte>, m': seq<byte>, p: nat, k: nat, first: bool)
    requires Complemented(m, m', p, k)
    ensures Raw(m', p, k, first) == Complement(Raw(m, p, k, first))
  {
    hide Slice;
    var bs := Slice(m, p, k);
    if first && k > 0 {
      assert Complement(bs)[0] == 255 - bs[0];
      assert Complement(bs)[1..] == Complement(bs[1..]);
    }
  }

  lemma {:induction false} WordsComplement(gs: seq<Group>, m: seq<byte>, m': seq<byte>, p: nat, first: bool, neg: bool)
    requires GroupsOk(gs) && Complemented(m, m', p, TotalWidth(gs))
    ensures Words(gs, m', p, first, !neg) == Words(gs, m, p, first, neg)
  {
    if gs != [] {
      hide Raw, Word, Complemented;
      var k := gs[0].Width();
      assert gs[0] in gs && k >= 1;
      ComplementedSplit(m, m', p, k, TotalWidth(gs[1..]));
      RawComplement(m, m', p, k, first);
      RawLength(m, p, k, first);
      WordComplement(gs[0], Raw(m, p, k, first), neg);
      WordsComplement(gs[1..], m, m', p + k, false, neg);
    }
  }

  lemma RawLength(m: seq<byte>, p: nat, k: nat, first: bool)
    ensures |Raw(m, p, k, first)| == k
  {
  }

  /** Complementing the bytes of a field, whatever they are, flips the sign and nothing else. */
  lemma ComplementSymmetry(m: seq<byte>, m': seq<byte>, p: nat, precision: nat, scale: nat)
    requires scale <= precision && 1 <= precision
    requires Complemented(m, m', p, DecimalSize(precision, scale))
    ensures var r, r' := Decode(m, p, precision, scale), Decode(m', p, precision, scale);
      r' == if r.None? then None else Some(r.value.(sign := !r.value.sign))
  {
    DecimalExtent(precision, scale);
    DecimalSizePositive(precision, scale);
    WordsComplement(Groups(precision, scale), m, m', p, true, At(m, p) < 128);
    assert Slice(m', p, DecimalSize(precision, scale))[0] == 255 - Slice(m, p, DecimalSize(precision, scale))[0];
  }

  // ---------------------------------------------------------------- stripping

  function Zeros(n: nat): seq<int> { seq(n, _ => 0) }

  /** Only zero words are stripped, and the first word kept is not zero. */
  lemma {:induction false} KeptIsSuffix(ws: seq<int>)
    ensures ws == Zeros(|ws| - |Kept(ws)|) + Kept(ws)
    ensures Kept(ws) != [] ==> Kept(ws)[0] != 0
  {
    if ws != [] {
      var n := |ws| - 1;
      KeptIsSuffix(ws[..n]);
      assert ws == ws[..n] + [ws[n]];
    }
  }

  lemma KeptValue(b: nat, ws: seq<int>)
    ensures Val(b, Kept(ws)) == Val(b, ws)
  {
    KeptIsSuffix(ws);
    ValConcat(b, Zeros(|ws| - |Kept(ws)|), Kept(ws));
    ValZeros(b, |ws| - |Kept(ws)|);
  }

  // ---------------------------------------------------------------- encoding

  function BEBytes(v: nat, k: nat): (s: seq<byte>)
    ensures |s| == k
    decreases k
  {
    if k == 0 then [] else BEBytes(v / 256, k - 1) + [v % 256]
  }

  lemma {:induction false} BEValue(v: nat, k: nat)
    requires v < Pow(256, k)
    ensures Val(256, BEBytes(v, k)) == v
    decreases k
  {
    if k > 0 {
      BEValue(v / 256, k - 1);
      assert BEBytes(v, k)[..k - 1] == BEBytes(v / 256, k - 1);
    }
  }

  /** The digits, group by group, before complement and flip. */
  function Plain(gs: seq<Group>, ds: seq<int>): (s: seq<byte>)
    requires |ds| == TotalDigits(gs) && Digits(10, ds)
    ensures |s| == TotalWidth(gs)
  {
    if gs == [] then []
    else
      var d := gs[0].Digits();
      ValBound(10, ds[..d]);
      BEBytes(Val(10, ds[..d]), gs[0].Width()) + Plain(gs[1..], ds[d..])
  }

  function FlipFirst(bs: seq<byte>): seq<byte> { if bs == [] then [] else [FlipByte(bs[0])] + bs[1..] }

  function Signed(neg: bool, bs: seq<byte>): seq<byte> { if neg then Complement(bs) else bs }

  /** The packed form of the number with digits `ds`, the last `scale` of them after the point. */
  function Encode(neg: bool, ds: seq<int>, scale: nat): seq<byte>
    requires scale <= |ds| && Digits(10, ds)
  {
    DecimalExtent(|ds|, scale);
    FlipFirst(Signed(neg, Plain(Groups(|ds|, scale), ds)))
  }

  /** The word a group of digits stands for: a trailing group is shifted to nine digits. */
  function GroupWord(g: Group, cs: seq<int>): int {
    Val(10, cs) * (if g.Trail? && g.d <= 9 then Pow(10, 9 - g.d) else 1)
  }

  function PlainWords(gs: seq<Group>, ds: seq<int>): (ws: seq<int>)
    requires |ds| == TotalDigits(gs)
    ensures |ws| == |gs|
  {
    if gs == [] then []
    else
      var d := gs[0].Digits();
      [GroupWord(gs[0], ds[..d])] + PlainWords(gs[1..], ds[d..])
  }

  /** A group's digits leave the top bit of its bytes free. */
  lemma GroupFits(g: Group)
    requires g.Ok()
    ensures 1 <= g.Width() <= 4 && 2 * Pow(10, g.Digits()) <= Pow(256, g.Width())
  {
    var d := g.Digits();
    assert Pow(10, 1) == 10 && Pow(10, 2) == 100 && Pow(10, 3) == 1000 && Pow(10, 4) == 10000;
    assert Pow(10, 5) == 100000 && Pow(10, 6) == 1000000 && Pow(10, 7) == 10000000 && Pow(10, 8) == 100000000;
    assert Pow(10, 9) == 1000000000;
    Pow256Values();
  }

  // ---------------------------------------------------------------- reading back

  /** `bs` is stored at `p`, its first byte flipped when `p` is the start of the field. */
  ghost predicate Stored(m: seq<byte>, p: nat, bs: seq<byte>, first: bool) {
    Holds(m, p, if first then FlipFirst(bs) else bs)
  }

  lemma FlipConcat(bs: seq<byte>, cs: seq<byte>)
    requires bs != []
    ensures FlipFirst(bs + cs) == FlipFirst(bs) + cs && |FlipFirst(bs)| == |bs| && FlipFirst(FlipFirst(bs)) == bs
  {
    assert (bs + cs)[1..] == bs[1..] + cs;
    assert [FlipByte(bs[0])] + (bs[1..] + cs) == ([FlipByte(bs[0])] + bs[1..]) + cs;
    assert bs == [bs[0]] + bs[1..];
  }

  lemma RawOf(m: seq<byte>, p: nat, bs: seq<byte>, first: bool)
    requires bs != [] && Holds(m, p, if first then FlipFirst(bs) else bs)
    ensures Raw(m, p, |bs|, first) == bs
  {
    hide Slice, Holds;
    FlipConcat(bs, []);
    HoldsSlice(m, p, if first then FlipFirst(bs) else bs);
  }

  lemma StoredSplit(m: seq<byte>, p: nat, bs: seq<byte>, cs: seq<byte>, first: bool)
    requires Stored(m, p, bs + cs, first) && bs != []
    ensures Raw(m, p, |bs|, first) == bs
    ensures Stored(m, p + |bs|, cs, false)
  {
    hide Slice, Holds, Raw, FlipFirst;
    FlipConcat(bs, cs);
    HoldsConcat(m, p, if first then FlipFirst(bs) else bs, cs);
    RawOf(m, p, bs, first);
  }

  lemma SignedConcat(neg: bool, bs: seq<byte>, cs: seq<byte>)
    ensures Signed(neg, bs + cs) == Signed(neg, bs) + Signed(neg, cs)
    ensures |Signed(neg, bs)| == |bs|
  {
    ComplementConcat(bs, cs);
  }

  lemma TopBitFree(v: nat, k: nat)
    requires 1 <= k && 2 * v < Pow(256, k)
    ensures BEBytes(v, k)[0] < 128
    decreases k
  {
    BEValue(v, k);
    var bs := BEBytes(v, k);
    ValCons(256, bs);
    ValBound(256, bs[1..]);
    var q := Pow(256, k - 1);
    if bs[0] >= 128 {
      MulMono(128, bs[0], q);
    }
  }

  /** A stored group reads back as the number its digits denote. */
  lemma WordRoundTrip(g: Group, v: nat, neg: bool)
    requires g.Ok() && v < Pow(10, g.Digits())
    ensures var w := Word(g, Signed(neg, BEBytes(v, g.Width())), neg);
      w == v * (if g.Trail? then Pow(10, 9 - g.d) else 1) && Accepts(g, w)
  {
    hide BEBytes, Pow, Val, Signed, SignedBE, XorMask, Group.Width;
    GroupFits(g);
    BEValue(v, g.Width());
    TopBitFree(v, g.Width());
    SignedRoundTrip(BEBytes(v, g.Width()), neg);
    GroupBound(g, v);
  }

  lemma SignedRoundTrip(bs: seq<byte>, neg: bool)
    requires bs != [] && bs[0] < 128
    ensures XorMask(SignedBE(Signed(neg, bs)), neg) == Val(256, bs)
  {
    hide Val, Pow;
    ValComplement(bs);
  }

  /** What a group's bytes stand for, complemented or not: a two's-complement number. */
  lemma SignedEither(bs: seq<byte>, neg: bool)
    requires bs != []
    ensures XorMask(SignedBE(Signed(neg, bs)), neg) == SignedBE(bs)
  {
    hide Val, Pow;
    ValComplement(bs);
  }

  lemma TopBitSet(bs: seq<byte>)
    requires bs != []
    ensures bs[0] >= 128 <==> 2 * Val(256, bs) >= Pow(256, |bs|)
  {
    ValCons(256, bs);
    ValBound(256, bs[1..]);
    var p := Pow(256, |bs| - 1);
    assert Pow(256, |bs|) == 256 * p;
    if bs[0] >= 128 {
      MulMono(128, bs[0], p);
    } else {
      MulMono(bs[0], 127, p);
    }
  }

  /**
   * Which bytes of a group are accepted: for nine digits, those of a number below 10^9. A leading group may have one
   * digit more than its width says. A trailing group is scaled to nine digits first, and the product may wrap into
   * range; that of a number of the group's digits does not wrap.
   */
  lemma GroupAccepted(g: Group, bs: seq<byte>, neg: bool)
    requires g.Ok() && |bs| == g.Width()
    ensures var v, w := Val(256, bs), Word(g, Signed(neg, bs), neg);
      && (g.Lead? ==> (Accepts(g, w) <==> v < Pow(10, g.d + 1) && 2 * v < Pow(256, |bs|)))
      && (g.Full? ==> (Accepts(g, w) <==> v < 1_000_000_000))
      && (g.Trail? ==> (Accepts(g, w) <==> SignedBE(bs) * Pow(10, 9 - g.d) % TWO32 < 1_000_000_000))
      && (g.Trail? && v < Pow(10, g.d) ==> Accepts(g, w) && w == v * Pow(10, 9 - g.d))
  {
    hide *;
    GroupFits(g);
    SignedEither(bs, neg);
    TopBitSet(bs);
    ValBound(256, bs);
    SignedIs(bs);
    var v, x := Val(256, bs), SignedBE(bs);
    WordOf(g, bs, neg, x);
    match g {
      case Lead(_) => LeadAccepted(g, x);
      case Full =>
        Pow256Values();
        FullAccepted(x, bs);
      case Trail(_) =>
        TrailAccepted(g, x);
        if v < Pow(10, g.d) {
          FewDigits(g, v, bs);
        }
    }
  }

  lemma WordOf(g: Group, bs: seq<byte>, neg: bool, x: int)
    requires XorMask(SignedBE(Signed(neg, bs)), neg) == x && g.Ok()
    ensures Word(g, Signed(neg, bs), neg) == if g.Trail? then Wrap32(x * Pow(10, 9 - g.d)) else x
  {
    hide Pow, Val, Signed, SignedBE, XorMask, Wrap32;
  }

  lemma LeadAccepted(g: Group, x: int)
    requires g.Lead?
    ensures Accepts(g, x) <==> 0 <= x < Pow(10, g.d + 1)
  {
  }

  lemma FullAccepted(x: int, bs: seq<byte>)
    requires |bs| == Full.Width() && x == (if bs[0] >= 128 then Val(256, bs) - Pow(256, |bs|) else Val(256, bs))
    requires (bs[0] >= 128 <==> 2 * Val(256, bs) >= Pow(256, |bs|)) && 0 <= Val(256, bs) < Pow(256, |bs|)
    ensures Accepts(Full, x) <==> Val(256, bs) < 1_000_000_000
  {
    Pow256Values();
    hide Val, Pow;
  }

  lemma TrailAccepted(g: Group, x: int)
    requires g.Trail? && g.Ok()
    ensures Accepts(g, Wrap32(x * Pow(10, 9 - g.d))) <==> x * Pow(10, 9 - g.d) % TWO32 < 1_000_000_000
  {
    var y := x * Pow(10, 9 - g.d);
    hide Pow;
  }

  lemma FewDigits(g: Group, v: nat, bs: seq<byte>)
    requires g.Trail? && g.Ok() && v < Pow(10, g.d) && |bs| == g.Width() && v == Val(256, bs)
    requires bs[0] >= 128 <==> 2 * v >= Pow(256, |bs|)
    ensures bs[0] < 128 && 0 <= v * Pow(10, 9 - g.d) < 1_000_000_000
    ensures Wrap32(v * Pow(10, 9 - g.d)) == v * Pow(10, 9 - g.d) && Accepts(g, v * Pow(10, 9 - g.d))
  {
    GroupFits(g);
    GroupBound(g, v);
    hide Pow, Val;
    SmallMod(v * Pow(10, 9 - g.d), TWO32);
  }

  lemma SignedIs(bs: seq<byte>)
    requires bs != []
    ensures SignedBE(bs) == if bs[0] >= 128 then Val(256, bs) - Pow(256, |bs|) else Val(256, bs)
  {
  }

  lemma GroupBound(g: Group, v: nat)
    requires g.Ok() && v < Pow(10, g.Digits())
    ensures v * (if g.Trail? then Pow(10, 9 - g.d) else 1) < DIG_BASE
    ensures g.Lead? ==> v < Pow(10, g.d + 1)
  {
    assert Pow(10, 9) == DIG_BASE;
    if g.Trail? {
      PowSum(10, g.d, 9 - g.d);
      MulMono(v + 1, Pow(10, g.d), Pow(10, 9 - g.d));
    } else {
      PowMono(10, g.Digits(), 9);
      PowMono(10, g.Digits(), g.Digits() + 1);
    }
  }

  lemma PlainStep(gs: seq<Group>, ds: seq<int>)
    requires gs != [] && |ds| == TotalDigits(gs) && Digits(10, ds)
    ensures var d := gs[0].Digits();
      && d <= |ds| && |ds[d..]| == TotalDigits(gs[1..]) && Digits(10, ds[..d]) && Digits(10, ds[d..])
      && 0 <= Val(10, ds[..d]) < Pow(10, d)
      && Plain(gs, ds) == BEBytes(Val(10, ds[..d]), gs[0].Width()) + Plain(gs[1..], ds[d..])
      && PlainWords(gs, ds) == [GroupWord(gs[0], ds[..d])] + PlainWords(gs[1..], ds[d..])
  {
    ValBound(10, ds[..gs[0].Digits()]);
    hide BEBytes, GroupWord;
  }

  lemma AcceptedStep(gs: seq<Group>, w: int, ws: seq<int>)
    requires gs != [] && |gs| == 1 + |ws| && Accepts(gs[0], w) && AllAccepted(gs[1..], ws)
    ensures AllAccepted(gs, [w] + ws)
  {
    hide Accepts;
    forall i | 0 <= i < |gs|
      ensures Accepts(gs[i], ([w] + ws)[i])
    {
      if i > 0 {
        assert gs[i] == gs[1..][i - 1];
      }
    }
  }

  lemma WordsStep(gs: seq<Group>, m: seq<byte>, p: nat, first: bool, neg: bool)
    requires gs != []
    ensures Words(gs, m, p, first, neg) ==
      [Word(gs[0], Raw(m, p, gs[0].Width(), first), neg)] + Words(gs[1..], m, p + gs[0].Width(), false, neg)
  {
  }

  lemma PlainWordsStep(gs: seq<Group>, ds: seq<int>)
    requires gs != [] && |ds| == TotalDigits(gs)
    ensures var d := gs[0].Digits();
      && d <= |ds| && |ds[d..]| == TotalDigits(gs[1..])
      && PlainWords(gs, ds) == [GroupWord(gs[0], ds[..d])] + PlainWords(gs[1..], ds[d..])
  {
    hide GroupWord;
  }

  lemma GroupsSplit(gs: seq<Group>)
    requires gs != [] && GroupsOk(gs)
    ensures gs[0].Ok() && GroupsOk(gs[1..])
  {
    assert gs[0] in gs;
  }

  lemma NoGroups(m: seq<byte>, p: nat, first: bool, neg: bool)
    ensures TotalDigits([]) == 0
    ensures Words([], m, p, first, neg) == PlainWords([], []) == [] && AllAccepted([], [])
  {
  }

  lemma ScaleOf(g: Group, cs: seq<int>)
    requires g.Ok()
    ensures GroupWord(g, cs) == Val(10, cs) * (if g.Trail? then Pow(10, 9 - g.d) else 1)
  {
  }

  lemma {:induction false} WordsRoundTrip(gs: seq<Group>, ds: seq<int>, m: seq<byte>, p: nat, first: bool, neg: bool)
    requires GroupsOk(gs) && |ds| == TotalDigits(gs) && Digits(10, ds)
    requires Stored(m, p, Signed(neg, Plain(gs, ds)), first)
    ensures Words(gs, m, p, first, neg) == PlainWords(gs, ds)
    ensures AllAccepted(gs, PlainWords(gs, ds))
  {
    hide *;
    if gs == [] {
      NoGroups(m, p, first, neg);
      return;
    }
    var g, gs' := gs[0], gs[1..];
    PlainStep(gs, ds);
    var d := g.Digits();
    var cs, ds' := ds[..d], ds[d..];
    var here, rest := BEBytes(Val(10, cs), g.Width()), Plain(gs', ds');
    GroupsSplit(gs);
    GroupFits(g);
    SignedConcat(neg, here, rest);
    SignedConcat(neg, rest, []);
    StoredSplit(m, p, Signed(neg, here), Signed(neg, rest), first);
    WordRoundTrip(g, Val(10, cs), neg);
    ScaleOf(g, cs);
    WordsStep(gs, m, p, first, neg);
    WordsRoundTrip(gs', ds', m, p + g.Width(), false, neg);
    AcceptedStep(gs, GroupWord(g, cs), PlainWords(gs', ds'));
  }

  lemma {:induction false} PlainWordsConcat(gs: seq<Group>, hs: seq<Group>, ds: seq<int>, es: seq<int>)
    requires |ds| == TotalDigits(gs) && |es| == TotalDigits(hs)
    ensures |ds + es| == TotalDigits(gs + hs)
    ensures PlainWords(gs + hs, ds + es) == PlainWords(gs, ds) + PlainWords(hs, es)
  {
    hide *;
    TotalConcat(gs, hs);
    if gs == [] {
      NoGroups([], 0, true, true);
      assert gs + hs == hs && ds + es == es && ds == [];
      return;
    }
    PlainWordsStep(gs, ds);
    PlainWordsStep(gs + hs, ds + es);
    var d := gs[0].Digits();
    PlainWordsConcat(gs[1..], hs, ds[d..], es);
    assert (gs + hs)[1..] == gs[1..] + hs && (gs + hs)[0] == gs[0];
    assert (ds + es)[..d] == ds[..d] && (ds + es)[d..] == ds[d..] + es;
  }

  lemma PowPow(k: nat)
    ensures Pow(DIG_BASE, k) == Pow(10, 9 * k)
    decreases k
  {
    if k > 0 {
      PowPow(k - 1);
      PowSum(10, 9, 9 * (k - 1));
      assert Pow(10, 9) == DIG_BASE;
    }
  }

  lemma {:induction false} FullsValue(n: nat, ds: seq<int>)
    requires |ds| == TotalDigits(Fulls(n))
    ensures |ds| == 9 * n && Val(DIG_BASE, PlainWords(Fulls(n), ds)) == Val(10, ds)
  {
    hide *;
    TotalFulls(n);
    if n == 0 {
      NoGroups([], 0, true, true);
      FullsHead(0);
      assert ds == [];
      return;
    }
    FullsHead(n);
    PlainWordsStep(Fulls(n), ds);
    var front, last := ds[..9], ds[9..];
    assert ds == front + last;
    FullsValue(n - 1, last);
    FullWord(front);
    IntJoin(Val(10, front), PlainWords(Fulls(n - 1), last), n - 1, Val(10, last));
    ValConcat(10, front, last);
  }

  lemma FullsHead(n: nat)
    ensures |Fulls(n)| == n
    ensures n > 0 ==> Fulls(n)[0] == Full && Full.Digits() == 9 && Fulls(n)[1..] == Fulls(n - 1)
    ensures forall b: nat :: Val(b, []) == 0
  {
  }

  lemma FullWord(cs: seq<int>)
    ensures GroupWord(Full, cs) == Val(10, cs)
  {
  }

  lemma LeadValue(ds: seq<int>, x: nat)
    requires |ds| == x && 1 <= x <= 8
    ensures |ds| == TotalDigits([Lead(x)]) && PlainWords([Lead(x)], ds) == [Val(10, ds)]
  {
    TotalOne(Lead(x));
    assert ds[..x] == ds && [Lead(x)][1..] == [];
  }

  lemma IntSplit(intg: nat)
    ensures IntGroups(intg) == (if intg % 9 > 0 then [Lead(intg % 9)] else []) + Fulls(intg / 9)
    ensures FracGroups(intg) == Fulls(intg / 9) + (if intg % 9 > 0 then [Trail(intg % 9)] else [])
    ensures Pad(intg) == if intg % 9 > 0 then 9 - intg % 9 else 0
    ensures |Fulls(intg / 9)| == intg / 9
  {
  }

  /** The integer words denote the integer digits. */
  lemma IntValue(ds: seq<int>)
    ensures |ds| == TotalDigits(IntGroups(|ds|))
    ensures Val(DIG_BASE, PlainWords(IntGroups(|ds|), ds)) == Val(10, ds)
  {
    hide *;
    var n, x := |ds| / 9, |ds| % 9;
    IntGroupsOk(|ds|);
    IntSplit(|ds|);
    TotalFulls(n);
    if x == 0 {
      assert [] + Fulls(n) == Fulls(n);
      FullsValue(n, ds);
      return;
    }
    var front, last := ds[..x], ds[x..];
    assert ds == front + last;
    LeadValue(front, x);
    FullsValue(n, last);
    PlainWordsConcat([Lead(x)], Fulls(n), front, last);
    IntJoin(Val(10, front), PlainWords(Fulls(n), last), n, Val(10, last));
    ValConcat(10, front, last);
  }

  lemma IntJoin(v: int, ws: seq<int>, n: nat, w: int)
    requires |ws| == n && Val(DIG_BASE, ws) == w
    ensures Val(DIG_BASE, [v] + ws) == v * Pow(10, 9 * n) + w
  {
    ValCons(DIG_BASE, [v] + ws);
    PowPow(n);
  }

  /** Digits missing from the last fractional word. */
  function Pad(scale: nat): nat { 9 * ((scale + 8) / 9) - scale }

  lemma TrailValue(ds: seq<int>, x: nat)
    requires |ds| == x && 1 <= x <= 8
    ensures |ds| == TotalDigits([Trail(x)])
    ensures PlainWords([Trail(x)], ds) == [Val(10, ds) * Pow(10, 9 - x)]
  {
    TotalOne(Trail(x));
    assert ds[..x] == ds && [Trail(x)][1..] == [];
  }

  /** The fractional words denote the fractional digits, filled up with zeros to whole words. */
  lemma FracValue(ds: seq<int>)
    ensures |ds| == TotalDigits(FracGroups(|ds|))
    ensures Val(DIG_BASE, PlainWords(FracGroups(|ds|), ds)) == Val(10, ds) * Pow(10, Pad(|ds|))
  {
    hide *;
    var n, x := |ds| / 9, |ds| % 9;
    FracGroupsOk(|ds|);
    IntSplit(|ds|);
    TotalFulls(n);
    var k := 9 * n;
    var front, last := ds[..k], ds[k..];
    assert ds == front + last;
    FullsValue(n, front);
    if x == 0 {
      assert Fulls(n) + [] == Fulls(n) && front == ds;
      PowZero(10);
      return;
    }
    TrailValue(last, x);
    PlainWordsConcat(Fulls(n), [Trail(x)], front, last);
    FracJoin(Val(10, front), PlainWords(Fulls(n), front), last, x);
    ValConcat(10, front, last);
  }

  lemma PowZero(b: nat)
    ensures Pow(b, 0) == 1
  {
  }

  lemma FracJoin(v: int, ws: seq<int>, last: seq<int>, x: nat)
    requires v == Val(DIG_BASE, ws) && |last| == x && 1 <= x <= 8
    ensures Val(DIG_BASE, ws + [Val(10, last) * Pow(10, 9 - x)]) == (v * Pow(10, x) + Val(10, last)) * Pow(10, 9 - x)
  {
    var p, w := Pow(10, 9 - x), Val(10, last);
    assert (ws + [w * p])[..|ws|] == ws;
    PowSum(10, x, 9 - x);
    assert Pow(10, 9) == DIG_BASE;
    Distribute(v, Pow(10, x), w, p);
  }

  lemma Distribute(v: int, q: int, w: int, p: int)
    ensures (v * q + w) * p == v * (q * p) + w * p
  {
  }

  lemma FirstByteSign(neg: bool, ds: seq<int>, scale: nat)
    requires scale <= |ds| && 1 <= |ds| && Digits(10, ds)
    ensures var e := Encode(neg, ds, scale); e != [] && (e[0] < 128 <==> neg)
  {
    DecimalExtent(|ds|, scale);
    DecimalSizePositive(|ds|, scale);
    PlainTopBit(Groups(|ds|, scale), ds);
    var bs := Plain(Groups(|ds|, scale), ds);
    assert Signed(neg, bs)[0] == if neg then 255 - bs[0] else bs[0];
  }

  lemma PlainTopBit(gs: seq<Group>, ds: seq<int>)
    requires gs != [] && GroupsOk(gs) && |ds| == TotalDigits(gs) && Digits(10, ds)
    ensures Plain(gs, ds) != [] && Plain(gs, ds)[0] < 128
  {
    var g := gs[0];
    assert g in gs;
    GroupFits(g);
    ValBound(10, ds[..g.Digits()]);
    TopBitFree(Val(10, ds[..g.Digits()]), g.Width());
  }

  lemma ZeroDigits(ds: seq<int>)
    requires Digits(10, ds) && Val(10, ds) == 0
    ensures forall i | 0 <= i < |ds| :: ds[i] == 0
  {
    var zs := Zeros(|ds|);
    ValZeros(10, |ds|);
    LexIsNumeric(10, ds, zs);
    assert ds == zs;
  }

  lemma GroupWordZero(g: Group, cs: seq<int>)
    requires GroupWord(g, cs) == 0 && Digits(10, cs) && g.Ok()
    ensures forall i | 0 <= i < |cs| :: cs[i] == 0
  {
    if g.Trail? {
      MulZero(Val(10, cs), Pow(10, 9 - g.d));
    }
    ZeroDigits(cs);
  }

  lemma MulZero(a: int, b: nat)
    requires 0 < b && a * b == 0
    ensures a == 0
  {
  }

  /** Stripped words are stripped zeros. */
  lemma {:induction false} StrippedZeros(gs: seq<Group>, ds: seq<int>, s: nat)
    requires |ds| == TotalDigits(gs) && Digits(10, ds) && GroupsOk(gs) && s <= |gs|
    requires forall i | 0 <= i < s :: PlainWords(gs, ds)[i] == 0
    ensures TotalDigits(gs) == TotalDigits(gs[..s]) + TotalDigits(gs[s..])
    ensures forall i | 0 <= i < TotalDigits(gs[..s]) :: ds[i] == 0
    decreases s
  {
    hide *;
    assert gs == gs[..s] + gs[s..];
    TotalConcat(gs[..s], gs[s..]);
    if s == 0 {
      NoGroups([], 0, true, true);
      assert gs[..s] == [];
      return;
    }
    var d := gs[0].Digits();
    GroupsSplit(gs);
    PlainStep(gs, ds);
    assert PlainWords(gs, ds)[0] == 0;
    GroupWordZero(gs[0], ds[..d]);
    forall i | 0 <= i < s - 1
      ensures PlainWords(gs[1..], ds[d..])[i] == 0
    {
      assert PlainWords(gs, ds)[i + 1] == PlainWords(gs[1..], ds[d..])[i];
    }
    StrippedZeros(gs[1..], ds[d..], s - 1);
    assert gs[..s] == [gs[0]] + gs[1..][..s - 1];
    TotalConcat([gs[0]], gs[1..][..s - 1]);
    TotalOne(gs[0]);
    forall i | 0 <= i < TotalDigits(gs[..s])
      ensures ds[i] == 0
    {
      if i < d {
        assert ds[..d][i] == ds[i];
      } else {
        assert ds[d..][i - d] == ds[i];
      }
    }
  }

  /** What is left of the integer groups is counted by their digits. */
  lemma KeptCount(intg: nat, s: nat)
    requires s <= |IntGroups(intg)|
    ensures var left := IntGroups(intg)[s..]; |left| == (TotalDigits(left) + 8) / 9
  {
    var gs := IntGroups(intg);
    IntGroupsOk(intg);
    if s == 0 {
      assert gs[0..] == gs;
    } else {
      TotalFulls(|gs| - s);
      assert gs[s..] == Fulls(|gs| - s);
    }
  }

  lemma GroupsAre(precision: nat, scale: nat)
    requires scale <= precision
    ensures Groups(precision, scale) == IntGroups(precision - scale) + FracGroups(scale)
  {
  }

  lemma DigitsSplit(ds: seq<int>, k: nat)
    requires k <= |ds| && Digits(10, ds)
    ensures Digits(10, ds[..k]) && Digits(10, ds[k..])
  {
  }

  lemma EncodeStored(neg: bool, ds: seq<int>, scale: nat, m: seq<byte>, p: nat)
    requires scale <= |ds| && Digits(10, ds) && |ds| == TotalDigits(Groups(|ds|, scale))
    requires Holds(m, p, Encode(neg, ds, scale))
    ensures Stored(m, p, Signed(neg, Plain(Groups(|ds|, scale), ds)), true)
  {
  }

  /** The integer and fractional words of a packed number. */
  lemma PackedWords(neg: bool, ds: seq<int>, scale: nat, m: seq<byte>, p: nat)
    requires scale <= |ds| && 1 <= |ds| && Digits(10, ds)
    requires Holds(m, p, Encode(neg, ds, scale))
    ensures var intg := |ds| - scale; var gi, gs := IntGroups(intg), Groups(|ds|, scale);
      && |ds[..intg]| == TotalDigits(gi) && |ds[intg..]| == TotalDigits(FracGroups(scale))
      && var ws := Words(gs, m, p, true, neg);
        && (At(m, p) < 128 <==> neg) && AllAccepted(gs, ws)
        && ws[..|gi|] == PlainWords(gi, ds[..intg])
        && ws[|gi|..] == PlainWords(FracGroups(scale), ds[intg..])
  {
    hide *;
    var intg := |ds| - scale;
    var gi, gf, gs := IntGroups(intg), FracGroups(scale), Groups(|ds|, scale);
    GroupsAre(|ds|, scale);
    assert ds == ds[..intg] + ds[intg..];
    DigitsSplit(ds, intg);
    IntGroupsOk(intg);
    FracGroupsOk(scale);
    DecimalExtent(|ds|, scale);
    FirstByteSign(neg, ds, scale);
    HoldsAt(m, p, Encode(neg, ds, scale), 0);
    EncodeStored(neg, ds, scale, m, p);
    WordsRoundTrip(gs, ds, m, p, true, neg);
    PlainWordsConcat(gi, gf, ds[..intg], ds[intg..]);
    assert Words(gs, m, p, true, neg) == PlainWords(gi, ds[..intg]) + PlainWords(gf, ds[intg..]);
  }

  /** The number with these digits, in units of the last fractional word. */
  ghost predicate Denotes(r: Decimal, neg: bool, ds: seq<int>, scale: nat)
    requires scale <= |ds|
  {
    var intg, fw := |ds| - scale, (scale + 8) / 9;
    && r.sign == neg && r.frac == scale
    && r.intg <= intg && (forall i | 0 <= i < intg - r.intg :: ds[i] == 0)
    && fw <= |r.words|
    && var iw := |r.words| - fw;
      && iw == (r.intg + 8) / 9 && (iw > 0 ==> r.words[0] != 0)
      && Val(DIG_BASE, r.words[..iw]) == Val(10, ds[..intg])
      && Val(DIG_BASE, r.words[iw..]) == Val(10, ds[intg..]) * Pow(10, Pad(scale))
  }

  /**
   * Round trip: a packed number is accepted, and its sign, scale, integer words and fractional words are exactly those
   * of the number that was packed.
   */
  lemma DecimalRoundTrip(neg: bool, ds: seq<int>, scale: nat, m: seq<byte>, p: nat)
    requires scale <= |ds| && 1 <= |ds| && Digits(10, ds)
    requires Holds(m, p, Encode(neg, ds, scale))
    ensures Decode(m, p, |ds|, scale).Some?
    ensures Denotes(Decode(m, p, |ds|, scale).value, neg, ds, scale)
  {
    hide *;
    var intg, fw := |ds| - scale, (scale + 8) / 9;
    var gi := IntGroups(intg);
    var ws := Words(Groups(|ds|, scale), m, p, true, neg);
    GroupsAre(|ds|, scale);
    IntGroupsOk(intg);
    FracGroupsOk(scale);
    PackedWords(neg, ds, scale, m, p);
    var iws, fws := ws[..|gi|], ws[|gi|..];
    var kept := Kept(iws);
    var s := |gi| - |kept|;
    KeptIsSuffix(iws);
    KeptValue(DIG_BASE, iws);
    DigitsSplit(ds, intg);
    LeadingZeros(iws, s);
    StrippedZeros(gi, ds[..intg], s);
    KeptCount(intg, s);
    IntValue(ds[..intg]);
    FracValue(ds[intg..]);
    DecodeIs(m, p, |ds|, scale, neg);
    Assembled(Decimal(neg, TotalDigits(gi[s..]), scale, kept + fws), neg, ds, scale, kept, fws);
  }

  lemma LeadingZeros(ws: seq<int>, s: nat)
    requires s == |ws| - |Kept(ws)|
    ensures forall i | 0 <= i < s :: ws[i] == 0
  {
    hide Kept;
    KeptIsSuffix(ws);
    forall i | 0 <= i < s
      ensures ws[i] == 0
    {
      assert (Zeros(s) + Kept(ws))[i] == 0;
    }
  }

  lemma DecodeIs(m: seq<byte>, p: nat, precision: nat, scale: nat, neg: bool)
    requires scale <= precision && (At(m, p) < 128 <==> neg)
    requires AllAccepted(Groups(precision, scale), Words(Groups(precision, scale), m, p, true, neg))
    ensures var gi := IntGroups(precision - scale); var ws := Words(Groups(precision, scale), m, p, true, neg);
      && |gi| <= |ws|
      && var kept := Kept(ws[..|gi|]);
        Decode(m, p, precision, scale) ==
          Some(Decimal(neg, TotalDigits(gi[|gi| - |kept|..]), scale, kept + ws[|gi|..]))
  {
    hide Words, AllAccepted, Kept, TotalDigits, IntGroups, FracGroups;
  }

  lemma Assembled(r: Decimal, neg: bool, ds: seq<int>, scale: nat, kept: seq<int>, fws: seq<int>)
    requires scale <= |ds| && r.words == kept + fws && |fws| == (scale + 8) / 9
    requires r.sign == neg && r.frac == scale && |kept| == (r.intg + 8) / 9 && (kept != [] ==> kept[0] != 0)
    requires var intg := |ds| - scale;
      && r.intg <= intg && (forall i | 0 <= i < intg - r.intg :: ds[i] == 0)
      && Val(DIG_BASE, kept) == Val(10, ds[..intg])
      && Val(DIG_BASE, fws) == Val(10, ds[intg..]) * Pow(10, Pad(scale))
    ensures Denotes(r, neg, ds, scale)
  {
    hide Val, Pow, Pad;
    assert r.words[..|kept|] == kept && r.words[|kept|..] == fws;
  }

  // ---------------------------------------------------------------- order

  lemma GroupLex(g: Group, cs: seq<int>, cs': seq<int>)
    requires g.Ok() && |cs| == |cs'| == g.Digits() && Digits(10, cs) && Digits(10, cs')
    ensures 0 <= Val(10, cs) && 0 <= Val(10, cs')
    ensures var b, b' := BEBytes(Val(10, cs), g.Width()), BEBytes(Val(10, cs'), g.Width());
      (LexLess(b, b') <==> LexLess(cs, cs')) && (b == b' <==> cs == cs')
  {
    hide LexLess, Val, BEBytes, Pow;
    ValBound(10, cs);
    ValBound(10, cs');
    GroupFits(g);
    var v, v', w := Val(10, cs), Val(10, cs'), g.Width();
    BEValue(v, w);
    BEValue(v', w);
    LexIsNumeric(10, cs, cs');
    LexIsNumeric(256, BEBytes(v, w), BEBytes(v', w));
  }

  /** The digits of the first group and of the others, and the bytes of the first group. */
  lemma Cut(gs: seq<Group>, ds: seq<int>) returns (c: seq<int>, e: seq<int>, x: seq<int>)
    requires gs != [] && |ds| == TotalDigits(gs) && Digits(10, ds)
    ensures ds == c + e && |c| == gs[0].Digits() && |e| == TotalDigits(gs[1..]) && Digits(10, c) && Digits(10, e)
    ensures 0 <= Val(10, c) && x == BEBytes(Val(10, c), gs[0].Width()) && Plain(gs, ds) == x + Plain(gs[1..], e)
  {
    hide *;
    PlainStep(gs, ds);
    var d := gs[0].Digits();
    c, e, x := ds[..d], ds[d..], BEBytes(Val(10, ds[..d]), gs[0].Width());
  }

  /** Before complement and flip, byte order is digit order. */
  lemma {:induction false} PlainLex(gs: seq<Group>, ds: seq<int>, ds': seq<int>)
    requires GroupsOk(gs) && |ds| == |ds'| == TotalDigits(gs) && Digits(10, ds) && Digits(10, ds')
    ensures LexLess(Plain(gs, ds), Plain(gs, ds')) <==> LexLess(ds, ds')
    ensures Plain(gs, ds) == Plain(gs, ds') <==> ds == ds'
  {
    if gs == [] {
      return;
    }
    hide *;
    GroupsSplit(gs);
    var c, e, x := Cut(gs, ds);
    var c', e', x' := Cut(gs, ds');
    GroupLex(gs[0], c, c');
    PlainLex(gs[1..], e, e');
    JoinLex(c, e, c', e', x, Plain(gs[1..], e), x', Plain(gs[1..], e'));
  }

  /** Two numerals in two halves, and the bytes of the halves. */
  lemma JoinLex(c: seq<int>, e: seq<int>, c': seq<int>, e': seq<int>,
                x: seq<int>, r: seq<int>, y: seq<int>, r': seq<int>)
    requires |c| == |c'| && |e| == |e'| && |x| == |y| && |r| == |r'|
    requires (LexLess(x, y) <==> LexLess(c, c')) && (x == y <==> c == c')
    requires (LexLess(r, r') <==> LexLess(e, e')) && (r == r' <==> e == e')
    ensures LexLess(x + r, y + r') <==> LexLess(c + e, c' + e')
    ensures x + r == y + r' <==> c + e == c' + e'
  {
    hide *;
    SplitLex(x, r, y, r');
    SplitLex(c, e, c', e');
  }

  lemma SplitLex(b: seq<int>, r: seq<int>, b': seq<int>, r': seq<int>)
    requires |b| == |b'| && |r| == |r'|
    ensures LexLess(b + r, b' + r') <==> LexLess(b, b') || (b == b' && LexLess(r, r'))
    ensures b + r == b' + r' <==> b == b' && r == r'
  {
    hide LexLess;
    LexConcat(b, r, b', r');
    assert (b + r)[..|b|] == b && (b' + r')[..|b|] == b' && (b + r)[|b|..] == r && (b' + r')[|b|..] == r';
  }

  lemma {:induction false} ComplementLex(bs: seq<byte>, cs: seq<byte>)
    requires |bs| == |cs|
    ensures LexLess(Complement(bs), Complement(cs)) <==> LexLess(cs, bs)
  {
    if bs != [] {
      ComplementLex(bs[1..], cs[1..]);
      assert Complement(bs)[1..] == Complement(bs[1..]) && Complement(cs)[1..] == Complement(cs[1..]);
    }
  }

  /** Flipping the top bit of both first bytes keeps the order when the bits were equal, and reverses it otherwise. */
  lemma FlipLex(bs: seq<byte>, cs: seq<byte>)
    requires bs != [] && |bs| == |cs|
    ensures LexLess(FlipFirst(bs), FlipFirst(cs)) <==>
      if (bs[0] < 128) == (cs[0] < 128) then LexLess(bs, cs) else bs[0] >= 128
  {
    assert FlipFirst(bs)[1..] == bs[1..] && FlipFirst(cs)[1..] == cs[1..];
  }

  ghost function SignedNumber(neg: bool, n: int): int { if neg then -n else n }

  /** No negative zero. */
  ghost predicate Canonical(neg: bool, ds: seq<int>) { neg ==> Val(10, ds) != 0 }

  lemma SignedLex(neg: bool, neg': bool, x: seq<byte>, y: seq<byte>)
    requires x != [] && |x| == |y| && x[0] < 128 && y[0] < 128
    ensures LexLess(FlipFirst(Signed(neg, x)), FlipFirst(Signed(neg', y))) <==>
      if neg == neg' then (if neg then LexLess(y, x) else LexLess(x, y)) else neg
  {
    ComplementLex(x, y);
    FlipLex(Signed(neg, x), Signed(neg', y));
  }

  /** Order preservation: for canonical numbers of one precision and scale, byte order is numeric order. */
  lemma OrderPreserved(neg: bool, ds: seq<int>, neg': bool, ds': seq<int>, scale: nat)
    requires scale <= |ds| == |ds'| && 1 <= |ds| && Digits(10, ds) && Digits(10, ds')
    requires Canonical(neg, ds) && Canonical(neg', ds')
    ensures |Encode(neg, ds, scale)| == |Encode(neg', ds', scale)|
    ensures LexLess(Encode(neg, ds, scale), Encode(neg', ds', scale)) <==>
      SignedNumber(neg, Val(10, ds)) < SignedNumber(neg', Val(10, ds'))
  {
    var gs := Groups(|ds|, scale);
    DecimalExtent(|ds|, scale);
    var x, y := Plain(gs, ds), Plain(gs, ds');
    SameLength(neg, neg', x, y);
    assert gs != [] by {
      DecimalSizePositive(|ds|, scale);
    }
    PlainTopBit(gs, ds);
    PlainTopBit(gs, ds');
    hide Plain, LexLess, Val, Signed, FlipFirst, Groups;
    PlainLex(gs, ds, ds');
    PlainLex(gs, ds', ds);
    LexIsNumeric(10, ds, ds');
    LexIsNumeric(10, ds', ds);
    ValBound(10, ds);
    ValBound(10, ds');
    SignedLex(neg, neg', x, y);
  }

  lemma SameLength(neg: bool, neg': bool, x: seq<byte>, y: seq<byte>)
    requires |x| == |y|
    ensures |FlipFirst(Signed(neg, x))| == |FlipFirst(Signed(neg', y))|
  {
  }

  /** The decoded number, in units of the last fractional word. */
  ghost function Value(r: Decimal): int { SignedNumber(r.sign, Val(DIG_BASE, r.words)) }

  /** What `Denotes` says of the parts, said of the whole: the digits, shifted to whole words. */
  lemma ValueOfDenoted(r: Decimal, neg: bool, ds: seq<int>, scale: nat)
    requires scale <= |ds| && Denotes(r, neg, ds, scale)
    ensures Value(r) == SignedNumber(neg, Val(10, ds) * Pow(10, Pad(scale)))
  {
    hide *;
    DenotedParts(r, neg, ds, scale);
    var fw := (scale + 8) / 9;
    var iw, intg := |r.words| - fw, |ds| - scale;
    assert ds == ds[..intg] + ds[intg..] && r.words == r.words[..iw] + r.words[iw..];
    JoinValue(ds[..intg], ds[intg..], r.words[..iw], r.words[iw..]);
  }

  lemma JoinValue(front: seq<int>, last: seq<int>, ws: seq<int>, fs: seq<int>)
    requires |fs| == (|last| + 8) / 9 && Val(DIG_BASE, ws) == Val(10, front)
    requires Val(DIG_BASE, fs) == Val(10, last) * Pow(10, Pad(|last|))
    ensures Val(DIG_BASE, ws + fs) == Val(10, front + last) * Pow(10, Pad(|last|))
  {
    hide *;
    var scale := |last|;
    ValConcat(10, front, last);
    ValConcat(DIG_BASE, ws, fs);
    PowPow(|fs|);
    PadFills(scale);
    PowSum(10, scale, Pad(scale));
    Distribute(Val(10, front), Pow(10, scale), Val(10, last), Pow(10, Pad(scale)));
  }

  lemma DenotedParts(r: Decimal, neg: bool, ds: seq<int>, scale: nat)
    requires scale <= |ds| && Denotes(r, neg, ds, scale)
    ensures var intg, iw := |ds| - scale, |r.words| - (scale + 8) / 9;
      && 0 <= iw && Val(DIG_BASE, r.words[..iw]) == Val(10, ds[..intg])
      && Val(DIG_BASE, r.words[iw..]) == Val(10, ds[intg..]) * Pow(10, Pad(scale))
      && Value(r) == SignedNumber(neg, Val(DIG_BASE, r.words))
  {
    hide Val, Pow, Pad;
  }

  lemma PadFills(scale: nat)
    ensures 9 * ((scale + 8) / 9) == scale + Pad(scale)
  {
  }

  /** Comparing packed decimals byte by byte compares the numbers `_init_decimal` makes of them. */
  lemma DecodedOrder(neg: bool, ds: seq<int>, neg': bool, ds': seq<int>, scale: nat, m: seq<byte>, p: nat,
                     m': seq<byte>, p': nat)
    requires scale <= |ds| == |ds'| && 1 <= |ds| && Digits(10, ds) && Digits(10, ds')
    requires Canonical(neg, ds) && Canonical(neg', ds')
    requires Holds(m, p, Encode(neg, ds, scale)) && Holds(m', p', Encode(neg', ds', scale))
    ensures |Encode(neg, ds, scale)| == |Encode(neg', ds', scale)|
    ensures var r, r' := Decode(m, p, |ds|, scale), Decode(m', p', |ds'|, scale);
      && r.Some? && r'.Some?
      && (LexLess(Encode(neg, ds, scale), Encode(neg', ds', scale)) <==> Value(r.value) < Value(r'.value))
  {
    hide *;
    OrderPreserved(neg, ds, neg', ds', scale);
    DecimalRoundTrip(neg, ds, scale, m, p);
    DecimalRoundTrip(neg', ds', scale, m', p');
    ValueOfDenoted(Decode(m, p, |ds|, scale).value, neg, ds, scale);
    ValueOfDenoted(Decode(m', p', |ds'|, scale).value, neg', ds', scale);
    ScaledOrder(neg, Val(10, ds), neg', Val(10, ds'), Pow(10, Pad(scale)));
  }

  lemma ScaledOrder(neg: bool, v: int, neg': bool, v': int, p: nat)
    requires 0 < p
    ensures SignedNumber(neg, v) < SignedNumber(neg', v') <==> SignedNumber(neg, v * p) < SignedNumber(neg', v' * p)
  {
    var a, a' := SignedNumber(neg, v), SignedNumber(neg', v');
    assert SignedNumber(neg, v * p) == a * p && SignedNumber(neg', v' * p) == a' * p;
    if a < a' {
      MulMono(a + 1, a', p);
    } else {
      MulMono(a', a, p);
    }
  }
}
