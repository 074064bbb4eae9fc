/** `_init_decimal` itself: the loops that fill the caller's word buffer, proved to compute `Decimals.Decode`. */
module DecimalReader {
  import opened Numbers
  import opened Memory
  import opened Values
  import opened Decimals

  datatype Fixed = Fixed(intg1: nat, frac1: nat, error: int)

  /** The macro that shortens a number to the words of its buffer. */
  function FixIntgFracError(len: nat, intg1: nat, frac1: nat): Fixed {
    if intg1 + frac1 <= len then Fixed(intg1, frac1, E_DEC_OK)
    else if intg1 > len then Fixed(len, 0, E_DEC_OVERFLOW)
    else Fixed(intg1, len - intg1, E_DEC_TRUNCATED)
  }

  /** The shortening never happens: a precision fits a byte, and the buffer has 512 words. */
  lemma NeverShortened(precision: nat, scale: nat)
    requires scale <= precision <= 255
    ensures var i, f := (precision - scale + 8) / 9, (scale + 8) / 9;
      FixIntgFracError(BUFFER_WORDS, i, f) == Fixed(i, f, E_DEC_OK)
  {
  }

  /** Bytes before group `i`. */
  function Before(gs: seq<Group>, i: nat): nat
    requires i <= |gs|
  {
    TotalWidth(gs[..i])
  }

  lemma BeforeNext(gs: seq<Group>, i: nat)
    requires i < |gs|
    ensures Before(gs, i + 1) == Before(gs, i) + gs[i].Width()
    ensures TotalDigits(gs[..i + 1]) == TotalDigits(gs[..i]) + gs[i].Digits()
    ensures Before(gs, 0) == 0 && TotalDigits(gs[..0]) == 0
  {
    hide Group.Width, Group.Digits;
    assert gs[..i + 1] == gs[..i] + [gs[i]];
    TotalConcat(gs[..i], [gs[i]]);
    TotalOne(gs[i]);
  }

  lemma {:induction false} BeforePositive(gs: seq<Group>, i: nat)
    requires GroupsOk(gs) && i <= |gs|
    ensures Before(gs, i) == 0 <==> i == 0
    decreases i
  {
    if i > 0 {
      BeforePositive(gs, i - 1);
      BeforeNext(gs, i - 1);
      assert gs[i - 1] in gs;
      GroupFits(gs[i - 1]);
    }
  }

  /** The word of group `i`, by its own offset. */
  lemma {:induction false} WordAt(gs: seq<Group>, m: seq<byte>, p: nat, first: bool, neg: bool, i: nat)
    requires i < |gs|
    ensures Words(gs, m, p, first, neg)[i] ==
      Word(gs[i], Raw(m, p + Before(gs, i), gs[i].Width(), first && i == 0), neg)
    decreases i
  {
    hide Word, Raw;
    WordsStep(gs, m, p, first, neg);
    if i > 0 {
      WordAt(gs[1..], m, p + gs[0].Width(), false, neg, i - 1);
      assert gs[..i][1..] == gs[1..][..i - 1];
    }
  }

  /** The first `i` groups are accepted. */
  ghost predicate AcceptedTo(gs: seq<Group>, ws: seq<int>, i: nat)
    requires |gs| == |ws|
  {
    i <= |gs| && forall j | 0 <= j < i :: Accepts(gs[j], ws[j])
  }

  /** What the integer loops keep: stripped so far, and the digits left for `intg`. */
  ghost predicate IntState(gi: seq<Group>, iws: seq<int>, i: nat, kept: seq<int>, intg: int) {
    && i <= |gi| == |iws| && kept == Kept(iws[..i])
    && intg == TotalDigits(gi) - TotalDigits(gi[..i - |kept|])
  }

  lemma IntStep(gi: seq<Group>, iws: seq<int>, i: nat, kept: seq<int>, intg: int)
    requires IntState(gi, iws, i, kept, intg) && i < |gi|
    ensures if kept != [] || iws[i] != 0 then IntState(gi, iws, i + 1, kept + [iws[i]], intg)
            else IntState(gi, iws, i + 1, [], intg - gi[i].Digits())
  {
    hide Group.Digits, TotalDigits;
    assert iws[..i + 1][..i] == iws[..i];
    BeforeNext(gi, i);
  }

  lemma IntStart(gi: seq<Group>, iws: seq<int>)
    requires |gi| == |iws|
    ensures IntState(gi, iws, 0, [], TotalDigits(gi))
  {
    assert gi[..0] == [] && iws[..0] == [];
  }

  lemma IntEnd(gi: seq<Group>, iws: seq<int>, kept: seq<int>, intg: int)
    requires IntState(gi, iws, |gi|, kept, intg)
    ensures kept == Kept(iws) && intg == TotalDigits(gi[|gi| - |kept|..]) >= 0
  {
    var s := |gi| - |kept|;
    assert iws[..|gi|] == iws;
    assert gi == gi[..s] + gi[s..];
    TotalConcat(gi[..s], gi[s..]);
  }

  /** `mi_sint1korr` .. `mi_sint4korr`, with the first byte of the field flipped on the fly. */
  method ReadInt(m: seq<byte>, from: nat, k: nat, first: bool) returns (x: int)
    requires 1 <= k <= 4
    ensures x == SignedBE(Raw(m, from, k, first))
  {
    var b0 := if first then FlipByte(At(m, from)) else At(m, from);
    var high := HighByte(b0);
    ghost var bs := Raw(m, from, k, first);
    assert bs[0] == b0;
    match k {
      case 1 =>
        x := high;
      case 2 =>
        x := At(m, from + 1) + high * 256;
      case 3 =>
        x := At(m, from + 2) + At(m, from + 1) * 256 + high * 65536;
      case 4 =>
        x := At(m, from + 3) + At(m, from + 2) * 256 + At(m, from + 1) * 65536 + high * 16777216;
    }
    SignedBEUnfold(bs);
  }

  /** `(int8) b` */
  function HighByte(b: byte): int { if b >= 128 then -(256 - b) else b }

  lemma SignedBEUnfold(bs: seq<byte>)
    requires 1 <= |bs| <= 4
    ensures var high := HighByte(bs[0]);
      SignedBE(bs) ==
        if |bs| == 1 then high
        else if |bs| == 2 then bs[1] + high * 256
        else if |bs| == 3 then bs[2] + bs[1] * 256 + high * 65536
        else bs[3] + bs[2] * 256 + bs[1] * 65536 + high * 16777216
  {
    Pow256Values();
    ValUnfold(bs);
  }

  lemma ValUnfold(bs: seq<int>)
    requires 1 <= |bs| <= 4
    ensures Val(256, bs) ==
      if |bs| == 1 then bs[0]
      else if |bs| == 2 then bs[1] + bs[0] * 256
      else if |bs| == 3 then bs[2] + bs[1] * 256 + bs[0] * 65536
      else bs[3] + bs[2] * 256 + bs[1] * 65536 + bs[0] * 16777216
    decreases |bs|
  {
    var n := |bs| - 1;
    if n == 0 {
      assert bs[..0] == [];
    } else {
      ValUnfold(bs[..n]);
    }
  }

  /** One group: read, unmask, store, check. */
  method StoreGroup(buf: array<int>, n: nat, g: Group, m: seq<byte>, from: nat, storage: nat, neg: bool)
    returns (ok: bool)
    requires n < buf.Length && g.Ok()
    modifies buf
    ensures buf[..n] == old(buf[..n])
    ensures buf[n] == Word(g, Raw(m, from, g.Width(), from == storage), neg)
    ensures ok <==> Accepts(g, buf[n])
  {
    hide Raw, SignedBE;
    GroupFits(g);
    var x := ReadInt(m, from, g.Width(), from == storage);
    x := XorMask(x, neg);
    buf[n] := if g.Trail? then Wrap32(x * Pow(10, 9 - g.d)) else x;
    ok := if g.Lead? then 0 <= buf[n] < Pow(10, g.d + 1) else 0 <= buf[n] < DIG_BASE;
  }

  /** Everything about group `i` that reading it needs. */
  lemma GroupAt(gs: seq<Group>, m: seq<byte>, storage: nat, neg: bool, i: nat)
    requires GroupsOk(gs) && i < |gs|
    ensures gs[i].Ok()
    ensures Words(gs, m, storage, true, neg)[i] ==
      Word(gs[i], Raw(m, storage + Before(gs, i), gs[i].Width(), i == 0), neg)
    ensures storage + Before(gs, i) == storage <==> i == 0
    ensures Before(gs, i + 1) == Before(gs, i) + gs[i].Width()
  {
    hide Word, Raw, Words, TotalWidth, TotalDigits, Group.Width, Group.Ok, Before;
    GroupsMember(gs, i);
    WordAt(gs, m, storage, true, neg, i);
    BeforePositive(gs, i);
    BeforeNext(gs, i);
  }

  lemma GroupsMember(gs: seq<Group>, i: nat)
    requires GroupsOk(gs) && i < |gs|
    ensures gs[i].Ok()
  {
    assert gs[i] in gs;
  }

  ghost predicate IntProgress(gs: seq<Group>, ws: seq<int>, k: nat, i: nat, storage: nat, from: nat,
                              kept: seq<int>, intg: int) {
    && i <= k <= |gs| == |ws| && from == storage + Before(gs, i)
    && AcceptedTo(gs, ws, i) && IntState(gs[..k], ws[..k], i, kept, intg)
  }

  /** Storing an integer group: it is kept unless only zeros came before it and it is zero. */
  method IntGroup(buf: array<int>, n: nat, g: Group, m: seq<byte>, from: nat, storage: nat, neg: bool, intg: int,
                  ghost gs: seq<Group>, ghost k: nat, ghost i: nat)
    returns (ok: bool, from': nat, n': nat, intg': int)
    requires n <= i < k <= |gs| && i < buf.Length && gs[i] == g && GroupsOk(gs)
    requires IntProgress(gs, Words(gs, m, storage, true, neg), k, i, storage, from, buf[..n], intg)
    modifies buf
    ensures ok ==> n' <= i + 1
    ensures ok ==>
      IntProgress(gs, Words(gs, m, storage, true, neg), k, i + 1, storage, from', buf[..n'], intg')
    ensures !ok ==> !Accepts(g, Words(gs, m, storage, true, neg)[i])
  {
    hide Word, Raw, Words, Accepts, Before, Group.Width, Group.Ok, IntState, GroupsOk, Group.Digits;
    GroupAt(gs, m, storage, neg, i);
    IntStep(gs[..k], Words(gs, m, storage, true, neg)[..k], i, buf[..n], intg);
    ok := StoreGroup(buf, n, g, m, from, storage, neg);
    from' := from + g.Width();
    if n > 0 || buf[n] != 0 {
      n' := n + 1;
      intg' := intg;
      assert buf[..n'] == buf[..n] + [buf[n]];
    } else {
      n' := n;
      intg' := intg - g.Digits();
      assert buf[..n'] == [];
    }
  }

  /** The leading partial group and the loop over the whole integer groups. */
  method IntWords(buf: array<int>, intg: nat, m: seq<byte>, storage: nat, neg: bool, ghost gs: seq<Group>)
    returns (ok: bool, from: nat, n: nat, intg': int)
    requires GroupsOk(gs) && IntGroups(intg) <= gs && |gs| <= buf.Length
    modifies buf
    ensures ok ==> n <= |IntGroups(intg)| && IntProgress(gs, Words(gs, m, storage, true, neg), |IntGroups(intg)|,
      |IntGroups(intg)|, storage, from, buf[..n], intg')
    ensures !ok ==> !AllAccepted(gs, Words(gs, m, storage, true, neg))
  {
    hide Words, Accepts, Before, IntState, GroupsOk, TotalDigits, TotalWidth;
    ghost var ws := Words(gs, m, storage, true, neg);
    ghost var k := |IntGroups(intg)|;
    var intg0, intg0x := intg / 9, intg % 9;
    assert gs[..k] == IntGroups(intg);
    IntGroupsOk(intg);
    IntStart(gs[..k], ws[..k]);
    BeforeStart(gs);
    from, n, intg' := storage, 0, intg;
    assert buf[..0] == [];
    ghost var i := 0;
    if intg0x != 0 {
      assert gs[0] == Lead(intg0x);
      ok, from, n, intg' := IntGroup(buf, n, Lead(intg0x), m, from, storage, neg, intg', gs, k, i);
      if !ok {
        return;
      }
      i := 1;
    }
    var stop := from + intg0 * 4;
    while from < stop
      invariant n <= i <= k && stop - from == 4 * (k - i)
      invariant forall j | i <= j < k :: gs[j] == Full
      invariant IntProgress(gs, ws, k, i, storage, from, buf[..n], intg')
    {
      ghost var here := from;
      ok, from, n, intg' := IntGroup(buf, n, Full, m, from, storage, neg, intg', gs, k, i);
      if !ok {
        return;
      }
      FullWidth(gs, i);
      i := i + 1;
    }
    ok := true;
  }

  lemma BeforeStart(gs: seq<Group>)
    ensures Before(gs, 0) == 0
  {
    assert gs[..0] == [];
  }

  lemma FullWidth(gs: seq<Group>, i: nat)
    requires i < |gs| && gs[i] == Full
    ensures Before(gs, i + 1) == Before(gs, i) + 4
  {
    BeforeNext(gs, i);
  }

  ghost predicate FracProgress(gs: seq<Group>, ws: seq<int>, k: nat, i: nat, storage: nat, from: nat,
                               kept: seq<int>, words: seq<int>) {
    && k <= i <= |gs| == |ws| && from == storage + Before(gs, i) && AcceptedTo(gs, ws, i) && words == kept + ws[k..i]
  }

  method FracGroup(buf: array<int>, n: nat, g: Group, m: seq<byte>, from: nat, storage: nat, neg: bool,
                   ghost gs: seq<Group>, ghost k: nat, ghost i: nat, ghost kept: seq<int>)
    returns (ok: bool, from': nat, n': nat)
    requires n <= i < |gs| <= buf.Length && gs[i] == g && GroupsOk(gs)
    requires FracProgress(gs, Words(gs, m, storage, true, neg), k, i, storage, from, kept, buf[..n])
    modifies buf
    ensures ok ==> n' <= i + 1 && from' == from + g.Width()
    ensures ok ==>
      FracProgress(gs, Words(gs, m, storage, true, neg), k, i + 1, storage, from', kept, buf[..n'])
    ensures !ok ==> !Accepts(g, Words(gs, m, storage, true, neg)[i])
  {
    hide Word, Raw, Words, Accepts, Before, Group.Width, Group.Ok, GroupsOk, Group.Digits;
    GroupAt(gs, m, storage, neg, i);
    ghost var ws := Words(gs, m, storage, true, neg);
    ok := StoreGroup(buf, n, g, m, from, storage, neg);
    from' := from + g.Width();
    n' := n + 1;
    assert buf[..n'] == buf[..n] + [buf[n]];
    assert ws[k..i + 1] == ws[k..i] + [ws[i]];
  }

  /** The loop over the whole fractional groups and the trailing partial group. */
  method FracWords(buf: array<int>, n0: nat, scale: nat, m: seq<byte>, from0: nat, storage: nat, neg: bool,
                   ghost gi: seq<Group>, ghost gs: seq<Group>)
    returns (ok: bool, from: nat, n: nat)
    requires GroupsOk(gs) && gs == gi + FracGroups(scale) && n0 <= |gi| && |gs| <= buf.Length
    requires from0 == storage + Before(gs, |gi|) && AcceptedTo(gs, Words(gs, m, storage, true, neg), |gi|)
    modifies buf
    ensures ok ==> n <= |gs| && FracProgress(gs, Words(gs, m, storage, true, neg), |gi|, |gs|, storage, from,
      old(buf[..n0]), buf[..n])
    ensures !ok ==> !AllAccepted(gs, Words(gs, m, storage, true, neg))
  {
    hide Words, Accepts, Before, GroupsOk, TotalDigits, TotalWidth, FracProgress, FracGroups;
    ghost var ws, k, kept := Words(gs, m, storage, true, neg), |gi|, buf[..n0];
    var frac0, frac0x := scale / 9, scale % 9;
    FracGroupsAt(gi, gs, scale);
    FracStart(gs, ws, k, storage, from0, kept);
    from, n := from0, n0;
    ghost var i := k;
    var stop := from + frac0 * 4;
    while from < stop
      invariant n <= i <= k + frac0 && stop - from == 4 * (k + frac0 - i)
      invariant FracProgress(gs, ws, k, i, storage, from, kept, buf[..n])
    {
      ok, from, n := FracGroup(buf, n, Full, m, from, storage, neg, gs, k, i, kept);
      if !ok {
        return;
      }
      i := i + 1;
    }
    if frac0x != 0 {
      ok, from, n := FracGroup(buf, n, Trail(frac0x), m, from, storage, neg, gs, k, i, kept);
      if !ok {
        return;
      }
    }
    ok := true;
  }

  /** The fractional groups in their place. */
  lemma FracGroupsAt(gi: seq<Group>, gs: seq<Group>, scale: nat)
    requires gs == gi + FracGroups(scale)
    ensures |gs| == |gi| + scale / 9 + (if scale % 9 > 0 then 1 else 0)
    ensures forall i | |gi| <= i < |gi| + scale / 9 :: gs[i] == Full
    ensures scale % 9 > 0 ==> gs[|gi| + scale / 9] == Trail(scale % 9)
  {
    forall i | |gi| <= i < |gs|
      ensures gs[i] == FracGroups(scale)[i - |gi|]
    {
    }
  }

  lemma FracStart(gs: seq<Group>, ws: seq<int>, k: nat, storage: nat, from: nat, kept: seq<int>)
    requires k <= |gs| == |ws| && from == storage + Before(gs, k) && AcceptedTo(gs, ws, k)
    ensures FracProgress(gs, ws, k, k, storage, from, kept, kept)
  {
    hide Before, Accepts;
    assert ws[k..k] == [];
  }

  /**
   * Decoding a field succeeds exactly when `Decode` does, with its sign, digit counts and words, and stops at the end
   * of the field's extent.
   */
  method InitDecimal(buf: array<int>, precision: nat, scale: nat, m: seq<byte>, storage: nat)
    returns (rc: int, sign: bool, intg: int, frac: nat, n: nat, from: nat)
    requires scale <= precision <= 255 && buf.Length == BUFFER_WORDS
    modifies buf
    ensures rc == if Decode(m, storage, precision, scale).Some? then E_DEC_OK else E_DEC_ERROR
    ensures rc == E_DEC_OK ==> 0 <= intg && n <= buf.Length
    ensures rc == E_DEC_OK ==>
      && Decode(m, storage, precision, scale) == Some(Decimal(sign, intg, frac, buf[..n]))
      && from == storage + DecimalSize(precision, scale)
  {
    hide Words, Before, GroupsOk, TotalDigits, TotalWidth, IntGroups, FracGroups, Groups, IntState, Kept, Accepts;
    hide DecimalSize;
    var intg1, frac1 := (precision - scale) / 9 + (if (precision - scale) % 9 > 0 then 1 else 0),
                        scale / 9 + (if scale % 9 > 0 then 1 else 0);
    NeverShortened(precision, scale);
    if FixIntgFracError(BUFFER_WORDS, intg1, frac1).error != E_DEC_OK {
      assert false;
    }
    ghost var gi, gs := IntGroups(precision - scale), Groups(precision, scale);
    GroupsAre(precision, scale);
    DecimalExtent(precision, scale);
    var neg := At(m, storage) < 128;
    ghost var ws := Words(gs, m, storage, true, neg);
    sign, frac := neg, scale;
    var ok: bool;
    ok, from, n, intg := IntWords(buf, precision - scale, m, storage, neg, gs);
    if ok {
      assert gs[..|gi|] == gi;
      IntEnd(gi, ws[..|gi|], buf[..n], intg);
      ok, from, n := FracWords(buf, n, scale, m, from, storage, neg, gi, gs);
    }
    if !ok {
      NotAccepted(m, storage, precision, scale, neg);
      return E_DEC_ERROR, sign, intg, frac, n, from;
    }
    DecodeIs(m, storage, precision, scale, neg);
    BeforeAll(gs);
    assert ws[|gi|..|gs|] == ws[|gi|..];
    rc := E_DEC_OK;
  }

  lemma NotAccepted(m: seq<byte>, p: nat, precision: nat, scale: nat, neg: bool)
    requires scale <= precision && (At(m, p) < 128 <==> neg)
    requires !AllAccepted(Groups(precision, scale), Words(Groups(precision, scale), m, p, true, neg))
    ensures Decode(m, p, precision, scale).None?
  {
  }

  lemma BeforeAll(gs: seq<Group>)
    ensures Before(gs, |gs|) == TotalWidth(gs)
  {
    assert gs[..|gs|] == gs;
  }
}
