/** Powers, positional numerals and lexicographic order, shared by the binary formats below. */
module Numbers {

  function Pow(b: nat, k: nat): (r: nat)
    ensures 0 < b ==> 0 < r
    decreases k
  {
    if k == 0 then 1 else b * Pow(b, k - 1)
  }

  lemma {:induction false} PowSum(b: nat, j: nat, k: nat)
    ensures Pow(b, j + k) == Pow(b, j) * Pow(b, k)
    decreases j
  {
    if j == 0 {
    } else {
      PowSum(b, j - 1, k);
      assert Pow(b, j + k) == b * Pow(b, j - 1 + k);
      MulAssoc(b, Pow(b, j - 1), Pow(b, k));
    }
  }

  lemma MulAssoc(a: int, b: int, c: int)
    ensures a * (b * c) == (a * b) * c
  {
  }

  lemma MulMono(a: int, b: int, c: int)
    requires 0 <= c && a <= b
    ensures a * c <= b * c
  {
  }

  lemma {:induction false} PowMono(b: nat, j: nat, k: nat)
    requires 0 < b && j <= k
    ensures Pow(b, j) <= Pow(b, k)
  {
    PowSum(b, j, k - j);
    MulMono(1, Pow(b, k - j), Pow(b, j));
  }

  /** The number a most-significant-first numeral denotes in base `b`. */
  function Val(b: nat, ds: seq<int>): int {
    if ds == [] then 0 else Val(b, ds[..|ds| - 1]) * b + ds[|ds| - 1]
  }

  predicate Digits(b: nat, ds: seq<int>) {
    forall i | 0 <= i < |ds| :: 0 <= ds[i] < b
  }

  lemma {:induction false} ValConcat(b: nat, xs: seq<int>, ys: seq<int>)
    ensures Val(b, xs + ys) == Val(b, xs) * Pow(b, |ys|) + Val(b, ys)
    decreases |ys|
  {
    if ys == [] {
      assert xs + ys == xs;
    } else {
      var n := |ys| - 1;
      ValConcat(b, xs, ys[..n]);
      assert (xs + ys)[..|xs + ys| - 1] == xs + ys[..n];
      var v, p := Val(b, xs), Pow(b, n);
      assert Val(b, xs + ys) == (v * p + Val(b, ys[..n])) * b + ys[n];
      assert v * (b * p) == (v * p) * b;
    }
  }

  lemma AppendBound(v: nat, p: nat, b: nat, d: nat)
    requires v < p && d < b
    ensures v * b + d < b * p
  {
    MulMono(v + 1, p, b);
  }

  lemma {:induction false} ValBound(b: nat, ds: seq<int>)
    requires Digits(b, ds)
    ensures 0 <= Val(b, ds) < Pow(b, |ds|)
  {
    if ds == [] {
    } else {
      var n := |ds| - 1;
      ValBound(b, ds[..n]);
      AppendBound(Val(b, ds[..n]), Pow(b, n), b, ds[n]);
    }
  }

  lemma {:induction false} ValZeros(b: nat, k: nat)
    ensures Val(b, seq(k, _ => 0)) == 0
  {
    if k > 0 {
      ValZeros(b, k - 1);
      assert seq(k, _ => 0)[..k - 1] == seq(k - 1, _ => 0);
    }
  }

  /** Strict lexicographic order on sequences of the same length. */
  predicate LexLess(xs: seq<int>, ys: seq<int>)
    requires |xs| == |ys|
  {
    xs != [] && (xs[0] < ys[0] || (xs[0] == ys[0] && LexLess(xs[1..], ys[1..])))
  }

  lemma {:induction false} LexConcat(xs: seq<int>, xs': seq<int>, ys: seq<int>, ys': seq<int>)
    requires |xs| == |ys| && |xs'| == |ys'|
    ensures LexLess(xs + xs', ys + ys') <==> LexLess(xs, ys) || (xs == ys && LexLess(xs', ys'))
  {
    if xs == [] {
      assert xs + xs' == xs' && ys + ys' == ys';
    } else {
      LexConcat(xs[1..], xs', ys[1..], ys');
      assert (xs + xs')[1..] == xs[1..] + xs' && (ys + ys')[1..] == ys[1..] + ys';
      assert xs == [xs[0]] + xs[1..] && ys == [ys[0]] + ys[1..];
    }
  }

  lemma HeadDecides(x: nat, y: nat, p: nat, v: nat, w: nat)
    requires v < p && w < p
    ensures x < y ==> x * p + v < y * p + w
  {
    if x < y {
      MulMono(x + 1, y, p);
    }
  }

  lemma ValCons(b: nat, ds: seq<int>)
    requires ds != []
    ensures Val(b, ds) == ds[0] * Pow(b, |ds| - 1) + Val(b, ds[1..])
  {
    assert ds == [ds[0]] + ds[1..];
    ValConcat(b, [ds[0]], ds[1..]);
    assert Val(b, [ds[0]]) == ds[0];
  }

  /** On numerals of one length, lexicographic order is numeric order. */
  lemma {:induction false} LexIsNumeric(b: nat, xs: seq<int>, ys: seq<int>)
    requires |xs| == |ys| && Digits(b, xs) && Digits(b, ys)
    ensures LexLess(xs, ys) <==> Val(b, xs) < Val(b, ys)
    ensures xs == ys <==> Val(b, xs) == Val(b, ys)
  {
    if xs != [] {
      LexIsNumeric(b, xs[1..], ys[1..]);
      ValCons(b, xs);
      ValCons(b, ys);
      ValBound(b, xs[1..]);
      ValBound(b, ys[1..]);
      HeadDecides(xs[0], ys[0], Pow(b, |xs| - 1), Val(b, xs[1..]), Val(b, ys[1..]));
      HeadDecides(ys[0], xs[0], Pow(b, |xs| - 1), Val(b, ys[1..]), Val(b, xs[1..]));
      assert xs[0] == ys[0] && xs[1..] == ys[1..] ==> xs == ys by {
        assert xs == [xs[0]] + xs[1..] && ys == [ys[0]] + ys[1..];
      }
    }
  }
}
