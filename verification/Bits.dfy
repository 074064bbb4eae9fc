/** The bit operations of the 64-bit column masks, on numbers, and what they do to single bits. */
module Bits {
  import opened Numbers
  import opened Memory

  predicate Bit(m: nat, i: nat)
    decreases i
  {
    if i == 0 then m % 2 == 1 else Bit(m / 2, i - 1)
  }

  /** Bitwise `&`. */
  function And(a: nat, b: nat): nat {
    if a == 0 || b == 0 then 0 else (if a % 2 == 1 && b % 2 == 1 then 1 else 0) + 2 * And(a / 2, b / 2)
  }

  /** Bitwise `|`. */
  function Or(a: nat, b: nat): nat
    decreases a + b
  {
    if a == 0 && b == 0 then 0 else (if a % 2 == 1 || b % 2 == 1 then 1 else 0) + 2 * Or(a / 2, b / 2)
  }

  /** 64-bit `~`. */
  function Not64(m: uint64): uint64 { TWO64 - 1 - m }

  function Popcount(m: nat): nat {
    if m == 0 then 0 else m % 2 + Popcount(m / 2)
  }

  /** The number whose bit `i` is `bits[i]`. */
  function BitsVal(bits: seq<bool>): nat {
    if bits == [] then 0 else (if bits[0] then 1 else 0) + 2 * BitsVal(bits[1..])
  }

  lemma {:induction false} BitZero(i: nat)
    ensures !Bit(0, i)
    decreases i
  {
    if i > 0 {
      BitZero(i - 1);
    }
  }

  lemma {:induction false} AndBit(a: nat, b: nat, i: nat)
    ensures Bit(And(a, b), i) <==> Bit(a, i) && Bit(b, i)
    decreases i
  {
    if a == 0 || b == 0 {
      BitZero(i);
    } else if i > 0 {
      AndBit(a / 2, b / 2, i - 1);
    }
  }

  lemma {:induction false} NotBit(m: nat, w: nat, i: nat)
    requires m < Pow(2, w) && i < w
    ensures Bit(Pow(2, w) - 1 - m, i) <==> !Bit(m, i)
    decreases i
  {
    assert Pow(2, w) == 2 * Pow(2, w - 1);
    if i > 0 {
      NotBit(m / 2, w - 1, i - 1);
      assert (Pow(2, w) - 1 - m) / 2 == Pow(2, w - 1) - 1 - m / 2;
    }
  }

  lemma Pow2Of8()
    ensures Pow(2, 8) == 256
  {
  }

  lemma Pow2Of64()
    ensures Pow(2, 64) == TWO64 && Pow(2, 56) == 0x100_0000_0000_0000 && Pow(2, 48) == 0x1_0000_0000_0000
  {
    hide Pow;
    Pow2Of8();
    PowSum(2, 8, 8);
    PowSum(2, 16, 16);
    PowSum(2, 32, 16);
    PowSum(2, 48, 8);
    PowSum(2, 32, 32);
  }

  lemma Not64Bit(m: uint64, i: nat)
    requires i < 64
    ensures Bit(Not64(m), i) <==> !Bit(m, i)
  {
    Pow2Of64();
    NotBit(m, 64, i);
  }

  /** `m & (1 << i)` tests bit `i`. */
  lemma {:induction false} AndShifted(m: nat, i: nat)
    ensures And(m, Pow(2, i)) != 0 <==> Bit(m, i)
    decreases i
  {
    if m == 0 {
      BitZero(i);
    } else if i > 0 {
      assert Pow(2, i) == 2 * Pow(2, i - 1);
      AndShifted(m / 2, i - 1);
    } else {
      assert Pow(2, 0) == 1;
      assert And(m / 2, 0) == 0;
    }
  }

  /** `m & (2^k - 1)` keeps the low `k` bits. */
  lemma {:induction false} AndLow(m: nat, k: nat)
    ensures And(m, Pow(2, k) - 1) == m % Pow(2, k)
    decreases k
  {
    if k > 0 {
      var p := Pow(2, k - 1);
      AndLow(m / 2, k - 1);
      HalfMod(m, p);
      assert (Pow(2, k) - 1) / 2 == p - 1;
    }
  }

  lemma HalfMod(m: nat, p: nat)
    requires 0 < p
    ensures m % (2 * p) == m % 2 + 2 * (m / 2 % p)
  {
    var h := m / 2;
    var a, r := h / p, h % p;
    assert h == a * p + r;
    assert 2 * (a * p) == a * (2 * p);
    ModUnique(m, 2 * p, a, 2 * r + m % 2);
  }

  /** `|` of two numbers with no bit in common, the second shifted above the first. */
  lemma {:induction false} OrDisjoint(a: nat, b: nat, k: nat)
    requires a < Pow(2, k)
    ensures Or(a, b * Pow(2, k)) == a + b * Pow(2, k)
    decreases k
  {
    if k == 0 {
      OrZeroLeft(b);
    } else {
      var c := b * Pow(2, k - 1);
      assert b * Pow(2, k) == 2 * c;
      OrDisjoint(a / 2, b, k - 1);
    }
  }

  lemma {:induction false} OrZeroLeft(b: nat)
    ensures Or(0, b) == b
  {
    if b > 0 {
      OrZeroLeft(b / 2);
    }
  }

  lemma {:induction false} BitLow(a: nat, r: nat, k: nat, i: nat)
    requires i < k
    ensures Bit(a + Pow(2, k) * r, i) <==> Bit(a, i)
    decreases i
  {
    var c := Pow(2, k - 1) * r;
    assert Pow(2, k) * r == 2 * c by {
      assert Pow(2, k) == 2 * Pow(2, k - 1);
    }
    if i > 0 {
      BitLow(a / 2, r, k - 1, i - 1);
      assert (a + 2 * c) / 2 == a / 2 + c;
    }
  }

  lemma {:induction false} BitHigh(a: nat, r: nat, k: nat, i: nat)
    requires k <= i && a < Pow(2, k)
    ensures Bit(a + Pow(2, k) * r, i) <==> Bit(r, i - k)
    decreases k
  {
    if k == 0 {
      assert a == 0 && Pow(2, 0) * r == r;
    } else {
      var c := Pow(2, k - 1) * r;
      assert Pow(2, k) * r == 2 * c by {
        assert Pow(2, k) == 2 * Pow(2, k - 1);
      }
      BitHigh(a / 2, r, k - 1, i - 1);
      assert (a + 2 * c) / 2 == a / 2 + c;
    }
  }

  /** A bitmap assembled from little-endian bytes: bit `i` is bit `i % 8` of byte `i / 8`. */
  lemma {:induction false} LEBit(m: seq<byte>, p: nat, l: nat, i: nat)
    requires i < 8 * l
    ensures Bit(LE(m, p, l), i) <==> Bit(At(m, p + i / 8), i % 8)
    decreases l
  {
    var b, r := At(m, p), LE(m, p + 1, l - 1);
    assert Pow(2, 8) == 256;
    if i < 8 {
      BitLow(b, r, 8, i);
    } else {
      BitHigh(b, r, 8, i);
      LEBit(m, p + 1, l - 1, i - 8);
      assert p + 1 + (i - 8) / 8 == p + i / 8 && (i - 8) % 8 == i % 8;
    }
  }

  lemma {:induction false} BitsValBit(bits: seq<bool>, i: nat)
    ensures Bit(BitsVal(bits), i) <==> i < |bits| && bits[i]
    decreases i
  {
    if bits == [] {
      BitZero(i);
    } else if i > 0 {
      BitsValBit(bits[1..], i - 1);
    }
  }

  lemma {:induction false} BitsValBound(bits: seq<bool>)
    ensures BitsVal(bits) < Pow(2, |bits|)
  {
    if bits != [] {
      BitsValBound(bits[1..]);
    }
  }

  lemma {:induction false} PopcountBound(m: nat, w: nat)
    requires m < Pow(2, w)
    ensures Popcount(m) <= w
    decreases w
  {
    if m > 0 && w > 0 {
      PopcountBound(m / 2, w - 1);
    }
  }

  lemma {:induction false} PopcountLower(m: nat, n: nat)
    requires forall i | 0 <= i < n :: Bit(m, i)
    ensures n <= Popcount(m)
    decreases n
  {
    if n > 0 {
      assert Bit(m, 0);
      forall i | 0 <= i < n - 1
        ensures Bit(m / 2, i)
      {
        assert Bit(m, i + 1);
      }
      PopcountLower(m / 2, n - 1);
    }
  }

  lemma {:induction false} PopcountPositive(m: nat)
    requires 0 < m
    ensures 0 < Popcount(m)
  {
    if m % 2 == 0 {
      PopcountPositive(m / 2);
    }
  }

  function Trues(bits: seq<bool>): nat {
    if bits == [] then 0 else (if bits[0] then 1 else 0) + Trues(bits[1..])
  }

  lemma {:induction false} PopcountBits(bits: seq<bool>)
    ensures Popcount(BitsVal(bits)) == Trues(bits)
  {
    if bits != [] {
      PopcountBits(bits[1..]);
    }
  }

  lemma Pow256(k: nat)
    ensures Pow(256, k) == Pow(2, 8 * k)
    decreases k
  {
    if k > 0 {
      Pow256(k - 1);
      PowSum(2, 8, 8 * (k - 1));
      assert Pow(2, 8) == 256;
    }
  }
}
