/**
 * Bytes, event buffers and the unaligned little-endian reads (`uint2korr` .. `uint8korr`) made through a moving
 * pointer. A pointer is an offset into the buffer. A read is not checked against the length of an event: the buffer
 * may extend past the event, and nothing is assumed about what it holds there.
 */
module Memory {
  import opened Numbers

  type byte = x: int | 0 <= x < 256
  type uint32 = x: int | 0 <= x < 0x1_0000_0000
  type uint64 = x: int | 0 <= x < 0x1_0000_0000_0000_0000

  const TWO32 := 0x1_0000_0000
  const TWO64 := 0x1_0000_0000_0000_0000

  /** `size_t` subtraction. */
  function Sub64(a: uint64, b: int): uint64 { (a - b) % TWO64 }

  /** A `size_t` read back as `ssize_t`. */
  function Signed64(a: uint64): int { if a < 0x8000_0000_0000_0000 then a else a - TWO64 }

  function At(m: seq<byte>, p: int): byte { if 0 <= p < |m| then m[p] else 0 }

  /** The `k`-byte little-endian number at `p`. */
  function LE(m: seq<byte>, p: nat, k: nat): nat
    decreases k
  {
    if k == 0 then 0 else At(m, p) + 256 * LE(m, p + 1, k - 1)
  }

  /** The low `k` bytes of `v`, least significant first. */
  function LEBytes(v: nat, k: nat): (s: seq<byte>)
    ensures |s| == k
    decreases k
  {
    if k == 0 then [] else [v % 256] + LEBytes(v / 256, k - 1)
  }

  /** `s` is stored at offset `p`. */
  predicate Holds(m: seq<byte>, p: nat, s: seq<byte>) { p + |s| <= |m| && m[p..p + |s|] == s }

  function Slice(m: seq<byte>, p: nat, k: nat): (s: seq<byte>)
    ensures |s| == k
  {
    seq<byte>(k, i requires 0 <= i < k => At(m, p + i))
  }

  lemma HoldsConcat(m: seq<byte>, p: nat, s: seq<byte>, t: seq<byte>)
    ensures Holds(m, p, s + t) <==> Holds(m, p, s) && Holds(m, p + |s|, t)
  {
    var n := p + |s| + |t|;
    if n <= |m| {
      var u, v := m[p..p + |s|], m[p + |s|..n];
      assert m[p..n] == u + v;
      assert u + v == s + t ==> u == s && v == t by {
        assert (u + v)[..|s|] == u && (u + v)[|s|..] == v;
        assert (s + t)[..|s|] == s && (s + t)[|s|..] == t;
      }
    }
  }

  lemma HoldsSlice(m: seq<byte>, p: nat, s: seq<byte>)
    requires Holds(m, p, s)
    ensures Slice(m, p, |s|) == s
  {
    forall i | 0 <= i < |s|
      ensures Slice(m, p, |s|)[i] == s[i]
    {
      HoldsAt(m, p, s, i);
    }
  }

  lemma SliceSplit(m: seq<byte>, p: nat, j: nat, k: nat)
    ensures Slice(m, p, j + k) == Slice(m, p, j) + Slice(m, p + j, k)
  {
    var whole, parts := Slice(m, p, j + k), Slice(m, p, j) + Slice(m, p + j, k);
    forall i | 0 <= i < |whole|
      ensures whole[i] == parts[i]
    {
      assert i >= j ==> p + i == (p + j) + (i - j);
    }
  }

  lemma HoldsAt(m: seq<byte>, p: nat, s: seq<byte>, i: nat)
    requires Holds(m, p, s) && i < |s|
    ensures At(m, p + i) == s[i]
  {
    assert m[p..p + |s|][i] == m[p + i];
  }

  lemma {:induction false} LEBound(m: seq<byte>, p: nat, k: nat)
    ensures LE(m, p, k) < Pow(256, k)
    decreases k
  {
    if k > 0 {
      LEBound(m, p + 1, k - 1);
    }
  }

  /** Reading back a number that was stored little-endian. */
  lemma {:induction false} LERoundTrip(m: seq<byte>, p: nat, k: nat, v: nat)
    requires Holds(m, p, LEBytes(v, k))
    ensures LE(m, p, k) == v % Pow(256, k)
    ensures v < Pow(256, k) ==> LE(m, p, k) == v
    decreases k
  {
    if k > 0 {
      var q := Pow(256, k - 1);
      assert LEBytes(v, k) == [v % 256] + LEBytes(v / 256, k - 1);
      HoldsConcat(m, p, [v % 256], LEBytes(v / 256, k - 1));
      HoldsAt(m, p, [v % 256], 0);
      LERoundTrip(m, p + 1, k - 1, v / 256);
      DigitSplit(v, q);
    }
    if v < Pow(256, k) {
      SmallMod(v, Pow(256, k));
    }
  }

  lemma Pow256Values()
    ensures Pow(256, 1) == 256 && Pow(256, 2) == 0x1_0000 && Pow(256, 3) == 0x100_0000
    ensures Pow(256, 4) == TWO32 && Pow(256, 6) == 0x1_0000_0000_0000
  {
  }

  lemma SmallMod(v: nat, n: nat)
    requires v < n
    ensures v % n == v
  {
  }

  lemma ModUnique(v: nat, n: nat, a: nat, r: nat)
    requires r < n && v == a * n + r
    ensures v % n == r && v / n == a
  {
    var a', r' := v / n, v % n;
    assert v == a' * n + r';
    if a < a' {
      MulMono(a + 1, a', n);
    } else if a' < a {
      MulMono(a' + 1, a, n);
    }
  }

  lemma DigitSplit(v: nat, q: nat)
    requires 0 < q
    ensures v % (256 * q) == v % 256 + 256 * (v / 256 % q)
  {
    var hi, lo := v / 256, v % 256;
    var a, r := hi / q, hi % q;
    assert hi == a * q + r;
    assert v == a * (256 * q) + (256 * r + lo) by {
      assert 256 * (a * q) == a * (256 * q);
    }
    ModUnique(v, 256 * q, a, 256 * r + lo);
  }
}
