/**
Unsigned machine words and most-significant-bit-first bit strings.

Every codec of the system (filters, bech32, invoices, mnemonics) regroups the same
bit stream into groups of different widths.  A group of width `w` is a number below
`Pow2(w)`; `Expand` is the bit stream a sequence of groups stands for.
*/
module Bits {
  const U16 := 0x1_0000
  const U32 := 0x1_0000_0000
  const U64 := 0x1_0000_0000_0000_0000

  type byte = n: nat | n < 256
  type u16 = n: nat | n < 0x1_0000
  type u32 = n: nat | n < 0x1_0000_0000
  type u64 = n: nat | n < 0x1_0000_0000_0000_0000

  function Pow2(n: nat): (p: nat)
    ensures p > 0
  {
    if n == 0 then 1 else 2 * Pow2(n - 1)
  }

  /** The low `n` bits of `v`, most significant first. */
  function Repr(v: nat, n: nat): (b: seq<bool>)
    ensures |b| == n
  {
    if n == 0 then [] else Repr(v / 2, n - 1) + [v % 2 == 1]
  }

  /** The number a bit string stands for. */
  function Val(b: seq<bool>): (v: nat)
    ensures v < Pow2(|b|)
  {
    if b == [] then 0 else 2 * Val(b[..|b| - 1]) + (if b[|b| - 1] then 1 else 0)
  }

  /** The bit stream of a sequence of `w`-bit groups. */
  function Expand(g: seq<nat>, w: nat): (b: seq<bool>)
    ensures |b| == |g| * w
  {
    if g == [] then [] else Expand(g[..|g| - 1], w) + Repr(g[|g| - 1], w)
  }

  /** The `w`-bit groups of a bit stream, a trailing partial group dropped. */
  function Collect(b: seq<bool>, w: nat): (g: seq<nat>)
    requires w > 0
    ensures |g| == |b| / w
    ensures forall i | 0 <= i < |g| :: g[i] < Pow2(w)
  {
    if |b| < w then DivSmall(|b|, w); []
    else
      DivStep(|b|, w);
      [Val(b[..w])] + Collect(b[w..], w)
  }

  function Zeros(n: nat): (b: seq<bool>)
    ensures |b| == n && forall i | 0 <= i < n :: !b[i]
  {
    seq(n, _ => false)
  }

  predicate Fits(g: seq<nat>, w: nat) {
    forall i | 0 <= i < |g| :: g[i] < Pow2(w)
  }

  // ----- arithmetic -----

  lemma DivSmall(a: nat, w: nat)
    requires a < w
    ensures a / w == 0 && a % w == a
  {
  }

  lemma DivUnique(a: int, w: nat, q: int, r: int)
    requires w > 0 && 0 <= r < w && a == q * w + r
    ensures a / w == q && a % w == r
  {
    var d := a / w - q;
    assert a == (a / w) * w + a % w;
    assert d * w == r - a % w by {
      assert (a / w - q) * w == (a / w) * w - q * w;
    }
    MulBound(d, w);
  }

  lemma MulBound(d: int, w: int)
    requires w > 0
    ensures d >= 1 ==> d * w >= w
    ensures d <= -1 ==> d * w <= -w
  {
    if d >= 1 { assert (d - 1) * w >= 0; }
    if d <= -1 { assert (-1 - d) * w >= 0; }
  }

  lemma DivStep(a: nat, w: nat)
    requires 0 < w <= a
    ensures a / w == (a - w) / w + 1 && a % w == (a - w) % w
  {
    var q, r := (a - w) / w, (a - w) % w;
    assert (q + 1) * w == q * w + w;
    DivUnique(a, w, q + 1, r);
  }

  lemma MulAssoc2(a: int, p: int)
    ensures 2 * (a * p) == a * (2 * p)
  {
  }

  lemma {:induction false} Pow2Add(a: nat, b: nat)
    ensures Pow2(a + b) == Pow2(a) * Pow2(b)
  {
    if b > 0 {
      Pow2Add(a, b - 1);
      assert Pow2(a + b) == 2 * Pow2(a + (b - 1));
    }
  }

  lemma Pow2Const()
    ensures Pow2(4) == 16 && Pow2(5) == 32 && Pow2(8) == 256 && Pow2(10) == 1024 && Pow2(11) == 2048
    ensures Pow2(16) == 0x1_0000 && Pow2(32) == U32 && Pow2(64) == U64
  {
    assert Pow2(4) == 16;
    assert Pow2(5) == 32;
    assert Pow2(8) == 256;
    assert Pow2(10) == 1024;
    assert Pow2(11) == 2048;
    Pow2Add(8, 8);
    Pow2Add(16, 16);
    Pow2Add(32, 32);
  }

  function Pow256(k: nat): (p: nat) {
    if k == 0 then 1 else 256 * Pow256(k - 1)
  }

  lemma Pow256Const()
    ensures Pow256(2) == U16 && Pow256(4) == U32 && Pow256(8) == U64
  {
    assert Pow256(2) == U16;
    assert Pow256(4) == 256 * (256 * Pow256(2));
    assert Pow256(6) == 256 * (256 * Pow256(4));
    assert Pow256(8) == 256 * (256 * Pow256(6));
  }

  lemma Pow2Zero()
    ensures Pow2(0) == 1
  {
  }

  lemma BytesFit(data: seq<byte>)
    ensures Fits(data, 8)
  {
    Pow2Const();
  }

  // ----- Repr and Val are inverse -----

  lemma {:induction false} ValRepr(v: nat, n: nat)
    requires v < Pow2(n)
    ensures Val(Repr(v, n)) == v
  {
    if n > 0 {
      ValRepr(v / 2, n - 1);
      assert Repr(v, n)[..n - 1] == Repr(v / 2, n - 1);
    }
  }

  lemma {:induction false} ReprVal(b: seq<bool>)
    ensures Repr(Val(b), |b|) == b
  {
    if b != [] {
      ReprVal(b[..|b| - 1]);
    }
  }

  /** `v >> k`. */
  function Shr(v: nat, k: nat): (q: nat) {
    if k == 0 then v else Shr(v / 2, k - 1)
  }

  lemma {:induction false} ShrDiv(v: nat, k: nat)
    ensures Shr(v, k) == v / Pow2(k)
  {
    if k > 0 {
      ShrDiv(v / 2, k - 1);
      DivDiv(v, Pow2(k - 1));
    }
  }

  /** The top `n` of `n + k` bits are the shifted value, the low `k` the rest. */
  lemma {:induction false} ReprSplit(v: nat, n: nat, k: nat)
    ensures Repr(v, n + k) == Repr(Shr(v, k), n) + Repr(v, k)
  {
    if k == 0 {
      assert Repr(v, n) + [] == Repr(v, n);
    } else {
      ReprSplit(v / 2, n, k - 1);
      assert n + (k - 1) == n + k - 1;
    }
  }

  lemma DivDiv(v: nat, p: nat)
    requires p > 0
    ensures (v / 2) / p == v / (2 * p)
  {
    var q, r := (v / 2) / p, (v / 2) % p;
    assert v == 2 * (q * p + r) + v % 2;
    assert v == q * (2 * p) + (2 * r + v % 2);
    DivUnique(v, 2 * p, q, 2 * r + v % 2);
  }

  /** Bits above the ones asked for do not matter, so a wrapped accumulator keeps its low bits. */
  lemma {:induction false} ReprMod(v: nat, n: nat, m: nat)
    requires n <= m
    ensures Repr(v % Pow2(m), n) == Repr(v, n)
    decreases n
  {
    if n > 0 {
      HalfMod(v, Pow2(m - 1));
      ReprMod(v / 2, n - 1, m - 1);
    }
  }

  lemma HalfMod(v: nat, p: nat)
    requires p > 0
    ensures (v % (2 * p)) / 2 == (v / 2) % p && (v % (2 * p)) % 2 == v % 2
  {
    var q, r := v / (2 * p), v % (2 * p);
    assert v == 2 * (q * p) + r;
    DivUnique(v / 2, p, q, r / 2);
  }

  lemma ReprJoin(a: nat, d: nat, n: nat, k: nat)
    requires d < Pow2(k)
    ensures Repr(a * Pow2(k) + d, n + k) == Repr(a, n) + Repr(d, k)
  {
    var v := a * Pow2(k) + d;
    DivUnique(v, Pow2(k), a, d);
    ShrDiv(v, k);
    ReprSplit(v, n, k);
    ReprMod(v, k, k);
  }

  lemma {:induction false} ReprZero(n: nat)
    ensures Repr(0, n) == Zeros(n)
  {
    if n > 0 { ReprZero(n - 1); }
  }

  lemma {:induction false} ValAppend(a: seq<bool>, b: seq<bool>)
    ensures Val(a + b) == Val(a) * Pow2(|b|) + Val(b)
  {
    if b == [] {
      assert a + b == a;
    } else {
      var c, x := b[..|b| - 1], if b[|b| - 1] then 1 else 0;
      calc {
        Val(a + b);
        { assert (a + b)[..|a + b| - 1] == a + c; }
        2 * Val(a + c) + x;
        { ValAppend(a, c); }
        2 * (Val(a) * Pow2(|c|) + Val(c)) + x;
        { MulAssoc2(Val(a), Pow2(|c|)); }
        Val(a) * Pow2(|b|) + Val(b);
      }
    }
  }

  /** Bit `i` of the representation is a shift and a mask. */
  lemma {:induction false} ReprAt(v: nat, n: nat, i: nat)
    requires i < n
    ensures Repr(v, n)[i] == ((v / Pow2(n - 1 - i)) % 2 == 1)
  {
    if i < n - 1 {
      ReprAt(v / 2, n - 1, i);
      DivDiv(v, Pow2(n - 2 - i));
    }
  }

  // ----- Expand -----

  lemma ExpandNil(w: nat)
    ensures Expand([], w) == []
  {
  }

  lemma ExpandAppend(g: seq<nat>, x: nat, w: nat)
    ensures Expand(g + [x], w) == Expand(g, w) + Repr(x, w)
  {
    assert (g + [x])[..|g|] == g;
  }

  lemma {:induction false} ExpandConcat(a: seq<nat>, b: seq<nat>, w: nat)
    ensures Expand(a + b, w) == Expand(a, w) + Expand(b, w)
  {
    hide Expand, Repr;
    if b == [] {
      assert a + b == a;
      ExpandNil(w);
    } else {
      var c, x := b[..|b| - 1], b[|b| - 1];
      ExpandConcat(a, c, w);
      assert a + b == (a + c) + [x] && b == c + [x];
      ExpandAppend(a + c, x, w);
      ExpandAppend(c, x, w);
    }
  }

  lemma ExpandCons(x: nat, g: seq<nat>, w: nat)
    ensures Expand([x] + g, w) == Repr(x, w) + Expand(g, w)
  {
    ExpandConcat([x], g, w);
    assert Expand([x], w) == Expand([], w) + Repr(x, w);
  }

  lemma {:induction false} CollectExpand(g: seq<nat>, w: nat)
    requires w > 0 && Fits(g, w)
    ensures Collect(Expand(g, w), w) == g
  {
    var e := Expand(g, w);
    if g == [] {
    } else {
      var t := g[1..];
      assert g == [g[0]] + t;
      ExpandCons(g[0], t, w);
      assert e[..w] == Repr(g[0], w) && e[w..] == Expand(t, w);
      ValRepr(g[0], w);
      CollectExpand(t, w);
    }
  }

  lemma {:induction false} ExpandCollect(b: seq<bool>, w: nat)
    requires w > 0 && |b| % w == 0
    ensures Expand(Collect(b, w), w) == b
  {
    if |b| < w {
      DivSmall(|b|, w);
    } else {
      DivStep(|b|, w);
      ExpandCollect(b[w..], w);
      ReprVal(b[..w]);
      ExpandCons(Val(b[..w]), Collect(b[w..], w), w);
    }
  }

  lemma {:induction false} CollectAt(b: seq<bool>, w: nat, i: nat)
    requires w > 0 && i < |b| / w
    ensures (i + 1) * w <= |b| && Collect(b, w)[i] == Val(b[i * w..(i + 1) * w])
    decreases |b|
  {
    hide Val;
    CollectUnfold(b, w);
    if i == 0 {
      assert 0 * w == 0 && 1 * w == w;
    } else {
      CollectAt(b[w..], w, i - 1);
      var j := i - 1;
      assert i * w == j * w + w && (i + 1) * w == (j + 1) * w + w;
      assert b[w..][j * w..(j + 1) * w] == b[i * w..(i + 1) * w];
    }
  }

  lemma CollectUnfold(b: seq<bool>, w: nat)
    requires 0 < w && |b| / w > 0
    ensures |b| >= w && |b[w..]| / w == |b| / w - 1
    ensures Collect(b, w) == [Val(b[..w])] + Collect(b[w..], w)
  {
    if |b| < w { DivSmall(|b|, w); }
    DivStep(|b|, w);
  }

  /** Two group sequences with the same bit stream are the same. */
  lemma ExpandInjective(a: seq<nat>, b: seq<nat>, w: nat)
    requires w > 0 && Fits(a, w) && Fits(b, w)
    requires Expand(a, w) == Expand(b, w)
    ensures a == b
  {
    CollectExpand(a, w);
    CollectExpand(b, w);
  }

  /** Group `q` of a stream, between what comes before and what comes after. */
  lemma ExpandGroup(g: seq<nat>, w: nat, q: nat)
    requires q < |g|
    ensures Expand(g, w) == Expand(g[..q], w) + (Repr(g[q], w) + Expand(g[q + 1..], w))
  {
    assert g == g[..q] + ([g[q]] + g[q + 1..]);
    ExpandConcat(g[..q], [g[q]] + g[q + 1..], w);
    ExpandCons(g[q], g[q + 1..], w);
  }

  lemma DivBelow(i: nat, w: nat, n: nat)
    requires w > 0 && i < n * w
    ensures i / w < n && i == (i / w) * w + i % w
  {
    var q, r := i / w, i % w;
    assert i == q * w + r;
    MulBound(q - n + 1, w);
    assert (q - n + 1) * w == q * w - n * w + w;
  }

  /** Bit `i` of a stream sits in group `i / w`, at place `i % w`. */
  lemma ExpandAt(g: seq<nat>, w: nat, i: nat)
    requires w > 0 && i < |g| * w
    ensures i / w < |g| && Expand(g, w)[i] == Repr(g[i / w], w)[i % w]
  {
    DivBelow(i, w, |g|);
    ExpandAtPlace(g, w, i / w, i % w, i);
  }

  lemma ExpandAtPlace(g: seq<nat>, w: nat, q: nat, r: nat, i: nat)
    requires q < |g| && r < w && i == q * w + r
    ensures i < |g| * w && Expand(g, w)[i] == Repr(g[q], w)[r]
  {
    ExpandGroup(g, w, q);
    assert |Expand(g[..q], w)| == q * w;
  }

  /** `g` with the bit at stream position `i` set to `x`: `g[i/w] |= 1 << (w-1-i%w)` or `&= ~(...)`. */
  function PutBit(g: seq<nat>, w: nat, i: nat, x: bool): (r: seq<nat>)
    requires w > 0 && i / w < |g|
    ensures |r| == |g|
  {
    g[i / w := Val(Repr(g[i / w], w)[i % w := x])]
  }

  lemma ExpandPutBit(g: seq<nat>, w: nat, i: nat, x: bool)
    requires w > 0 && i < |g| * w && Fits(g, w)
    ensures i / w < |g| && Fits(PutBit(g, w, i, x), w)
    ensures Expand(PutBit(g, w, i, x), w) == Expand(g, w)[i := x]
  {
    DivBelow(i, w, |g|);
    ExpandPut(g, w, i / w, i % w, i, x);
  }

  lemma ExpandPut(g: seq<nat>, w: nat, q: nat, r: nat, i: nat, x: bool)
    requires q < |g| && r < w && i == q * w + r && Fits(g, w)
    ensures var p := g[q := Val(Repr(g[q], w)[r := x])];
            i < |g| * w && Fits(p, w) && Expand(p, w) == Expand(g, w)[i := x]
  {
    hide Expand, Repr, Val;
    var c := Repr(g[q], w)[r := x];
    var p := g[q := Val(c)];
    ReprVal(c);
    ExpandGroup(g, w, q);
    ExpandGroup(p, w, q);
    assert p[..q] == g[..q] && p[q + 1..] == g[q + 1..];
    UpdateMiddle(Expand(g[..q], w), Repr(g[q], w), Expand(g[q + 1..], w), r, x);
  }

  lemma UpdateMiddle<T>(a: seq<T>, m: seq<T>, b: seq<T>, r: nat, x: T)
    requires r < |m|
    ensures |a| + r < |a + (m + b)|
    ensures (a + (m + b))[|a| + r := x] == a + (m[r := x] + b)
  {
  }

  lemma {:induction false} ExpandZeros(n: nat, w: nat)
    ensures Expand(seq(n, _ => 0), w) == Zeros(n * w)
  {
    hide Repr;
    var g := seq(n, _ => 0);
    if n > 0 {
      hide Expand;
      var h := seq(n - 1, _ => 0);
      assert g == h + [0];
      ExpandAppend(h, 0, w);
      ExpandZeros(n - 1, w);
      ReprZero(w);
      assert n * w == (n - 1) * w + w;
    }
  }

  // ----- numerals -----

  /** The number that digits spell in a base, most significant first. */
  function Digits(g: seq<nat>, base: nat): (n: nat) {
    if g == [] then 0 else Digits(g[..|g| - 1], base) * base + g[|g| - 1]
  }

  lemma {:induction false} ValExpand(g: seq<nat>, w: nat)
    requires Fits(g, w)
    ensures Val(Expand(g, w)) == Digits(g, Pow2(w))
  {
    hide Repr, Val;
    if g == [] {
      assert Val([]) == 0 by { ValNone(); }
    } else {
      var n := |g| - 1;
      ValExpand(g[..n], w);
      ValAppend(Expand(g[..n], w), Repr(g[n], w));
      ValRepr(g[n], w);
    }
  }

  lemma ValNone()
    ensures Val([]) == 0
  {
  }

  lemma {:induction false} ValZeros(n: nat)
    ensures Val(Zeros(n)) == 0
  {
    if n > 0 {
      ValZeros(n - 1);
      assert Zeros(n)[..n - 1] == Zeros(n - 1);
    }
  }

  /** The leading bits of a number spell a quotient of it. */
  lemma LeadingBits(v: nat, m: nat, k: nat, b: seq<bool>)
    requires b == Repr(v, m + k) && v < Pow2(m) * Pow2(k)
    ensures Val(b[..m]) == v / Pow2(k)
  {
    hide Repr, Val, Pow2;
    ReprSplit(v, m, k);
    ShrDiv(v, k);
    DivBelow(v, Pow2(k), Pow2(m));
    ValRepr(v / Pow2(k), m);
    assert b[..m] == Repr(Shr(v, k), m);
  }
}
