/**
The bech32 code (BIP 173 / BIP 350): character set, polymod register and the
recompute-and-compare checksum test.  src/bech32m.c uses it with the bech32m
constant, src/bolt11.c repeats it with the bech32 constant.
*/
module Bech32 {
  import opened Bits
  import opened Wrappers

  /** The 30 bits of a register or checksum word; the top two bits of the source's `uint32_t` stay 0. */
  type word30 = b: seq<bool> | |b| == 30 witness Zeros(30)

  function Word(n: nat): (w: word30) {
    Repr(n, 30)
  }

  const BECH32M_CONST: word30 := Word(0x2bc830a3)
  const BECH32_CONST: word30 := Word(1)

  /** A NUL-terminated C string without its terminator. */
  type cstring = s: string | forall i | 0 <= i < |s| :: 0 < s[i] as int < 256

  // ----- characters -----

  function CharOf(i: nat): (c: char)
    requires i < 32
    ensures SymbolOf(c) == Some(i) && c != '1' && Lower(c) == c && 0 < c as int < 128
  {
    match i
    case 0 => 'q' case 1 => 'p' case 2 => 'z' case 3 => 'r' case 4 => 'y' case 5 => '9' case 6 => 'x' case 7 => '8'
    case 8 => 'g' case 9 => 'f' case 10 => '2' case 11 => 't' case 12 => 'v' case 13 => 'd' case 14 => 'w' case 15 => '0'
    case 16 => 's' case 17 => '3' case 18 => 'j' case 19 => 'n' case 20 => '5' case 21 => '4' case 22 => 'k' case 23 => 'h'
    case 24 => 'c' case 25 => 'e' case 26 => '6' case 27 => 'm' case 28 => 'u' case 29 => 'a' case 30 => '7' case _ => 'l'
  }

  function SymbolOf(c: char): (r: Option<nat>)
    ensures r.Some? ==> r.value < 32
  {
    match c
    case 'q' => Some(0) case 'p' => Some(1) case 'z' => Some(2) case 'r' => Some(3)
    case 'y' => Some(4) case '9' => Some(5) case 'x' => Some(6) case '8' => Some(7)
    case 'g' => Some(8) case 'f' => Some(9) case '2' => Some(10) case 't' => Some(11)
    case 'v' => Some(12) case 'd' => Some(13) case 'w' => Some(14) case '0' => Some(15)
    case 's' => Some(16) case '3' => Some(17) case 'j' => Some(18) case 'n' => Some(19)
    case '5' => Some(20) case '4' => Some(21) case 'k' => Some(22) case 'h' => Some(23)
    case 'c' => Some(24) case 'e' => Some(25) case '6' => Some(26) case 'm' => Some(27)
    case 'u' => Some(28) case 'a' => Some(29) case '7' => Some(30) case 'l' => Some(31)
    case _ => None
  }

  function Lower(c: char): (r: char) {
    if 'A' <= c <= 'Z' then (c as int + 32) as char else c
  }

  function LowerAll(s: cstring): (r: cstring)
    ensures |r| == |s| && forall i | 0 <= i < |s| :: r[i] == Lower(s[i])
  {
    seq(|s|, i requires 0 <= i < |s| => Lower(s[i]))
  }

  function Chars(v: seq<nat>): (r: cstring)
    requires Symbols(v)
    ensures |r| == |v| && forall i | 0 <= i < |v| :: r[i] == CharOf(v[i])
  {
    seq(|v|, i requires 0 <= i < |v| => CharOf(v[i]))
  }

  predicate Symbols(v: seq<nat>) {
    forall i | 0 <= i < |v| :: v[i] < 32
  }

  /** Index of the last '1', or -1. */
  function LastOne(s: string): (k: int)
    ensures -1 <= k < |s|
    ensures k >= 0 ==> s[k] == '1'
    ensures forall i | k < i < |s| :: s[i] != '1'
  {
    if s == [] then -1 else if s[|s| - 1] == '1' then |s| - 1 else LastOne(s[..|s| - 1])
  }

  // ----- the polymod register -----

  function Xor(a: seq<bool>, b: seq<bool>): (r: seq<bool>)
    requires |a| == |b|
    ensures |r| == |a| && forall i | 0 <= i < |a| :: r[i] == (a[i] != b[i])
  {
    seq(|a|, i requires 0 <= i < |a| => a[i] != b[i])
  }

  const G0: word30 := Word(0x3b6a57b2)
  const G1: word30 := Word(0x26508e6d)
  const G2: word30 := Word(0x1ea119fa)
  const G3: word30 := Word(0x3d4233dd)
  const G4: word30 := Word(0x2a1462b3)

  /** The xor of the generators selected by the five bits shifted out. */
  function Gen(t: seq<bool>): (r: word30)
    requires |t| == 5
    ensures forall j | 0 <= j < 30 ::
              r[j] == ((t[4] && G0[j]) != ((t[3] && G1[j]) != ((t[2] && G2[j]) != ((t[1] && G3[j]) != (t[0] && G4[j])))))
  {
    seq(30, j requires 0 <= j < 30 =>
      (t[4] && G0[j]) != ((t[3] && G1[j]) != ((t[2] && G2[j]) != ((t[1] && G3[j]) != (t[0] && G4[j])))))
  }

  /** One symbol shifted into the register. */
  function Step(c: word30, v: seq<bool>): (r: word30)
    requires |v| == 5
  {
    Xor(c[5..] + v, Gen(c[..5]))
  }

  function Poly(c: word30, v: seq<nat>): (r: word30) {
    if v == [] then c else Step(Poly(c, v[..|v| - 1]), Repr(v[|v| - 1], 5))
  }

  /** bech32_polymod. */
  method Polymod(v: seq<nat>) returns (c: word30)
    ensures c == Poly(Word(1), v)
  {
    hide Step, Word, Repr, Gen;
    c := Word(1);
    for i := 0 to |v|
      invariant c == Poly(Word(1), v[..i])
    {
      assert v[..i + 1][..i] == v[..i];
      var c0 := c[..5];
      var n: word30 := c[5..] + Repr(v[i], 5);
      n := XorIf(n, c0[4], G0);
      n := XorIf(n, c0[3], G1);
      n := XorIf(n, c0[2], G2);
      n := XorIf(n, c0[1], G3);
      n := XorIf(n, c0[0], G4);
      StepChain(c, Repr(v[i], 5));
      c := n;
    }
    assert v[..|v|] == v;
  }

  function XorIf(n: word30, bit: bool, g: word30): (r: word30)
    ensures forall j | 0 <= j < 30 :: r[j] == (n[j] != (bit && g[j]))
  {
    if bit then Xor(n, g) else n
  }

  lemma StepChain(c: word30, v: seq<bool>)
    requires |v| == 5
    ensures XorIf(XorIf(XorIf(XorIf(XorIf(c[5..] + v, c[4], G0), c[3], G1), c[2], G2), c[1], G3), c[0], G4) == Step(c, v)
  {
    hide XorIf, Gen, Word;
    var n: word30 := c[5..] + v;
    var r := XorIf(XorIf(XorIf(XorIf(XorIf(n, c[4], G0), c[3], G1), c[2], G2), c[1], G3), c[0], G4);
    assert forall j | 0 <= j < 30 :: r[j] == Step(c, v)[j];
  }

  // ----- the register is linear and injective -----

  lemma StepXor(c: word30, e: word30, v: seq<bool>, w: seq<bool>)
    requires |v| == 5 && |w| == 5
    ensures Step(Xor(c, e), Xor(v, w)) == Xor(Step(c, v), Step(e, w))
  {
    hide Xor, Gen, Word;
    var x := Xor(c, e);
    assert Xor(c[..5], e[..5]) == x[..5];
    GenXor(c[..5], e[..5]);
    assert x[5..] + Xor(v, w) == Xor(c[5..] + v, e[5..] + w);
    assert Step(x, Xor(v, w)) == Xor(Xor(c[5..] + v, e[5..] + w), Xor(Gen(c[..5]), Gen(e[..5])));
  }

  lemma GenXor(a: seq<bool>, b: seq<bool>)
    requires |a| == 5 && |b| == 5
    ensures Gen(Xor(a, b)) == Xor(Gen(a), Gen(b))
  {
    hide Xor, Gen, Word;
    var x, g, h := Xor(a, b), Gen(a), Gen(b);
    forall j | 0 <= j < 30
      ensures Gen(x)[j] == Xor(g, h)[j]
    {
      Parity(a[4], b[4], G0[j], a[3], b[3], G1[j], a[2], b[2], G2[j], a[1], b[1], G3[j], a[0], b[0], G4[j]);
    }
  }

  lemma Parity(a0: bool, b0: bool, g0: bool, a1: bool, b1: bool, g1: bool, a2: bool, b2: bool, g2: bool,
               a3: bool, b3: bool, g3: bool, a4: bool, b4: bool, g4: bool)
    ensures (((a0 != b0) && g0) != (((a1 != b1) && g1) != (((a2 != b2) && g2) != (((a3 != b3) && g3) != ((a4 != b4) && g4)))))
         == (((a0 && g0) != ((a1 && g1) != ((a2 && g2) != ((a3 && g3) != (a4 && g4)))))
          != ((b0 && g0) != ((b1 && g1) != ((b2 && g2) != ((b3 && g3) != (b4 && g4))))))
  {
  }

  /** The low five bits of the generators, an invertible 5 by 5 matrix. */
  lemma GenLow()
    ensures G0[25..] == [true, false, false, true, false]
    ensures G1[25..] == [false, true, true, false, true]
    ensures G2[25..] == [true, true, false, true, false]
    ensures G3[25..] == [true, true, true, false, true]
    ensures G4[25..] == [true, false, false, true, true]
  {
    hide Repr;
    LowFive(0x3b6a57b2, 0x3b6a57b2 / 32, true, false, false, true, false);
    LowFive(0x26508e6d, 0x26508e6d / 32, false, true, true, false, true);
    LowFive(0x1ea119fa, 0x1ea119fa / 32, true, true, false, true, false);
    LowFive(0x3d4233dd, 0x3d4233dd / 32, true, true, true, false, true);
    LowFive(0x2a1462b3, 0x2a1462b3 / 32, true, false, false, true, true);
  }

  function Bit(b: bool): (n: nat) {
    if b then 1 else 0
  }

  lemma LowFive(g: nat, q: nat, b4: bool, b3: bool, b2: bool, b1: bool, b0: bool)
    requires g == 32 * q + 16 * Bit(b4) + 8 * Bit(b3) + 4 * Bit(b2) + 2 * Bit(b1) + Bit(b0)
    ensures Repr(g, 30)[25..] == [b4, b3, b2, b1, b0]
  {
    hide Repr, Val, Pow2, Shr;
    var b := [b4, b3, b2, b1, b0];
    Pow2Const();
    ValFive(b4, b3, b2, b1, b0);
    assert g % 32 == Val(b);
    ReprVal(b);
    ReprMod(g, 5, 5);
    ReprSplit(g, 25, 5);
    assert (Repr(Shr(g, 5), 25) + Repr(g, 5))[25..] == Repr(g, 5);
  }

  lemma ValFive(b4: bool, b3: bool, b2: bool, b1: bool, b0: bool)
    ensures Val([b4, b3, b2, b1, b0]) == 16 * Bit(b4) + 8 * Bit(b3) + 4 * Bit(b2) + 2 * Bit(b1) + Bit(b0)
  {
    hide Val;
    ValStep([b4, b3, b2, b1], b0);
    ValStep([b4, b3, b2], b1);
    ValStep([b4, b3], b2);
    ValStep([b4], b3);
    ValStep([], b4);
    assert [b4, b3, b2, b1, b0] == [b4, b3, b2, b1] + [b0];
    assert [b4, b3, b2, b1] == [b4, b3, b2] + [b1];
    assert [b4, b3, b2] == [b4, b3] + [b2];
    assert [b4, b3] == [b4] + [b3];
    assert [b4] == [] + [b4];
    ValNil();
  }

  lemma ValStep(a: seq<bool>, x: bool)
    ensures Val(a + [x]) == 2 * Val(a) + Bit(x)
  {
    assert (a + [x])[..|a|] == a;
  }

  lemma ValNil()
    ensures Val([]) == 0
  {
  }

  lemma StepKernel(e: word30)
    requires Step(e, Zeros(5)) == Zeros(30)
    ensures e == Zeros(30)
  {
    hide Word;
    GenLow();
    var t, g := e[..5], Gen(e[..5]);
    var s := e[5..] + Zeros(5);
    forall j | 0 <= j < 30
      ensures s[j] == g[j]
    {
      assert Step(e, Zeros(5))[j] == (s[j] != g[j]);
    }
    assert !s[25] && !s[26] && !s[27] && !s[28] && !s[29];
    assert G0[25] == G0[25..][0] && G0[26] == G0[25..][1] && G0[27] == G0[25..][2] && G0[28] == G0[25..][3] && G0[29] == G0[25..][4];
    assert G1[25] == G1[25..][0] && G1[26] == G1[25..][1] && G1[27] == G1[25..][2] && G1[28] == G1[25..][3] && G1[29] == G1[25..][4];
    assert G2[25] == G2[25..][0] && G2[26] == G2[25..][1] && G2[27] == G2[25..][2] && G2[28] == G2[25..][3] && G2[29] == G2[25..][4];
    assert G3[25] == G3[25..][0] && G3[26] == G3[25..][1] && G3[27] == G3[25..][2] && G3[28] == G3[25..][3] && G3[29] == G3[25..][4];
    assert G4[25] == G4[25..][0] && G4[26] == G4[25..][1] && G4[27] == G4[25..][2] && G4[28] == G4[25..][3] && G4[29] == G4[25..][4];
    assert !t[0] && !t[1] && !t[2] && !t[3] && !t[4];
    assert forall j | 0 <= j < 30 :: !g[j];
    assert forall j | 5 <= j < 30 :: e[j] == s[j - 5];
    assert e[0] == t[0] && e[1] == t[1] && e[2] == t[2] && e[3] == t[3] && e[4] == t[4];
  }

  lemma StepInjective(a: word30, b: word30, v: seq<bool>)
    requires |v| == 5 && a != b
    ensures Step(a, v) != Step(b, v)
  {
    hide Step;
    StepXor(a, b, v, v);
    var x := Xor(a, b);
    assert Xor(v, v) == Zeros(5);
    var i :| 0 <= i < 30 && a[i] != b[i];
    assert x[i] && x != Zeros(30);
    assert Step(x, Zeros(5)) != Zeros(30) by {
      if Step(x, Zeros(5)) == Zeros(30) { StepKernel(x); }
    }
  }

  lemma StepDiffer(c: word30, v: seq<bool>, w: seq<bool>)
    requires |v| == 5 && |w| == 5 && v != w
    ensures Step(c, v) != Step(c, w)
  {
    var i :| 0 <= i < 5 && v[i] != w[i];
    assert (c[5..] + v)[25 + i] != (c[5..] + w)[25 + i];
    assert Step(c, v)[25 + i] != Step(c, w)[25 + i];
  }

  lemma {:induction false} PolyConcat(c: word30, a: seq<nat>, b: seq<nat>)
    ensures Poly(c, a + b) == Poly(Poly(c, a), b)
  {
    hide Step;
    if b == [] {
      assert a + b == a;
    } else {
      var t := b[..|b| - 1];
      PolyConcat(c, a, t);
      assert (a + b)[..|a + b| - 1] == a + t;
    }
  }

  lemma {:induction false} PolyInjective(a: word30, b: word30, v: seq<nat>)
    requires a != b
    ensures Poly(a, v) != Poly(b, v)
  {
    hide Step;
    if v != [] {
      var t := v[..|v| - 1];
      PolyInjective(a, b, t);
      StepInjective(Poly(a, t), Poly(b, t), Repr(v[|v| - 1], 5));
    }
  }

  /** Two inputs that differ in exactly one symbol never reach the same register. */
  lemma OneSymbolApart(c: word30, v: seq<nat>, i: nat, y: nat)
    requires i < |v| && v[i] < 32 && y < 32 && y != v[i]
    ensures Poly(c, v[i := y]) != Poly(c, v)
  {
    hide Step, Repr;
    var x, pre, post := v[i], v[..i], v[i + 1..];
    assert v == (pre + [x]) + post && v[i := y] == (pre + [y]) + post;
    PolyConcat(c, pre + [x], post);
    PolyConcat(c, pre + [y], post);
    assert (pre + [x])[..i] == pre && (pre + [y])[..i] == pre;
    Pow2Const();
    ValRepr(x, 5);
    ValRepr(y, 5);
    var p := Poly(c, pre);
    StepDiffer(p, Repr(x, 5), Repr(y, 5));
    PolyInjective(Step(p, Repr(x, 5)), Step(p, Repr(y, 5)), post);
  }

  // ----- the checksum -----

  /** High bits of every character, a zero, low bits of every character. */
  function ExpandHrp(hrp: cstring): (r: seq<nat>)
    ensures |r| == 2 * |hrp| + 1 && Symbols(r)
  {
    seq(|hrp|, i requires 0 <= i < |hrp| => hrp[i] as int / 32)
    + [0] + seq(|hrp|, i requires 0 <= i < |hrp| => hrp[i] as int % 32)
  }

  const ZERO6: seq<nat> := [0, 0, 0, 0, 0, 0]

  function ChecksumOf(hrp: cstring, d5: seq<nat>, k: word30): (r: word30) {
    Xor(Poly(Word(1), ExpandHrp(hrp) + d5 + ZERO6), k)
  }

  lemma BufferAt(hrp: cstring, d5: seq<nat>)
    ensures var e := ExpandHrp(hrp) + d5 + ZERO6;
            var n := |hrp|;
            && (forall i | 0 <= i < n :: e[i] == hrp[i] as int / 32) && e[n] == 0
            && (forall i | 0 <= i < n :: e[n + 1 + i] == hrp[i] as int % 32)
            && (forall i | 0 <= i < |d5| :: e[2 * n + 1 + i] == d5[i])
            && (forall j | 2 * n + 1 + |d5| <= j < |e| :: e[j] == 0)
  {
  }

  /** bech32m_checksum / bech32_checksum_val, with a buffer of `cap` symbols; 0 when it does not fit. */
  method Checksum(hrp: cstring, d5: seq<nat>, k: word30, cap: nat) returns (r: word30)
    ensures |hrp| * 2 + 1 + |d5| + 6 <= cap ==> r == ChecksumOf(hrp, d5, k)
    ensures |hrp| * 2 + 1 + |d5| + 6 > cap ==> r == Zeros(30)
  {
    hide Poly, Word, Xor, ExpandHrp, Zeros;
    if |hrp| * 2 + 1 + |d5| + 6 > cap {
      return Zeros(30);
    }
    var buf := new nat[cap];
    var pos := 0;
    ghost var e := ExpandHrp(hrp) + d5 + ZERO6;
    BufferAt(hrp, d5);
    for i := 0 to |hrp|
      invariant pos == i && forall j | 0 <= j < pos :: buf[j] == e[j]
    {
      buf[pos] := hrp[i] as int / 32;
      pos := pos + 1;
    }
    buf[pos] := 0;
    pos := pos + 1;
    for i := 0 to |hrp|
      invariant pos == |hrp| + 1 + i && forall j | 0 <= j < pos :: buf[j] == e[j]
    {
      buf[pos] := hrp[i] as int % 32;
      pos := pos + 1;
    }
    for i := 0 to |d5|
      invariant pos == 2 * |hrp| + 1 + i && forall j | 0 <= j < pos :: buf[j] == e[j]
    {
      buf[pos] := d5[i];
      pos := pos + 1;
    }
    for i := 0 to 6
      invariant pos == 2 * |hrp| + 1 + |d5| + i && forall j | 0 <= j < pos :: buf[j] == e[j]
    {
      buf[pos] := 0;
      pos := pos + 1;
    }
    assert buf[..pos] == e;
    var pm := Polymod(buf[..pos]);
    r := Xor(pm, k);
  }

  /** The decoder's test: recompute over the data symbols, compare with the last six. */
  predicate Accepts(hrp: cstring, v: seq<nat>, k: word30)
    requires |v| >= 6
  {
    ChecksumOf(hrp, v[..|v| - 6], k) == Expand(v[|v| - 6..], 5)
  }

  /** Feeding symbols instead of zeros adds exactly those symbols, as long as nothing is shifted out. */
  lemma {:induction false} PolyTail(c: word30, k: seq<nat>)
    requires |k| <= 6
    ensures Poly(c, k) == Xor(Poly(c, ZERO6[..|k|]), Zeros(30 - 5 * |k|) + Expand(k, 5))
  {
    hide Step, Xor, Repr;
    var n := |k|;
    if n == 0 {
      assert ZERO6[..0] == [];
      assert Zeros(30) + Expand(k, 5) == Zeros(30);
      assert Xor(c, Zeros(30)) == c;
    } else {
      var t, x := k[..n - 1], k[n - 1];
      PolyTail(c, t);
      assert ZERO6[..n][..n - 1] == ZERO6[..n - 1] && ZERO6[..n][n - 1] == 0;
      var q := Poly(c, ZERO6[..n - 1]);
      var a := Zeros(30 - 5 * (n - 1)) + Expand(t, 5);
      ReprZero(5);
      StepXor(q, a, Zeros(5), Repr(x, 5));
      assert Xor(Zeros(5), Repr(x, 5)) == Repr(x, 5);
      NoOverflow(a, Repr(x, 5));
      assert a[5..] + Repr(x, 5) == Zeros(30 - 5 * n) + Expand(k, 5) by {
        assert Expand(k, 5) == Expand(t, 5) + Repr(x, 5);
      }
    }
  }

  lemma NoOverflow(a: word30, v: seq<bool>)
    requires |v| == 5 && forall j | 0 <= j < 5 :: !a[j]
    ensures Step(a, v) == a[5..] + v
  {
    hide Word;
  }

  /**
  The recompute-and-compare test accepts exactly the words BIP 173 and BIP 350 call
  valid: those whose polymod over the expanded prefix and all symbols is the constant.
  */
  lemma AcceptsExactly(hrp: cstring, v: seq<nat>, k: word30)
    requires |v| >= 6
    ensures Accepts(hrp, v, k) <==> Poly(Word(1), ExpandHrp(hrp) + v) == k
  {
    hide *;
    var d5, chk := v[..|v| - 6], v[|v| - 6..];
    AcceptsSplit(hrp, d5, chk, k);
    assert v == d5 + chk;
  }

  lemma AcceptsSplit(hrp: cstring, d5: seq<nat>, chk: seq<nat>, k: word30)
    requires |chk| == 6
    ensures Accepts(hrp, d5 + chk, k) <==> Poly(Word(1), ExpandHrp(hrp) + (d5 + chk)) == k
  {
    hide Poly, ExpandHrp, Xor, Expand, Word;
    var v := d5 + chk;
    assert v[..|v| - 6] == d5 && v[|v| - 6..] == chk;
    var pre := ExpandHrp(hrp) + d5;
    assert ExpandHrp(hrp) + (d5 + chk) == pre + chk;
    PolySix(Word(1), pre, chk);
    XorMove(Poly(Word(1), pre + ZERO6), Expand(chk, 5), k);
  }

  lemma PolySix(c: word30, pre: seq<nat>, chk: seq<nat>)
    requires |chk| == 6
    ensures Poly(c, pre + chk) == Xor(Poly(c, pre + ZERO6), Expand(chk, 5))
  {
    hide Poly, Xor, Expand;
    PolyConcat(c, pre, chk);
    PolyConcat(c, pre, ZERO6);
    PolyTail(Poly(c, pre), chk);
    assert ZERO6[..6] == ZERO6;
    assert Zeros(0) + Expand(chk, 5) == Expand(chk, 5);
  }

  lemma XorMove(a: word30, b: word30, k: word30)
    ensures Xor(a, k) == b <==> Xor(a, b) == k
  {
    if Xor(a, k) == b { assert Xor(a, b) == k; }
    if Xor(a, b) == k { assert Xor(a, k) == b; }
  }

  /** Any single changed symbol, data or checksum, is rejected, at every length. */
  lemma OneErrorDetected(hrp: cstring, v: seq<nat>, i: nat, y: nat, k: word30)
    requires |v| >= 6 && i < |v| && v[i] < 32 && y < 32 && y != v[i]
    requires Accepts(hrp, v, k)
    ensures !Accepts(hrp, v[i := y], k)
  {
    hide Poly, Accepts, ExpandHrp, Word;
    var e := ExpandHrp(hrp);
    var w := v[i := y];
    AcceptsExactly(hrp, v, k);
    AcceptsExactly(hrp, w, k);
    assert (e + v)[|e| + i := y] == e + w;
    OneSymbolApart(Word(1), e + v, |e| + i, y);
  }

  /** The symbols an encoder appends. */
  function Appended(hrp: cstring, d5: seq<nat>, k: word30): (r: seq<nat>)
    ensures |r| == 6 && Symbols(r)
  {
    Pow2Const();
    Collect(ChecksumOf(hrp, d5, k), 5)
  }

  /** What the encoder appends is what the decoder accepts. */
  lemma AppendedAccepted(hrp: cstring, d5: seq<nat>, k: word30)
    ensures Accepts(hrp, d5 + Appended(hrp, d5, k), k)
  {
    hide ChecksumOf, Collect, Expand;
    var chk := ChecksumOf(hrp, d5, k);
    var v := d5 + Appended(hrp, d5, k);
    assert v[..|v| - 6] == d5 && v[|v| - 6..] == Appended(hrp, d5, k);
    ExpandCollect(chk, 5);
  }
}
