/**
The polymod register as the machine arithmetic of src/bech32m.c:30-42, shown equal to the
register of module Bech32, and the published strings for both checksum constants.
*/
module Bech32Vectors {
  import opened Bits
  import opened Wrappers
  import opened Bech32
  import opened Regroup
  import Bech32m

  // ----- machine words -----

  /** One bit, counted from the top. */
  function Mask(i: nat): (m: bv30)
    requires i < 30
  {
    match i
    case 0 => 0x20000000 case 1 => 0x10000000 case 2 => 0x8000000 case 3 => 0x4000000 case 4 => 0x2000000 case 5 => 0x1000000
    case 6 => 0x800000 case 7 => 0x400000 case 8 => 0x200000 case 9 => 0x100000 case 10 => 0x80000 case 11 => 0x40000
    case 12 => 0x20000 case 13 => 0x10000 case 14 => 0x8000 case 15 => 0x4000 case 16 => 0x2000 case 17 => 0x1000
    case 18 => 0x800 case 19 => 0x400 case 20 => 0x200 case 21 => 0x100 case 22 => 0x80 case 23 => 0x40
    case 24 => 0x20 case 25 => 0x10 case 26 => 0x8 case 27 => 0x4 case 28 => 0x2 case _ => 1
  }

  predicate Test(x: bv30, m: bv30) {
    x & m != 0
  }

  predicate On(x: bv30, i: nat)
    requires i < 30
  {
    Test(x, Mask(i))
  }

  function BvWord(x: bv30): (w: word30)
    ensures forall i | 0 <= i < 30 :: w[i] == On(x, i)
  {
    seq(30, i requires 0 <= i < 30 => On(x, i))
  }

  lemma XorBit(x: bv30, y: bv30, i: nat)
    requires i < 30
    ensures On(x ^ y, i) <==> On(x, i) != On(y, i)
  {
    hide Mask, Test;
    OneBit(i);
    XorMask(x, y, Mask(i));
  }

  lemma OneBit(i: nat)
    requires i < 30
    ensures Mask(i) != 0 && Mask(i) & (Mask(i) - 1) == 0
  {
  }

  lemma XorMask(x: bv30, y: bv30, m: bv30)
    requires m != 0 && m & (m - 1) == 0
    ensures Test(x ^ y, m) <==> Test(x, m) != Test(y, m)
  {
  }

  lemma XorBv(x: bv30, y: bv30)
    ensures Xor(BvWord(x), BvWord(y)) == BvWord(x ^ y)
  {
    hide On, BvWord;
    forall i | 0 <= i < 30
      ensures Xor(BvWord(x), BvWord(y))[i] == BvWord(x ^ y)[i]
    {
      XorBit(x, y, i);
    }
  }

  function Shifted(c: bv30, v: bv30): (n: bv30) {
    ((c & 0x1ff_ffff) << 5) ^ v
  }

  lemma HighBit(c: bv30, v: bv30, i: nat)
    requires i < 25 && v < 32
    ensures On(Shifted(c, v), i) <==> On(c, i + 5)
  {
    hide Mask, Shifted, Test, Follows;
    MaskShift(i);
    HighMask(c, v, Mask(i), Mask(i + 5));
  }

  /** Five places up. */
  predicate Follows(m: bv30, low: bv30) {
    m == low << 5 && low & 0x1ff_ffff == low
  }

  lemma MaskShift(i: nat)
    requires i < 25
    ensures Follows(Mask(i), Mask(i + 5))
  {
  }

  lemma HighMask(c: bv30, v: bv30, m: bv30, low: bv30)
    requires v < 32 && Follows(m, low)
    ensures Test(Shifted(c, v), m) <==> Test(c, low)
  {
  }

  lemma LowBit(c: bv30, v: bv30, i: nat)
    requires 25 <= i < 30 && v < 32
    ensures On(Shifted(c, v), i) <==> On(v, i)
  {
  }

  lemma ShiftBv(c: bv30, v: bv30)
    requires v < 32
    ensures BvWord(c)[5..] + BvWord(v)[25..] == BvWord(Shifted(c, v))
  {
    hide On, BvWord, Shifted;
    var l, r := BvWord(c)[5..] + BvWord(v)[25..], BvWord(Shifted(c, v));
    forall i | 0 <= i < 30
      ensures l[i] == r[i]
    {
      if i < 25 { HighBit(c, v, i); } else { LowBit(c, v, i); }
    }
  }

  // ----- numbers as words -----

  function Num5(b: seq<bool>): (n: nat)
    requires |b| == 5
  {
    (if b[0] then 16 else 0) + (if b[1] then 8 else 0) + (if b[2] then 4 else 0) + (if b[3] then 2 else 0) + if b[4] then 1 else 0
  }

  lemma Val5(b: seq<bool>)
    requires |b| == 5
    ensures Val(b) == Num5(b)
  {
    var b4, b3, b2, b1 := b[..4], b[..3], b[..2], b[..1];
    assert b4[..3] == b3 && b3[..2] == b2 && b2[..1] == b1 && b1[..0] == [];
    assert Val(b1) == if b[0] then 1 else 0;
    assert Val(b2) == 2 * Val(b1) + if b[1] then 1 else 0;
    assert Val(b3) == 2 * Val(b2) + if b[2] then 1 else 0;
    assert Val(b4) == 2 * Val(b3) + if b[3] then 1 else 0;
  }

  lemma FiveIs(n: nat, b: seq<bool>)
    requires |b| == 5 && Num5(b) == n
    ensures Repr(n, 5) == b
  {
    Val5(b);
    ReprVal(b);
  }

  lemma SymbolBv(v: nat)
    requires v < 32
    ensures (v as bv30) < 32 && Repr(v, 5) == BvWord(v as bv30)[25..]
  {
    assert (v as bv30) < 32;
    FiveIs(v, BvWord(v as bv30)[25..]);
  }

  type symbol = n: nat | n < 32

  function In(x: bv30, v: symbol): (r: bv30) {
    Shifted(x, v as bv30)
  }

  /** Six symbols shifted in, one after the other. */
  function Six(a: symbol, b: symbol, c: symbol, d: symbol, e: symbol, f: symbol): (x: bv30) {
    In(In(In(In(In(In(0, a), b), c), d), e), f)
  }

  /** The last `k` bits of the word spell `n`. */
  predicate Spells(x: bv30, k: nat, n: nat)
    requires k <= 30
  {
    BvWord(x)[30 - k..] == Repr(n, k)
  }

  lemma Grow(x: bv30, k: nat, n: nat, v: symbol)
    requires k <= 25 && Spells(x, k, n)
    ensures Spells(In(x, v), k + 5, n * 32 + v)
  {
    hide BvWord, Repr, Shifted;
    SymbolBv(v);
    ShiftBv(x, v as bv30);
    Pow2Const();
    ReprJoin(n, v, k, 5);
    var w, r := BvWord(x), BvWord(In(x, v));
    Tails(w, r, Repr(v, 5), k);
  }

  /** A shift by five keeps the last `k` bits in front of the new ones. */
  lemma Tails(w: word30, next: word30, low: seq<bool>, k: nat)
    requires |low| == 5 && next == w[5..] + low && k <= 25
    ensures next[25 - k..] == w[30 - k..] + low
  {
  }

  lemma NumberIs(n: nat, a: symbol, b: symbol, c: symbol, d: symbol, e: symbol, f: symbol)
    requires n == ((((a * 32 + b) * 32 + c) * 32 + d) * 32 + e) * 32 + f
    ensures Word(n) == BvWord(Six(a, b, c, d, e, f))
  {
    hide BvWord, Repr, In, Spells;
    NoneSpelt();
    Grow(0, 0, 0, a);
    var x, y := In(0, a), In(In(0, a), b);
    var m := a * 32 + b;
    Grow(x, 5, a, b);
    Grow(y, 10, m, c);
    var z, o := In(y, c), m * 32 + c;
    Grow(z, 15, o, d);
    Grow(In(z, d), 20, o * 32 + d, e);
    Grow(In(In(z, d), e), 25, (o * 32 + d) * 32 + e, f);
    AllSpelt(Six(a, b, c, d, e, f), n);
  }

  lemma NoneSpelt()
    ensures Spells(0, 0, 0)
  {
    hide BvWord;
  }

  lemma AllSpelt(x: bv30, n: nat)
    requires Spells(x, 30, n)
    ensures Word(n) == BvWord(x)
  {
    hide BvWord, Repr;
    assert BvWord(x)[0..] == BvWord(x);
  }

  lemma G0Is()
    ensures G0 == BvWord(0x3b6a57b2)
  {
    hide Word, BvWord;
    NumberIs(0x3b6a57b2, 29, 22, 20, 21, 29, 18);
    assert Six(29, 22, 20, 21, 29, 18) == 0x3b6a57b2;
  }

  lemma G1Is()
    ensures G1 == BvWord(0x26508e6d)
  {
    hide Word, BvWord;
    NumberIs(0x26508e6d, 19, 5, 1, 3, 19, 13);
    assert Six(19, 5, 1, 3, 19, 13) == 0x26508e6d;
  }

  lemma G2Is()
    ensures G2 == BvWord(0x1ea119fa)
  {
    hide Word, BvWord;
    NumberIs(0x1ea119fa, 15, 10, 2, 6, 15, 26);
    assert Six(15, 10, 2, 6, 15, 26) == 0x1ea119fa;
  }

  lemma G3Is()
    ensures G3 == BvWord(0x3d4233dd)
  {
    hide Word, BvWord;
    NumberIs(0x3d4233dd, 30, 20, 4, 12, 30, 29);
    assert Six(30, 20, 4, 12, 30, 29) == 0x3d4233dd;
  }

  lemma G4Is()
    ensures G4 == BvWord(0x2a1462b3)
  {
    hide Word, BvWord;
    NumberIs(0x2a1462b3, 21, 1, 8, 24, 21, 19);
    assert Six(21, 1, 8, 24, 21, 19) == 0x2a1462b3;
  }

  // ----- the step of the source -----

  /** bech32_polymod's loop body. */
  function StepBv(c: bv30, v: bv30): (r: bv30) {
    var c0 := c >> 25;
    Mixed(Shifted(c, v), Test(c0, 1), Test(c0, 2), Test(c0, 4), Test(c0, 8), Test(c0, 16))
  }

  function Mix(n: bv30, bit: bool, g: bv30): (r: bv30) {
    if bit then n ^ g else n
  }

  function Mixed(n: bv30, b0: bool, b1: bool, b2: bool, b3: bool, b4: bool): (r: bv30) {
    Mix(Mix(Mix(Mix(Mix(n, b0, 0x3b6a57b2), b1, 0x26508e6d), b2, 0x1ea119fa), b3, 0x3d4233dd), b4, 0x2a1462b3)
  }

  lemma TopBits(c: bv30)
    ensures var c0 := c >> 25;
            && (On(c, 4) <==> Test(c0, 1)) && (On(c, 3) <==> Test(c0, 2)) && (On(c, 2) <==> Test(c0, 4))
            && (On(c, 1) <==> Test(c0, 8)) && (On(c, 0) <==> Test(c0, 16))
  {
    hide Mask, Test;
    FirstMasks();
    TopMask(c);
  }

  lemma FirstMasks()
    ensures Mask(0) == 0x2000_0000 && Mask(1) == 0x1000_0000 && Mask(2) == 0x800_0000
    ensures Mask(3) == 0x400_0000 && Mask(4) == 0x200_0000
  {
  }

  lemma TopMask(c: bv30)
    ensures var c0 := c >> 25;
            && (Test(c, 0x200_0000) <==> Test(c0, 1)) && (Test(c, 0x400_0000) <==> Test(c0, 2))
            && (Test(c, 0x800_0000) <==> Test(c0, 4)) && (Test(c, 0x1000_0000) <==> Test(c0, 8))
            && (Test(c, 0x2000_0000) <==> Test(c0, 16))
  {
  }

  lemma MixIs(n: bv30, bit: bool, g: bv30)
    ensures XorIf(BvWord(n), bit, BvWord(g)) == BvWord(Mix(n, bit, g))
  {
    hide BvWord;
    XorBv(n, g);
  }

  lemma MixedIs(n: bv30, b0: bool, b1: bool, b2: bool, b3: bool, b4: bool)
    ensures XorIf(XorIf(XorIf(XorIf(XorIf(BvWord(n), b0, G0), b1, G1), b2, G2), b3, G3), b4, G4) == BvWord(Mixed(n, b0, b1, b2, b3, b4))
  {
    hide BvWord, Word, XorIf, Mix;
    G0Is();
    G1Is();
    G2Is();
    G3Is();
    G4Is();
    MixIs(n, b0, 0x3b6a57b2);
    var n0 := Mix(n, b0, 0x3b6a57b2);
    MixIs(n0, b1, 0x26508e6d);
    var n1 := Mix(n0, b1, 0x26508e6d);
    MixIs(n1, b2, 0x1ea119fa);
    var n2 := Mix(n1, b2, 0x1ea119fa);
    MixIs(n2, b3, 0x3d4233dd);
    MixIs(Mix(n2, b3, 0x3d4233dd), b4, 0x2a1462b3);
  }

  /** The register of module Bech32 is the source's word, step by step. */
  lemma StepBvIs(c: bv30, v: bv30)
    requires v < 32
    ensures Step(BvWord(c), BvWord(v)[25..]) == BvWord(StepBv(c, v))
  {
    hide BvWord, On, Step, Word, XorIf, Shifted, Mixed;
    var w := BvWord(c);
    StepChain(w, BvWord(v)[25..]);
    ShiftBv(c, v);
    TopBits(c);
    MixedIs(Shifted(c, v), w[4], w[3], w[2], w[1], w[0]);
  }

  /** bech32_polymod, on symbols. */
  function PolyBv(v: seq<nat>): (c: bv30)
    requires Symbols(v)
  {
    if v == [] then 1 else StepBv(PolyBv(v[..|v| - 1]), v[|v| - 1] as bv30)
  }

  lemma OneIs()
    ensures Word(1) == BvWord(1)
  {
    hide Word, BvWord;
    NumberIs(1, 0, 0, 0, 0, 0, 1);
    assert Six(0, 0, 0, 0, 0, 1) == 1;
  }

  /** For every symbol string the register ends as the source's word. */
  lemma {:induction false} PolyBvIs(v: seq<nat>)
    requires Symbols(v)
    ensures Poly(Word(1), v) == BvWord(PolyBv(v))
  {
    hide Step, Word, BvWord, StepBv, Repr;
    if v == [] {
      OneIs();
    } else {
      var n := |v| - 1;
      PolyBvIs(v[..n]);
      SymbolBv(v[n]);
      StepBvIs(PolyBv(v[..n]), v[n] as bv30);
    }
  }

  lemma Next(v: seq<nat>, x: nat, c: bv30)
    requires Symbols(v) && x < 32 && PolyBv(v) == c
    ensures Symbols(v + [x]) && PolyBv(v + [x]) == StepBv(c, x as bv30)
  {
    hide StepBv;
    assert (v + [x])[..|v|] == v;
  }

  lemma Start()
    ensures PolyBv([]) == 1
  {
  }

  /** The BIP 350 string "a1lqfn3a": expanded prefix, data and checksum. */
  lemma Vector350()
    ensures Symbols([3, 0, 1, 31, 0, 9, 19, 17, 29]) && PolyBv([3, 0, 1, 31, 0, 9, 19, 17, 29]) == 0x2bc830a3
  {
    hide PolyBv;
    assert PolyBv([]) == 1 by { Start(); }
    Next([], 3, 0x1);
    assert [] + [3] == [3];
    Next([3], 0, 0x23);
    assert [3] + [0] == [3, 0];
    Next([3, 0], 1, 0x460);
    assert [3, 0] + [1] == [3, 0, 1];
    Next([3, 0, 1], 31, 0x8c01);
    assert [3, 0, 1] + [31] == [3, 0, 1, 31];
    Next([3, 0, 1, 31], 0, 0x11803f);
    assert [3, 0, 1, 31] + [0] == [3, 0, 1, 31, 0];
    Next([3, 0, 1, 31, 0], 9, 0x23007e0);
    assert [3, 0, 1, 31, 0] + [9] == [3, 0, 1, 31, 0, 9];
    Next([3, 0, 1, 31, 0, 9], 19, 0x3d6aabbb);
    assert [3, 0, 1, 31, 0, 9] + [19] == [3, 0, 1, 31, 0, 9, 19];
    Next([3, 0, 1, 31, 0, 9, 19], 17, 0x2f2b18a);
    assert [3, 0, 1, 31, 0, 9, 19] + [17] == [3, 0, 1, 31, 0, 9, 19, 17];
    Next([3, 0, 1, 31, 0, 9, 19, 17], 29, 0x253c66e3);
    assert [3, 0, 1, 31, 0, 9, 19, 17] + [29] == [3, 0, 1, 31, 0, 9, 19, 17, 29];
  }

  /** The BIP 173 string "a12uel5l". */
  lemma Vector173()
    ensures Symbols([3, 0, 1, 10, 28, 25, 31, 20, 31]) && PolyBv([3, 0, 1, 10, 28, 25, 31, 20, 31]) == 0x1
  {
    hide PolyBv;
    assert PolyBv([]) == 1 by { Start(); }
    Next([], 3, 0x1);
    assert [] + [3] == [3];
    Next([3], 0, 0x23);
    assert [3] + [0] == [3, 0];
    Next([3, 0], 1, 0x460);
    assert [3, 0] + [1] == [3, 0, 1];
    Next([3, 0, 1], 10, 0x8c01);
    assert [3, 0, 1] + [10] == [3, 0, 1, 10];
    Next([3, 0, 1, 10], 28, 0x11802a);
    assert [3, 0, 1, 10] + [28] == [3, 0, 1, 10, 28];
    Next([3, 0, 1, 10, 28], 25, 0x230055c);
    assert [3, 0, 1, 10, 28] + [25] == [3, 0, 1, 10, 28, 25];
    Next([3, 0, 1, 10, 28, 25], 31, 0x3d6afc2b);
    assert [3, 0, 1, 10, 28, 25] + [31] == [3, 0, 1, 10, 28, 25, 31];
    Next([3, 0, 1, 10, 28, 25, 31], 20, 0x2f84386);
    assert [3, 0, 1, 10, 28, 25, 31] + [20] == [3, 0, 1, 10, 28, 25, 31, 20];
    Next([3, 0, 1, 10, 28, 25, 31, 20], 31, 0x24622766);
    assert [3, 0, 1, 10, 28, 25, 31, 20] + [31] == [3, 0, 1, 10, 28, 25, 31, 20, 31];
  }

  lemma M350Is()
    ensures Word(0x2bc830a3) == BvWord(0x2bc830a3)
  {
    hide Word, BvWord;
    NumberIs(0x2bc830a3, 21, 28, 16, 12, 5, 3);
    assert Six(21, 28, 16, 12, 5, 3) == 0x2bc830a3;
  }

  // ----- strings -----

  /**
  What bech32m_decode accepts, with the BIP 350 constant written out: a separator in place,
  data characters only, the checksum equation, the expected prefix, and zero padding.
  */
  lemma DecodesExactly(str: cstring, expected: Option<cstring>, cap: nat)
    ensures Bech32m.Decode(str, expected, cap).Some? <==>
            var sep := LastOne(str);
            && |str| >= 8 && 1 <= sep <= 83 && 6 <= |str| - sep - 1 <= 1024
            && Bech32m.SymbolsIn(str[sep + 1..]).Some?
            && var h, v := LowerAll(str[..sep]), Bech32m.SymbolsIn(str[sep + 1..]).value;
               && Poly(Word(1), ExpandHrp(h) + v) == Word(0x2bc830a3)
               && (expected.Some? ==> LowerAll(expected.value) == h)
               && From5(v[..|v| - 6]).Some? && |From5(v[..|v| - 6]).value| <= cap
    ensures Bech32m.Decode(str, expected, cap).Some? ==>
              var v := Bech32m.SymbolsIn(str[LastOne(str) + 1..]).value;
              Bech32m.Decode(str, expected, cap) == From5(v[..|v| - 6])
  {
    hide LastOne, LowerAll, Poly, Word, ExpandHrp, From5, Accepts, Bech32m.SymbolsIn;
    var sep := LastOne(str);
    if |str| >= 8 && 1 <= sep && 6 <= |str| - sep - 1 && Bech32m.SymbolsIn(str[sep + 1..]).Some? {
      AcceptsExactly(LowerAll(str[..sep]), Bech32m.SymbolsIn(str[sep + 1..]).value, BECH32M_CONST);
    }
  }

  lemma ExpandA(hrp: cstring)
    requires hrp == "a"
    ensures ExpandHrp(hrp) == [3, 0, 1]
  {
    assert 'a' as int == 97;
  }

  lemma Parts(str: cstring)
    requires str == "A1LQFN3A"
    ensures LowerAll(str[..1]) == "a" && LowerAll("a") == "a" && LowerAll(str) == "a1lqfn3a"
    ensures Bech32m.SymbolsIn(str[2..]) == Some([31, 0, 9, 19, 17, 29])
  {
    hide Bech32m.SymbolsIn;
    Bech32m.SymbolsInIs(str[2..], [31, 0, 9, 19, 17, 29]);
  }

  lemma NoSymbols()
    ensures From5([]) == Some([])
  {
    Bech32m.EmptyFrom5([]);
  }

  /** The first valid string of BIP 350. */
  lemma Bip350String(str: cstring, hrp: cstring)
    requires str == "A1LQFN3A" && hrp == "a"
    ensures Bech32m.Decode(str, None, 0) == Some([])
    ensures Bech32m.Encode(hrp, [], 9) == Some("a1lqfn3a")
  {
    hide LastOne, LowerAll, Poly, Word, ExpandHrp, From5, PolyBv, BvWord, Bech32m.Encode, Bech32m.SymbolsIn, Bech32m.Decode;
    var v := [31, 0, 9, 19, 17, 29];
    Bech32m.LastOneIs(str, 1);
    assert v[..0] == [];
    Parts(str);
    ExpandA(hrp);
    NoSymbols();
    assert [3, 0, 1] + v == [3, 0, 1, 31, 0, 9, 19, 17, 29];
    Vector350();
    PolyBvIs([3, 0, 1] + v);
    M350Is();
    DecodesExactly(str, None, 0);
    Bech32m.DecodeEncode(str, None, 0);
    EncodeUpper(str[..1], hrp);
  }

  lemma EncodeUpper(a: cstring, b: cstring)
    requires LowerAll(a) == LowerAll(b)
    ensures Bech32m.Encode(a, [], 9) == Bech32m.Encode(b, [], 9)
  {
    hide To5, LowerAll;
  }

  /** A valid string of BIP 173: prefix "a", no data. */
  lemma Bip173String(hrp: cstring, v: seq<nat>)
    requires hrp == "a" && v == [10, 28, 25, 31, 20, 31]
    ensures Accepts(hrp, v, BECH32_CONST)
  {
    hide Poly, Word, ExpandHrp, PolyBv, BvWord, Accepts;
    ExpandA(hrp);
    assert [3, 0, 1] + v == [3, 0, 1, 10, 28, 25, 31, 20, 31];
    Vector173();
    PolyBvIs([3, 0, 1] + v);
    OneIs();
    AcceptsExactly(hrp, v, BECH32_CONST);
  }

  lemma Bip173Text(v: seq<nat>)
    requires v == [10, 28, 25, 31, 20, 31]
    ensures Chars(v) == "2uel5l"
  {
  }

  /** The characters of both codes, in order. */
  lemma Charset(i: nat)
    requires i < 32
    ensures CharOf(i) == "qpzry9x8gf2tvdw0s3jn54khce6mua7l"[i]
  {
  }
}
