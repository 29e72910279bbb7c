/**
Regrouping of 8-bit bytes into 5-bit symbols and back (src/bech32m.c, and the same
code again in src/bolt11.c), with the wrapping 32-bit accumulator of the source.
*/
module Regroup {
  import opened Bits
  import opened Wrappers

  function PadTo5(b: seq<bool>): (r: seq<bool>)
    ensures |r| % 5 == 0 && |r| < |b| + 5 && b <= r
  {
    b + Zeros((5 - |b| % 5) % 5)
  }

  /** The symbols of a byte string: its bit stream, zero-padded to a multiple of 5. */
  function To5(data: seq<byte>): (r: seq<nat>)
    ensures |r| == (8 * |data| + 4) / 5 && Fits(r, 5)
  {
    Collect(PadTo5(Expand(data, 8)), 5)
  }

  /** The byte string of a symbol string whose spare bits are fewer than 5 and all zero. */
  function From5(d5: seq<nat>): (r: Option<seq<byte>>)
    ensures r.Some? ==> |r.value| == 5 * |d5| / 8
  {
    var b := Expand(d5, 5);
    var spare := |b| % 8;
    if spare < 5 && b[|b| - spare..] == Zeros(spare)
    then Some(AsBytes(Collect(b[..|b| - spare], 8))) else None
  }

  function AsBytes(g: seq<nat>): (r: seq<byte>)
    requires Fits(g, 8)
    ensures r == g
  {
    Pow2Const();
    g
  }

  /** Decoding undoes encoding, for every byte string. */
  lemma To5From5(data: seq<byte>)
    ensures From5(To5(data)) == Some(data)
  {
    hide Expand, Collect, Zeros;
    var b := Expand(data, 8);
    var p := PadTo5(b);
    ExpandCollect(p, 5);
    PadMod8(|data|);
    assert p == b + Zeros(|p| % 8);
    assert p[..|b|] == b && p[|b|..] == Zeros(|p| % 8);
    BytesFit(data);
    CollectExpand(data, 8);
  }

  /** Encoding undoes decoding, for every accepted symbol string. */
  lemma From5To5(d5: seq<nat>)
    requires Fits(d5, 5) && From5(d5).Some?
    ensures To5(From5(d5).value) == d5
  {
    hide Expand, Collect, Zeros;
    var b := Expand(d5, 5);
    var spare := |b| % 8;
    var c := b[..|b| - spare];
    SpareMod8(|b|);
    ExpandCollect(c, 8);
    assert Expand(From5(d5).value, 8) == c;
    assert PadTo5(c) == b by { SparePad(|d5|); assert b == c + b[|c|..]; }
    CollectExpand(d5, 5);
  }

  lemma PadMod8(n: nat)
    ensures (8 * n + (5 - 8 * n % 5) % 5) % 8 == (5 - 8 * n % 5) % 5
  {
  }

  lemma SpareMod8(n: nat)
    ensures (n - n % 8) % 8 == 0
  {
  }

  lemma SparePad(n: nat)
    requires 5 * n % 8 < 5
    ensures (5 - (5 * n - 5 * n % 8) % 5) % 5 == 5 * n % 8
  {
  }

  // ----- the running accumulator -----

  /** The bits read so far are the groups written so far, then the low `bits` bits of `acc`. */
  ghost predicate Streamed(src: seq<nat>, ws: nat, dst: seq<nat>, wd: nat, acc: nat, bits: nat) {
    Expand(src, ws) == Expand(dst, wd) + Repr(acc, bits)
  }

  lemma StreamedLength(src: seq<nat>, ws: nat, dst: seq<nat>, wd: nat, acc: nat, bits: nat)
    requires Streamed(src, ws, dst, wd, acc, bits)
    ensures |src| * ws == |dst| * wd + bits
  {
    hide Expand, Repr;
    assert |Expand(src, ws)| == |Expand(dst, wd) + Repr(acc, bits)|;
  }

  lemma Feed(src: seq<nat>, ws: nat, dst: seq<nat>, wd: nat, acc: nat, bits: nat, x: nat)
    requires Streamed(src, ws, dst, wd, acc, bits) && x < Pow2(ws) && bits + ws <= 32
    ensures Streamed(src + [x], ws, dst, wd, (acc * Pow2(ws) + x) % U32, bits + ws)
  {
    hide Expand, Repr, Pow2;
    ExpandAppend(src, x, ws);
    Pow2Const();
    ReprMod(acc * Pow2(ws) + x, bits + ws, 32);
    ReprJoin(acc, x, bits, ws);
    assert (Expand(dst, wd) + Repr(acc, bits)) + Repr(x, ws) == Expand(dst, wd) + (Repr(acc, bits) + Repr(x, ws));
  }

  lemma Emit(src: seq<nat>, ws: nat, dst: seq<nat>, wd: nat, acc: nat, bits: nat)
    requires Streamed(src, ws, dst, wd, acc, wd + bits)
    ensures acc / Pow2(bits) % Pow2(wd) < Pow2(wd)
    ensures Streamed(src, ws, dst + [acc / Pow2(bits) % Pow2(wd)], wd, acc, bits)
  {
    hide Expand, Repr, Pow2;
    var x := acc / Pow2(bits);
    ReprSplit(acc, wd, bits);
    ShrDiv(acc, bits);
    ReprMod(x, wd, wd);
    var y := x % Pow2(wd);
    ExpandAppend(dst, y, wd);
    assert Expand(dst, wd) + (Repr(y, wd) + Repr(acc, bits)) == (Expand(dst, wd) + Repr(y, wd)) + Repr(acc, bits);
  }

  lemma PadTail(acc: nat, bits: nat)
    requires 0 < bits < 5
    ensures Repr(acc * Pow2(5 - bits) % U32 % 32, 5) == Repr(acc, bits) + Zeros(5 - bits)
  {
    hide Repr, Zeros;
    Pow2Const();
    var v := acc * Pow2(5 - bits);
    ReprMod(v % U32, 5, 5);
    ReprMod(v, 5, 32);
    ReprJoin(acc, 0, bits, 5 - bits);
    ReprZero(5 - bits);
  }

  lemma FinishTo5(data: seq<byte>, dst: seq<nat>, acc: nat, bits: nat)
    requires Streamed(data, 8, dst, 5, acc, bits) && bits < 5 && Fits(dst, 5)
    ensures bits == 0 ==> dst == To5(data)
    ensures bits > 0 ==> dst + [acc * Pow2(5 - bits) % U32 % 32] == To5(data)
  {
    hide Streamed, To5, Fits, Repr, Zeros;
    if bits == 0 {
      FinishExact(data, dst, acc);
    } else {
      PadTail(acc, bits);
      FinishPadded(data, dst, acc, bits, acc * Pow2(5 - bits) % U32 % 32);
    }
  }

  lemma FinishExact(data: seq<byte>, dst: seq<nat>, acc: nat)
    requires Streamed(data, 8, dst, 5, acc, 0) && Fits(dst, 5)
    ensures dst == To5(data)
  {
    hide Expand, Collect, Fits;
    StreamedLength(data, 8, dst, 5, acc, 0);
    assert Expand(dst, 5) + Repr(acc, 0) == Expand(dst, 5);
    assert PadTo5(Expand(data, 8)) == Expand(dst, 5);
    CollectExpand(dst, 5);
  }

  lemma FinishPadded(data: seq<byte>, dst: seq<nat>, acc: nat, bits: nat, x: nat)
    requires Streamed(data, 8, dst, 5, acc, bits) && 0 < bits < 5 && Fits(dst, 5) && x < 32
    requires Repr(x, 5) == Repr(acc, bits) + Zeros(5 - bits)
    ensures dst + [x] == To5(data)
  {
    hide Repr, Zeros, Expand, Collect, Pow2;
    StreamedLength(data, 8, dst, 5, acc, bits);
    Pow2Const();
    assert Fits(dst + [x], 5);
    hide Fits;
    ExpandAppend(dst, x, 5);
    assert |Expand(data, 8)| % 5 == bits;
    assert Expand(data, 8) + Zeros(5 - bits) == Expand(dst, 5) + (Repr(acc, bits) + Zeros(5 - bits));
    CollectExpand(dst + [x], 5);
  }

  lemma FinishFrom5(d5: seq<nat>, dst: seq<byte>, acc: nat, bits: nat)
    requires Streamed(d5, 5, dst, 8, acc, bits) && bits < 8
    ensures bits >= 5 || acc % Pow2(bits) != 0 ==> From5(d5).None?
    ensures bits < 5 && acc % Pow2(bits) == 0 ==> From5(d5) == Some(dst)
  {
    hide Repr, Zeros, Expand, Collect, Pow2, Fits;
    StreamedLength(d5, 5, dst, 8, acc, bits);
    var e := Expand(d5, 5);
    DivUnique(|e|, 8, |dst|, bits);
    assert e[|e| - bits..] == Repr(acc, bits) && e[..|e| - bits] == Expand(dst, 8);
    LowBitsZero(acc, bits);
    BytesFit(dst);
    CollectExpand(dst, 8);
  }

  lemma LowBitsZero(acc: nat, bits: nat)
    ensures Repr(acc, bits) == Zeros(bits) <==> acc % Pow2(bits) == 0
  {
    hide Repr, Zeros, Pow2;
    ReprMod(acc, bits, bits);
    ValRepr(acc % Pow2(bits), bits);
    ReprZero(bits);
    ValRepr(0, bits);
  }

  /** bytes_to_5bit: the accumulator wraps at 32 bits, the symbols do not notice. */
  method BytesTo5Bit(data: seq<byte>, out: array<nat>) returns (pos: nat)
    modifies out
    ensures |To5(data)| <= out.Length ==> pos == |To5(data)| && out[..pos] == To5(data)
    ensures |To5(data)| > out.Length ==> pos == 0
  {
    hide Streamed, To5, Pow2;
    Pow2Const();
    var acc: nat, bits: nat := 0, 0;
    pos := 0;
    StreamedStart(8, out[..pos], 5);
    for i := 0 to |data|
      invariant bits < 5 && pos <= out.Length
      invariant Fits(out[..pos], 5) && Streamed(data[..i], 8, out[..pos], 5, acc, bits)
    {
      assert data[..i + 1] == data[..i] + [data[i]];
      Feed(data[..i], 8, out[..pos], 5, acc, bits, data[i]);
      acc := (acc * 256 + data[i]) % U32;
      bits := bits + 8;
      while bits >= 5
        invariant bits <= 12 && pos <= out.Length
        invariant Fits(out[..pos], 5) && Streamed(data[..i + 1], 8, out[..pos], 5, acc, bits)
      {
        StreamedLength(data[..i + 1], 8, out[..pos], 5, acc, bits);
        bits := bits - 5;
        if pos >= out.Length {
          return 0;
        }
        ghost var done := out[..pos];
        Emit(data[..i + 1], 8, done, 5, acc, bits);
        out[pos] := acc / Pow2(bits) % 32;
        pos := pos + 1;
        assert out[..pos] == done + [out[pos - 1]];
      }
    }
    assert data[..|data|] == data;
    FinishTo5(data, out[..pos], acc, bits);
    if bits > 0 {
      StreamedLength(data, 8, out[..pos], 5, acc, bits);
      if pos >= out.Length {
        return 0;
      }
      ghost var done := out[..pos];
      out[pos] := acc * Pow2(5 - bits) % U32 % 32;
      pos := pos + 1;
      assert out[..pos] == done + [out[pos - 1]];
    }
  }

  lemma StreamedStart(ws: nat, dst: seq<nat>, wd: nat)
    requires dst == []
    ensures Streamed([], ws, dst, wd, 0, 0)
  {
  }

  /** fivebit_to_bytes: 0 both for a rejected and for an empty result. */
  method FiveBitToBytes(d5: seq<nat>, out: array<byte>) returns (pos: nat)
    requires Fits(d5, 5)
    modifies out
    ensures From5(d5).Some? && |From5(d5).value| <= out.Length
            ==> pos == |From5(d5).value| && out[..pos] == From5(d5).value
    ensures From5(d5).None? || |From5(d5).value| > out.Length ==> pos == 0
  {
    hide Streamed, From5, Pow2;
    Pow2Const();
    var acc: nat, bits: nat := 0, 0;
    pos := 0;
    StreamedStart(5, out[..pos], 8);
    for i := 0 to |d5|
      invariant bits < 8 && pos <= out.Length
      invariant Streamed(d5[..i], 5, out[..pos], 8, acc, bits)
    {
      assert d5[..i + 1] == d5[..i] + [d5[i]];
      Feed(d5[..i], 5, out[..pos], 8, acc, bits, d5[i]);
      acc := (acc * 32 + d5[i]) % U32;
      bits := bits + 5;
      if bits >= 8 {
        StreamedLength(d5[..i + 1], 5, out[..pos], 8, acc, bits);
        bits := bits - 8;
        if pos >= out.Length {
          return 0;
        }
        ghost var done := out[..pos];
        Emit(d5[..i + 1], 5, done, 8, acc, bits);
        out[pos] := acc / Pow2(bits) % 256;
        pos := pos + 1;
        assert out[..pos] == done + [out[pos - 1]];
      }
    }
    assert d5[..|d5|] == d5;
    FinishFrom5(d5, out[..pos], acc, bits);
    if bits >= 5 || (bits > 0 && acc % Pow2(bits) != 0) {
      return 0;
    }
    assert bits == 0 ==> acc % Pow2(bits) == 0 by { Pow2Zero(); }
  }

  /** The symbols spell in base 32 what the bytes spell in base 256, with the padding bits behind it. */
  lemma SameNumber(data: seq<byte>)
    ensures Digits(To5(data), 32) == Digits(data, 256) * Pow2((5 - 8 * |data| % 5) % 5)
  {
    hide *;
    var b := Expand(data, 8);
    var z := Zeros((5 - |b| % 5) % 5);
    PaddedStream(data);
    assert Pow2(5) == 32 && Pow2(8) == 256 by { Pow2Const(); }
    ValExpand(To5(data), 5);
    assert Fits(data, 8) by { BytesFit(data); }
    ValExpand(data, 8);
    ValAppend(b, z);
    ValZeros(|z|);
  }

  lemma PaddedStream(data: seq<byte>)
    ensures var b := Expand(data, 8); Expand(To5(data), 5) == b + Zeros((5 - |b| % 5) % 5)
  {
    hide Expand, Collect, Zeros;
    ExpandCollect(PadTo5(Expand(data, 8)), 5);
  }
}
