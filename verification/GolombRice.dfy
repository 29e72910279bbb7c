/**
Golomb-Rice coding of filter deltas (BIP 158, section "Golomb-Coded Sets"): the
most-significant-bit-first bit reader and writer and the codec of
src/bip158_backend.c.
*/
module GolombRice {
  import opened Bits
  import opened Wrappers

  const P := 19
  const POW_P := 0x8_0000
  const MAX_QUOTIENT := 0x4000_0000

  lemma PowP()
    ensures Pow2(P) == POW_P
  {
    hide Pow2;
    Pow2Const();
    Pow2Add(8, 11);
  }

  function Trues(n: nat): (b: seq<bool>)
    ensures |b| == n && forall i | 0 <= i < n :: b[i]
  {
    seq(n, _ => true)
  }

  lemma TruesMore(n: nat)
    ensures Trues(n + 1) == Trues(n) + [true]
  {
  }

  lemma TruesNone()
    ensures Trues(0) == []
  {
  }

  /** Unary quotient, a zero, `P` bits of remainder. */
  function Code(d: nat): (b: seq<bool>)
    ensures |b| == d / POW_P + 1 + P
  {
    Trues(d / POW_P) + [false] + Repr(d, P)
  }

  lemma {:induction false} ValTrues(n: nat)
    ensures Val(Trues(n)) == Pow2(n) - 1
  {
    if n > 0 {
      ValTrues(n - 1);
      assert Trues(n)[..n - 1] == Trues(n - 1);
    }
  }

  /** The code word of BIP 158 as a number: the quotient by 2^19 in unary, a zero, the remainder in 19 bits. */
  lemma CodeNumber(d: nat)
    ensures |Code(d)| == d / 524288 + 20
    ensures Val(Code(d)) == (Pow2(d / 524288) - 1) * 1048576 + d % 524288
  {
    hide Val, Repr, Trues, Pow2;
    var q := d / 524288;
    assert Pow2(19) == 524288 && Pow2(20) == 1048576 by { PowersOfP(); }
    ValTrues(q);
    ValAppend(Trues(q), [false] + Repr(d, 19));
    ValAppend([false], Repr(d, 19));
    assert Val([false]) == 0 by { ValZeros(1); assert Zeros(1) == [false]; }
    ReprMod(d, 19, 19);
    ValRepr(d % 524288, 19);
    assert Code(d) == Trues(q) + ([false] + Repr(d, 19));
  }

  lemma PowersOfP()
    ensures Pow2(19) == 524288 && Pow2(20) == 1048576
  {
    assert Pow2(10) == 1024;
    assert Pow2(9) == 512;
    Pow2Add(10, 9);
    Pow2Add(10, 10);
  }

  /** Length of the run of ones that starts at `pos`. */
  function Ones(b: seq<bool>, pos: nat): (q: nat)
    requires pos <= |b|
    ensures pos + q <= |b|
    ensures forall i | pos <= i < pos + q :: b[i]
    ensures pos + q < |b| ==> !b[pos + q]
    decreases |b| - pos
  {
    if pos < |b| && b[pos] then 1 + Ones(b, pos + 1) else 0
  }

  lemma OnesIs(b: seq<bool>, pos: nat, q: nat)
    requires pos + q < |b| && (forall i | pos <= i < pos + q :: b[i]) && !b[pos + q]
    ensures Ones(b, pos) == q
  {
    hide Ones;
    var r := Ones(b, pos);
    assert pos + r < |b| ==> !b[pos + r];
  }

  datatype Item = Item(delta: nat, next: nat)

  /** What decoding at bit `pos` of a stream yields: the delta and the position after it. */
  function DecodeAt(b: seq<bool>, pos: nat): (r: Option<Item>)
    requires pos <= |b|
    ensures r.Some? ==> pos < r.value.next <= |b|
  {
    var q := Ones(b, pos);
    var start := pos + q + 1;
    if q > MAX_QUOTIENT || start + P > |b| then None
    else Some(Item(q * POW_P + Val(b[start..start + P]), start + P))
  }

  /** Wherever a code word stands in a stream, decoding there yields its delta, up to the quotient cap. */
  lemma DecodeCode(pre: seq<bool>, d: nat, post: seq<bool>)
    ensures d / POW_P <= MAX_QUOTIENT ==>
              DecodeAt(pre + Code(d) + post, |pre|) == Some(Item(d, |pre| + |Code(d)|))
    ensures d / POW_P > MAX_QUOTIENT ==> DecodeAt(pre + Code(d) + post, |pre|) == None
  {
    hide Ones, Repr, Val;
    var b := pre + Code(d) + post;
    var n, q := |pre|, d / POW_P;
    CodeInStream(pre, d, post);
    OnesIs(b, n, q);
    PowP();
    ReprMod(d, P, P);
    ValRepr(d % POW_P, P);
  }

  lemma CodeInStream(pre: seq<bool>, d: nat, post: seq<bool>)
    ensures var b := pre + Code(d) + post;
            var n, q := |pre|, d / POW_P;
            && (forall i | n <= i < n + q :: b[i]) && !b[n + q]
            && b[n + q + 1..n + q + 1 + P] == Repr(d, P)
  {
    hide Repr;
    var b := pre + Code(d) + post;
    var n, q := |pre|, d / POW_P;
    var c := Code(d);
    assert forall i | n <= i < n + |c| :: b[i] == c[i - n];
    assert b[n..n + |c|] == c;
    assert c[q + 1..] == Repr(d, P);
    assert b[n + q + 1..n + q + 1 + P] == c[q + 1..];
  }

  // ----- the reader -----

  class BitReader {
    const data: seq<byte>
    var pos: nat

    ghost function Stream(): (b: seq<bool>)
      ensures |b| == |data| * 8
    {
      Expand(data, 8)
    }

    constructor (data: seq<byte>)
      ensures this.data == data && pos == 0
    {
      this.data := data;
      pos := 0;
    }

    /** read_bit: the next bit, or -1 at the end. */
    method ReadBit() returns (r: int)
      modifies this
      ensures old(pos) >= |Stream()| ==> r == -1 && pos == old(pos)
      ensures old(pos) < |Stream()| ==> r == (if Stream()[old(pos)] then 1 else 0) && pos == old(pos) + 1
    {
      hide Expand, Repr, Pow2;
      if pos >= |data| * 8 {
        return -1;
      }
      ExpandAt(data, 8, pos);
      ReprAt(data[pos / 8], 8, pos % 8);
      r := data[pos / 8] / Pow2(7 - pos % 8) % 2;
      pos := pos + 1;
    }

    /** read_bits: `p` bits as a number, or -1 when the stream ends first. */
    method ReadBits(p: nat) returns (val: int)
      requires p <= 63 && pos <= |Stream()|
      modifies this
      ensures old(pos) + p <= |Stream()| ==> val == Val(Stream()[old(pos)..old(pos) + p]) && pos == old(pos) + p
      ensures old(pos) + p > |Stream()| ==> val == -1 && pos == |Stream()|
    {
      hide Stream;
      val := 0;
      ghost var start := pos;
      for i := 0 to p
        invariant pos == start + i <= |Stream()| && val == Val(Stream()[start..pos])
      {
        var b := ReadBit();
        if b < 0 {
          return -1;
        }
        var s := Stream()[start..pos];
        assert s[..|s| - 1] == Stream()[start..pos - 1];
        val := val * 2 + b;
      }
    }

    /** golomb_rice_decode: the next delta, or -1. */
    method GolombRiceDecode() returns (r: int)
      requires pos <= |Stream()|
      modifies this
      ensures r >= 0 <==> DecodeAt(Stream(), old(pos)).Some?
      ensures r >= 0 ==> Item(r, pos) == DecodeAt(Stream(), old(pos)).value
      ensures r < 0 ==> pos == if Ones(Stream(), old(pos)) > MAX_QUOTIENT then old(pos) + MAX_QUOTIENT + 1 else |Stream()|
    {
      hide Stream, Ones, Val;
      ghost var b, start := Stream(), pos;
      var q := 0;
      var bit := ReadBit();
      while bit == 1
        invariant -1 <= bit <= 1 && q <= MAX_QUOTIENT
        invariant bit == -1 ==> pos == start + q == |b|
        invariant bit >= 0 ==> pos == start + q + 1 <= |b| && b[start + q] == (bit == 1)
        invariant forall i | start <= i < start + q :: b[i]
        decreases |b| - pos, bit
      {
        q := q + 1;
        if q > MAX_QUOTIENT {
          assert Ones(b, start) > MAX_QUOTIENT by { OnesAtLeast(b, start, q); }
          return -1;
        }
        bit := ReadBit();
      }
      if bit < 0 {
        OnesAtLeast(b, start, q);
        return -1;
      }
      OnesIs(b, start, q);
      var rem := ReadBits(P);
      if rem < 0 {
        return -1;
      }
      r := q * POW_P + rem;
    }
  }

  lemma OnesAtLeast(b: seq<bool>, pos: nat, q: nat)
    requires pos + q <= |b| && forall i | pos <= i < pos + q :: b[i]
    ensures Ones(b, pos) >= q
  {
    hide Ones;
    var r := Ones(b, pos);
    assert pos + r < |b| ==> !b[pos + r];
  }

  // ----- the writer -----

  /** Writes into `data[base..]`, zeroed first. */
  class BitWriter {
    const data: array<byte>
    const base: nat
    var pos: nat

    ghost function Stream(): (b: seq<bool>)
      reads data
      requires base <= data.Length
      ensures |b| == (data.Length - base) * 8
    {
      Expand(data[base..], 8)
    }

    /** The bits written so far; everything after them is still zero. */
    ghost function Written(): (b: seq<bool>)
      reads this, data
      requires Valid()
    {
      Stream()[..pos]
    }

    ghost predicate Valid()
      reads this, data
    {
      base <= data.Length && pos <= |Stream()| && Stream()[pos..] == Zeros(|Stream()| - pos)
    }

    constructor (data: array<byte>, base: nat)
      requires base <= data.Length
      modifies data
      ensures this.data == data && this.base == base && Valid() && Written() == []
      ensures data[..base] == old(data[..base])
    {
      this.data := data;
      this.base := base;
      pos := 0;
      new;
      for i := base to data.Length
        invariant pos == 0
        invariant data[..base] == old(data[..base])
        invariant forall j | base <= j < i :: data[j] == 0
      {
        data[i] := 0;
      }
      var n := data.Length - base;
      assert data[base..] == seq(n, _ => 0);
      ExpandZeros(n, 8);
    }

    /** write_bit: false when the buffer is full. */
    method WriteBit(bit: bool) returns (ok: bool)
      requires Valid()
      modifies this, data
      ensures Valid() && data[..base] == old(data[..base])
      ensures ok <==> old(pos) < |Stream()|
      ensures Written() == if ok then old(Written()) + [bit] else old(Written())
    {
      hide Expand, Repr, Val, Zeros;
      var k := pos / 8;
      if k >= data.Length - base {
        return false;
      }
      ghost var before, g := Stream(), data[base..];
      assert pos < |before|;
      if bit {
        Pow2Const();
        ghost var w: seq<nat> := g;
        assert Fits(w, 8);
        ExpandPutBit(w, 8, pos, true);
        data[base + k] := Val(Repr(data[base + k], 8)[pos % 8 := true]);
        assert data[base..] == PutBit(w, 8, pos, true);
      }
      assert Stream() == before[pos := bit];
      pos := pos + 1;
      ok := true;
    }

    /** write_bits: the low `p` bits of `val`. */
    method WriteBits(val: nat, p: nat) returns (ok: bool)
      requires Valid()
      modifies this, data
      ensures Valid() && data[..base] == old(data[..base])
      ensures ok <==> old(pos) + p <= |Stream()|
      ensures Written() == old(Written()) + Repr(val, p)[..if ok then p else |Stream()| - old(pos)]
    {
      hide Expand, Repr, Zeros;
      ghost var bits := Repr(val, p);
      ghost var before := Written();
      for i := 0 to p
        invariant Valid() && pos == old(pos) + i <= |Stream()| && data[..base] == old(data[..base])
        invariant Written() == before + bits[..i]
      {
        ReprAt(val, p, i);
        var bit := val / Pow2(p - 1 - i) % 2 == 1;
        var done := WriteBit(bit);
        if !done {
          return false;
        }
        assert bits[..i + 1] == bits[..i] + [bit];
      }
      assert bits[..p] == bits;
      ok := true;
    }

    /** golomb_rice_encode. */
    method GolombRiceEncode(delta: nat) returns (ok: bool)
      requires Valid()
      modifies this, data
      ensures Valid() && data[..base] == old(data[..base])
      ensures ok <==> old(pos) + |Code(delta)| <= |Stream()|
      ensures Written() == old(Written()) + Code(delta)[..if ok then |Code(delta)| else |Stream()| - old(pos)]
    {
      hide Expand, Repr, Zeros, Stream, Pow2, Trues, Code;
      PowP();
      TruesNone();
      ghost var before := Written();
      assert before + [] == before;
      var q, r := delta / POW_P, delta % POW_P;
      CodeParts(delta, q);
      for i := 0 to q
        invariant Valid() && pos == old(pos) + i <= |Stream()| && data[..base] == old(data[..base])
        invariant Written() == before + Trues(i)
      {
        var done := WriteBit(true);
        if !done {
          CodeStart(delta, i);
          return false;
        }
        TruesMore(i);
        assert before + Trues(i + 1) == before + Trues(i) + [true];
      }
      var zero := WriteBit(false);
      if !zero {
        CodeStart(delta, q);
        return false;
      }
      ok := WriteBits(r, P);
      ReprMod(delta, P, P);
    }
  }

  lemma CodeParts(d: nat, q: nat)
    requires q == d / POW_P
    ensures Code(d) == Trues(q) + [false] + Repr(d, P)
  {
  }

  lemma CodeStart(d: nat, i: nat)
    requires i <= d / POW_P
    ensures Code(d)[..i] == Trues(i)
  {
  }

  /** A code word is read back exactly when its quotient is at most 2^30. */
  lemma CapIs(pre: seq<bool>, d: nat, post: seq<bool>)
    ensures DecodeAt(pre + Code(d) + post, |pre|).Some? <==> d / 524288 <= 1073741824
    ensures DecodeAt(pre + Code(d) + post, |pre|).Some? ==> DecodeAt(pre + Code(d) + post, |pre|).value.delta == d
  {
    hide DecodeAt, Code;
    DecodeCode(pre, d, post);
  }
}
