/**
The code that writes and reads the data part of an invoice: bit cursors over an array of
5-bit groups (src/bolt11.c:105-132) and the loops around them.
*/
module Bolt11Cursor {
  import opened Bits
  import opened Wrappers
  import opened Regroup
  import opened Bolt11Fields

  const D5_BUFFER := 4096

  /** What is left of a stream in a buffer of `cap` groups. */
  function Clip(b: seq<bool>, cap: nat): (r: seq<bool>) {
    if |b| <= 5 * cap then b else b[..5 * cap]
  }

  lemma ClipClip(a: seq<bool>, b: seq<bool>, cap: nat)
    ensures Clip(Clip(a, cap) + b, cap) == Clip(a + b, cap)
  {
    if |a| > 5 * cap {
      assert (Clip(a, cap) + b)[..5 * cap] == a[..5 * cap] == (a + b)[..5 * cap];
    }
  }

  lemma ClipMore(a: seq<bool>, b: seq<bool>, cap: nat)
    requires |Clip(a, cap)| == 5 * cap
    ensures Clip(a + b, cap) == Clip(a, cap)
  {
    if b == [] {
      assert a + b == a;
    } else {
      assert (a + b)[..5 * cap] == a[..5 * cap];
      if |a| == 5 * cap { assert a[..5 * cap] == a; }
    }
  }

  /** Only five bits of each group are written. */
  function Lows(data: seq<nat>): (r: seq<nat>)
    ensures |r| == |data| && forall i | 0 <= i < |r| :: r[i] == data[i] % 32
  {
    seq(|data|, i requires 0 <= i < |data| => data[i] % 32)
  }

  lemma {:induction false} ExpandLows(data: seq<nat>)
    ensures Expand(Lows(data), 5) == Expand(data, 5)
    decreases |data|
  {
    if data != [] {
      var n := |data| - 1;
      assert Lows(data)[..n] == Lows(data[..n]);
      ExpandLows(data[..n]);
      Pow2Const();
      ReprMod(data[n], 5, 5);
    }
  }

  lemma LowsFit(data: seq<nat>)
    requires Fits(data, 5)
    ensures Lows(data) == data
  {
    Pow2Const();
    forall i | 0 <= i < |data| ensures data[i] % 32 == data[i] {
      DivSmall(data[i], 32);
    }
  }

  /** A field as the three writes make it. */
  lemma FieldBits(tag: nat, data: seq<nat>)
    requires tag < 32 && |data| < 1024
    ensures Expand(Groups(Field(tag, Lows(data))), 5) == Repr(tag, 5) + Repr(|data|, 10) + Expand(data, 5)
  {
    hide Expand, Repr;
    var n := |data|;
    var l := Lows(data);
    ExpandLows(data);
    Pow2Const();
    ReprJoin(n / 32, n % 32, 5, 5);
    assert Groups(Field(tag, l)) == [tag] + ([n / 32] + ([n % 32] + l));
    ExpandCons(tag, [n / 32] + ([n % 32] + l), 5);
    ExpandCons(n / 32, [n % 32] + l, 5);
    ExpandCons(n % 32, l, 5);
    assert Repr(tag, 5) + (Repr(n / 32, 5) + (Repr(n % 32, 5) + Expand(l, 5))) == Repr(tag, 5) + (Repr(n / 32, 5) + Repr(n % 32, 5)) + Expand(l, 5);
  }

  // ----- writing -----

  class Writer {
    const d5: array<nat>
    var off: nat

    ghost predicate Valid()
      reads this, d5
    {
      Fits(d5[..], 5) && off <= 5 * d5.Length
    }

    ghost function Stream(): (b: seq<bool>)
      reads d5
      ensures |b| == 5 * d5.Length
    {
      Expand(d5[..], 5)
    }

    ghost function Written(): (b: seq<bool>)
      requires Valid()
      reads this, d5
      ensures |b| == off
    {
      Stream()[..off]
    }

    constructor (cap: nat)
      ensures Valid() && fresh(d5) && d5.Length == cap && Written() == []
    {
      d5 := new nat[cap](_ => 0);
      off := 0;
    }

    /** write_bits: the low `n` bits of `val`, for as long as the buffer lasts. */
    method WriteBits(val: nat, n: nat)
      requires Valid()
      modifies this, d5
      ensures Valid() && Written() == Clip(old(Written()) + Repr(val, n), d5.Length)
    {
      hide Expand, Repr, Val, Pow2, Fits;
      ghost var before, bits := Written(), Repr(val, n);
      for k := 0 to n
        invariant Valid() && Written() == Clip(before + bits[..k], d5.Length)
        invariant off == old(off) + k
      {
        assert bits[..k + 1] == bits[..k] + [bits[k]];
        assert before + bits[..k + 1] == (before + bits[..k]) + [bits[k]];
        if off / 5 >= d5.Length {
          assert before + bits == (before + bits[..k]) + bits[k..];
          ClipMore(before + bits[..k], bits[k..], d5.Length);
          return;
        }
        ReprAt(val, n, k);
        var bit := val / Pow2(n - 1 - k) % 2 == 1;
        PutNext(bit);
      }
      assert bits[..n] == bits;
    }

    /** Sets or clears the bit at the cursor and moves on. */
    method PutNext(bit: bool)
      requires Valid() && off < 5 * d5.Length
      modifies this, d5
      ensures Valid() && off == old(off) + 1 && Written() == old(Written()) + [bit]
    {
      hide Expand, Repr, Val, Pow2;
      ghost var s, g := Stream(), d5[..];
      ExpandPutBit(g, 5, off, bit);
      d5[off / 5] := Val(Repr(d5[off / 5], 5)[off % 5 := bit]);
      assert d5[..] == PutBit(g, 5, off, bit);
      assert Stream() == s[off := bit];
      off := off + 1;
    }

    /** WRITE_FIELD: tag, length, and the low five bits of each group. */
    method WriteField(tag: nat, data: seq<nat>)
      requires Valid() && tag < 32 && |data| < 1024
      modifies this, d5
      ensures Valid() && Written() == Clip(old(Written()) + Expand(Groups(Field(tag, Lows(data))), 5), d5.Length)
    {
      hide Expand, Repr, Fits, Groups, Clip;
      ghost var before, cap := Written(), d5.Length;
      ghost var head := Repr(tag, 5) + Repr(|data|, 10);
      WriteBits(tag, 5);
      WriteBits(|data|, 10);
      ClipClip(before + Repr(tag, 5), Repr(|data|, 10), cap);
      assert before + Repr(tag, 5) + Repr(|data|, 10) == before + head;
      ExpandNil(5);
      assert before + head + [] == before + head;
      assert data[..0] == [];
      for k := 0 to |data|
        invariant Valid() && Written() == Clip(before + head + Expand(data[..k], 5), cap)
      {
        ghost var sofar := before + head + Expand(data[..k], 5);
        WriteBits(data[k], 5);
        ClipClip(sofar, Repr(data[k], 5), cap);
        ExpandAppend(data[..k], data[k], 5);
        assert data[..k + 1] == data[..k] + [data[k]];
        assert sofar + Repr(data[k], 5) == before + head + Expand(data[..k + 1], 5);
      }
      assert data[..|data|] == data;
      FieldBits(tag, data);
      assert before + head + Expand(data, 5) == before + (head + Expand(data, 5));
    }

    /** The same, as one more field of those written after `so`. */
    method Append(tag: nat, data: seq<nat>, ghost so: seq<bool>, ghost fs: seq<Field>)
      requires Valid() && tag < 32 && |data| < 1024 && Written() == Clip(so + Expand(AllGroups(fs), 5), d5.Length)
      modifies this, d5
      ensures Valid() && Written() == Clip(so + Expand(AllGroups(fs + [Field(tag, Lows(data))]), 5), d5.Length)
    {
      hide Expand, Groups, AllGroups, Clip, Fits;
      WriteField(tag, data);
      Accumulate(so, fs, Field(tag, Lows(data)), d5.Length);
    }
  }

  lemma Accumulate(so: seq<bool>, fs: seq<Field>, f: Field, cap: nat)
    ensures Clip(Clip(so + Expand(AllGroups(fs), 5), cap) + Expand(Groups(f), 5), cap) ==
            Clip(so + Expand(AllGroups(fs + [f]), 5), cap)
  {
    hide Expand, Groups, Clip;
    assert (fs + [f])[..|fs|] == fs;
    ExpandConcat(AllGroups(fs), Groups(f), 5);
    ClipClip(so + Expand(AllGroups(fs), 5), Expand(Groups(f), 5), cap);
    assert so + Expand(AllGroups(fs), 5) + Expand(Groups(f), 5) == so + (Expand(AllGroups(fs), 5) + Expand(Groups(f), 5));
  }

  /** bytes_to_5bit with a local buffer of `cap` groups. */
  method ToGroups(b: seq<byte>, cap: nat) returns (d: seq<nat>)
    ensures d == Fitting(b, cap) && Lows(d) == d
  {
    hide To5, Lows, Fits;
    var f := new nat[cap](_ => 0);
    var n := BytesTo5Bit(b, f);
    d := f[..n];
    LowsFit(d);
  }

  /** The bytes of a route hint, hop by hop. */
  method WriteHops(hint: seq<Hop>) returns (b: seq<byte>)
    ensures b == HintBytes(hint)
  {
    hide HopBytes;
    b := [];
    for j := 0 to |hint|
      invariant b == HintBytes(hint[..j])
    {
      assert hint[..j + 1][..j] == hint[..j];
      b := b + HopBytes(hint[j]);
    }
    assert hint[..|hint|] == hint;
  }

  lemma BlobFits(b: seq<byte>, cap: nat)
    requires (|b| == 32 && cap == 52) || (|b| == 33 && cap == 54)
    ensures Fitting(b, cap) == To5(b)
  {
    hide To5;
  }

  ghost predicate Wrote(w: Writer, so: seq<bool>, fs: seq<Field>)
    reads w, w.d5
  {
    w.Valid() && w.Written() == Clip(so + Expand(AllGroups(fs), 5), w.d5.Length)
  }

  method WriteBlob(w: Writer, tag: nat, b: seq<byte>, cap: nat, ghost so: seq<bool>, ghost fs: seq<Field>)
    requires Wrote(w, so, fs) && tag < 32 && cap <= FIELD_BUFFER
    modifies w, w.d5
    ensures Wrote(w, so, fs + [Field(tag, Fitting(b, cap))])
  {
    hide Expand, AllGroups, Clip, Fitting;
    var d := ToGroups(b, cap);
    w.Append(tag, d, so, fs);
  }

  method WriteOption(w: Writer, tag: nat, blob: Option<seq<byte>>, ghost so: seq<bool>, ghost fs: seq<Field>)
    requires Wrote(w, so, fs) && tag < 32 && (blob.Some? ==> |blob.value| == 32)
    modifies w, w.d5
    ensures Wrote(w, so, fs + OfBlob(tag, blob))
  {
    hide Wrote, To5, Fitting;
    assert fs + [] == fs;
    if blob.Some? {
      BlobFits(blob.value, 52);
      WriteBlob(w, tag, blob.value, 52, so, fs);
    }
  }

  method WriteBlobs(w: Writer, v: Invoice, ghost so: seq<bool>)
    requires Valid(v) && Wrote(w, so, [])
    modifies w, w.d5
    ensures Wrote(w, so, BlobFields(v))
  {
    hide Wrote, To5, Fitting, GoodHint, OfBlob, OfMetadata, OfDescription;
    ghost var fs: seq<Field> := [];
    BlobFits(v.hash, 52);
    WriteBlob(w, 1, v.hash, 52, so, fs);
    fs := fs + [Field(1, To5(v.hash))];
    assert [] + fs == fs;
    WriteOption(w, 16, v.secret, so, fs);
    fs := fs + OfBlob(16, v.secret);
    WriteMetadata(w, v, so, fs);
    fs := fs + OfMetadata(v);
    WriteDescription(w, v, so, fs);
    fs := fs + OfDescription(v);
    WriteOption(w, 5, v.descriptionHash, so, fs);
    fs := fs + OfBlob(5, v.descriptionHash);
    assert fs == BlobFields(v);
  }

  method WriteMetadata(w: Writer, v: Invoice, ghost so: seq<bool>, ghost fs: seq<Field>)
    requires Wrote(w, so, fs)
    modifies w, w.d5
    ensures Wrote(w, so, fs + OfMetadata(v))
  {
    hide AllGroups, Expand, Clip, Fitting;
    assert fs + [] == fs;
    if v.metadata.Some? && v.metadata.value != [] {
      var d := ToGroups(v.metadata.value, 128);
      if |d| > 0 { w.Append(27, d, so, fs); }
    }
  }

  method WriteDescription(w: Writer, v: Invoice, ghost so: seq<bool>, ghost fs: seq<Field>)
    requires Wrote(w, so, fs)
    modifies w, w.d5
    ensures Wrote(w, so, fs + OfDescription(v))
  {
    hide AllGroups, Expand, Clip, Fitting;
    assert fs + [] == fs;
    if v.description != [] && v.descriptionHash.None? {
      var d := ToGroups(v.description, FIELD_BUFFER);
      if |d| > 0 { w.Append(13, d, so, fs); }
    }
  }

  /** `(uint8_t)x`, of which five bits are written. */
  function Octet(x: int): (r: nat)
    ensures r % 32 == Low5(x)
  {
    OctetLow(x);
    x % 256
  }

  lemma OctetLow(x: int)
    ensures x % 256 % 32 == x % 32
  {
    var q, r := x / 256, x % 256;
    DivUnique(x, 32, 8 * q + r / 32, r % 32);
  }

  method ExpiryData(exp: u32) returns (f: seq<nat>)
    ensures |f| <= 4 && Lows(f) == ExpiryGroups(exp)
  {
    hide Low5, Octet;
    if exp < 32 { f := [Octet(exp)]; }
    else if exp < 1024 { f := [Octet(exp / 32), Octet(exp)]; }
    else if exp < POW15 { f := [Octet(exp / 1024), Octet(exp / 32), Octet(exp)]; }
    else { f := [Octet(exp / POW15), Octet(exp / 1024), Octet(exp / 32), Octet(exp)]; }
  }

  method CltvData(clv: int) returns (f: seq<nat>)
    ensures |f| <= 3 && Lows(f) == CltvGroups(clv)
  {
    hide Low5, Octet;
    if clv < 32 { f := [Octet(clv)]; }
    else if clv < 1024 { f := [Octet(clv / 32), Octet(clv)]; }
    else { f := [Octet(clv / 1024), Octet(clv / 32), Octet(clv)]; }
  }

  method WriteExpiry(w: Writer, exp: u32, ghost so: seq<bool>, ghost fs: seq<Field>)
    requires Wrote(w, so, fs)
    modifies w, w.d5
    ensures Wrote(w, so, fs + When(exp != DEFAULT_EXPIRY, 4, ExpiryGroups(exp)))
  {
    hide ExpiryGroups, AllGroups, Expand, Clip;
    assert fs + [] == fs;
    if exp != DEFAULT_EXPIRY {
      var f := ExpiryData(exp);
      w.Append(4, f, so, fs);
    }
  }

  method WriteCltv(w: Writer, clv: int, ghost so: seq<bool>, ghost fs: seq<Field>)
    requires Wrote(w, so, fs)
    modifies w, w.d5
    ensures Wrote(w, so, fs + When(clv != DEFAULT_CLTV, 6, CltvGroups(clv)))
  {
    hide CltvGroups, AllGroups, Expand, Clip;
    assert fs + [] == fs;
    if clv != DEFAULT_CLTV {
      var f := CltvData(clv);
      w.Append(6, f, so, fs);
    }
  }

  method WritePayee(w: Writer, payee: seq<byte>, ghost so: seq<bool>, ghost fs: seq<Field>)
    requires Wrote(w, so, fs) && |payee| == 33
    modifies w, w.d5
    ensures Wrote(w, so, fs + When(payee[0] != 0, 19, To5(payee)))
  {
    hide Wrote, To5, Fitting;
    assert fs + [] == fs;
    if payee[0] != 0 {
      BlobFits(payee, 54);
      WriteBlob(w, 19, payee, 54, so, fs);
    }
  }

  method WriteHint(w: Writer, hint: seq<Hop>, ghost so: seq<bool>, ghost fs: seq<Field>)
    requires Wrote(w, so, fs) && GoodHint(hint)
    modifies w, w.d5
    ensures Wrote(w, so, fs + When(hint != [], 3, Fitting(HintBytes(hint), FIELD_BUFFER)))
  {
    hide Wrote, HintBytes, Fitting, GoodHint;
    var b := WriteHops(hint);
    HopsBack(hint, MAX_HOPS) by { HintGood(hint); }
    assert fs + [] == fs;
    if |b| > 0 { WriteBlob(w, 3, b, FIELD_BUFFER, so, fs); }
  }

  lemma HintGood(hint: seq<Hop>)
    requires GoodHint(hint)
    ensures |hint| <= MAX_HOPS && forall i | 0 <= i < |hint| :: |hint[i].pubkey| == 33
  {
  }

  method WriteOthers(w: Writer, v: Invoice, ghost so: seq<bool>, ghost pre: seq<Field>)
    requires Valid(v) && Wrote(w, so, pre)
    modifies w, w.d5
    ensures Wrote(w, so, pre + OtherFields(v))
  {
    hide Wrote, To5, HintFields, ExpiryGroups, CltvGroups, GoodHint, When;
    ghost var fs := pre;
    WriteExpiry(w, v.expiry, so, fs);
    fs := fs + When(v.expiry != DEFAULT_EXPIRY, 4, ExpiryGroups(v.expiry));
    WriteCltv(w, v.cltv, so, fs);
    fs := fs + When(v.cltv != DEFAULT_CLTV, 6, CltvGroups(v.cltv));
    WritePayee(w, v.payee, so, fs);
    fs := fs + When(v.payee[0] != 0, 19, To5(v.payee));
    WriteHints(w, v.hints, so, fs);
    assert fs + HintFields(v.hints) == pre + OtherFields(v);
  }

  method WriteHints(w: Writer, hints: seq<seq<Hop>>, ghost so: seq<bool>, ghost fs: seq<Field>)
    requires Wrote(w, so, fs) && forall i | 0 <= i < |hints| :: GoodHint(hints[i])
    modifies w, w.d5
    ensures Wrote(w, so, fs + HintFields(hints))
  {
    hide Wrote, HintFields, GoodHint, HintBytes, Fitting;
    HintFieldsTake(hints, 0);
    assert fs + [] == fs;
    for i := 0 to |hints|
      invariant Wrote(w, so, fs + HintFields(hints[..i]))
    {
      HintFieldsTake(hints, i + 1);
      WriteHint(w, hints[i], so, fs + HintFields(hints[..i]));
      assert fs + HintFields(hints[..i + 1]) ==
             fs + HintFields(hints[..i]) + When(hints[i] != [], 3, Fitting(HintBytes(hints[i]), FIELD_BUFFER));
    }
    assert hints[..|hints|] == hints;
  }

  lemma HintFieldsTake(hints: seq<seq<Hop>>, i: nat)
    requires i <= |hints|
    ensures i == 0 ==> HintFields(hints[..i]) == []
    ensures i > 0 ==> HintFields(hints[..i]) ==
                      HintFields(hints[..i - 1]) + When(hints[i - 1] != [], 3, Fitting(HintBytes(hints[i - 1]), FIELD_BUFFER))
  {
    hide HintBytes, Fitting;
    if i > 0 { assert hints[..i][..i - 1] == hints[..i - 1]; }
  }

  /** The timestamp and every tagged field, for as long as the buffer lasts. */
  method WriteData(w: Writer, v: Invoice)
    requires Valid(v) && w.Valid() && w.Written() == []
    modifies w, w.d5
    ensures w.Valid() && w.Written() == Clip(Repr(v.timestamp, 35) + Expand(AllGroups(FieldsOf(v)), 5), w.d5.Length)
  {
    hide BlobFields, OtherFields, GoodHint, Repr, Expand, Clip;
    ghost var so := Repr(v.timestamp, 35);
    w.WriteBits(v.timestamp, 35);
    assert [] + so == so;
    ExpandNil(5);
    assert so + [] == so;
    WriteBlobs(w, v, so);
    WriteOthers(w, v, so, BlobFields(v));
  }

  // ----- reading -----

  lemma GroupAt(d5: seq<nat>, i: nat)
    requires Fits(d5, 5) && i < |d5|
    ensures Val(Expand(d5, 5)[5 * i..5 * i + 5]) == d5[i]
  {
    hide Expand, Repr;
    ExpandGroup(d5, 5, i);
    assert Expand(d5, 5)[5 * i..5 * i + 5] == Repr(d5[i], 5);
    ValRepr(d5[i], 5);
  }

  lemma TwoGroupsAt(d5: seq<nat>, i: nat)
    requires Fits(d5, 5) && i + 1 < |d5|
    ensures Val(Expand(d5, 5)[5 * i..5 * i + 10]) == d5[i] * 32 + d5[i + 1]
  {
    hide Expand, Val, Fits, Pow2;
    var s, j := Expand(d5, 5), 5 * i;
    GroupAt(d5, i);
    GroupAt(d5, i + 1);
    Pow2Const();
    var a, b := s[j..j + 5], s[j + 5..j + 10];
    assert s[j..j + 10] == a + b;
    ValAppend(a, b);
  }

  class Reader {
    const d5: seq<nat>
    var off: nat

    constructor (d5: seq<nat>)
      ensures this.d5 == d5 && off == 0
    {
      this.d5 := d5;
      off := 0;
    }

    /** read_bits: a number, or 0 when the groups run out. */
    method ReadBits(n: nat) returns (v: nat)
      requires n <= 64 && off <= 5 * |d5|
      modifies this
      ensures old(off) + n <= 5 * |d5| ==> v == Val(Expand(d5, 5)[old(off)..old(off) + n]) && off == old(off) + n
      ensures old(off) + n > 5 * |d5| ==> v == 0 && off == 5 * |d5|
    {
      hide Expand, Repr, Pow2;
      v := 0;
      ghost var start, s := off, Expand(d5, 5);
      for i := 0 to n
        invariant off == start + i <= 5 * |d5| && v == Val(s[start..off])
      {
        if off / 5 >= |d5| { return 0; }
        ExpandAt(d5, 5, off);
        var t := s[start..off + 1];
        assert t[..|t| - 1] == s[start..off];
        ReprAt(d5[off / 5], 5, off % 5);
        v := v * 2 + d5[off / 5] / Pow2(4 - off % 5) % 2;
        off := off + 1;
      }
    }

    /** The groups of one field. */
    method ReadGroups(n: nat) returns (data: seq<nat>)
      requires Fits(d5, 5) && off % 5 == 0 && off / 5 + n <= |d5|
      modifies this
      ensures off == old(off) + 5 * n && data == d5[old(off) / 5..old(off) / 5 + n]
    {
      hide Expand, Val, Fits;
      ghost var i := off / 5;
      data := [];
      for k := 0 to n
        invariant off == 5 * (i + k) && data == d5[i..i + k]
      {
        GroupAt(d5, i + k);
        var g := ReadBits(5);
        assert d5[i..i + k + 1] == d5[i..i + k] + [d5[i + k]];
        data := data + [g];
      }
    }
  }

  /** The groups shifted into a 64-bit number. */
  method ReadNumber(data: seq<nat>) returns (n: nat)
    requires Fits(data, 5)
    ensures n == NumberOf(data) % U64
  {
    hide NumberOf;
    n := 0;
    NumberTake(data, 0);
    for k := 0 to |data|
      invariant n == NumberOf(data[..k]) % U64
    {
      NumberTake(data, k + 1);
      ModStep(NumberOf(data[..k]), data[k], U64);
      n := (n * 32 + data[k]) % U64;
    }
    assert data[..|data|] == data;
  }

  /** The same, 16 bits wide. */
  method ReadFeatures(data: seq<nat>) returns (n: nat)
    requires Fits(data, 5)
    ensures n == NumberOf(data) % U16
  {
    hide NumberOf;
    n := 0;
    NumberTake(data, 0);
    for k := 0 to |data|
      invariant n == NumberOf(data[..k]) % U16
    {
      NumberTake(data, k + 1);
      ModStep(NumberOf(data[..k]), data[k], U16);
      n := (n * 32 + data[k]) % U16;
    }
    assert data[..|data|] == data;
  }

  lemma NumberTake(data: seq<nat>, k: nat)
    requires k <= |data|
    ensures k == 0 ==> NumberOf(data[..k]) == 0
    ensures k > 0 ==> NumberOf(data[..k]) == NumberOf(data[..k - 1]) * 32 + data[k - 1]
  {
    if k > 0 { assert data[..k][..k - 1] == data[..k - 1]; }
  }

  lemma ModStep(x: nat, d: nat, m: nat)
    requires m == U64 || m == U16
    ensures ((x % m) * 32 + d) % m == (x * 32 + d) % m
  {
  }

  /** fivebit_to_bytes with a local buffer. */
  method ToBytes(data: seq<nat>, cap: nat) returns (b: seq<byte>)
    requires Fits(data, 5)
    ensures b == Bytes(data, cap)
  {
    hide From5;
    var buf := new byte[cap](_ => 0);
    var n := FiveBitToBytes(data, buf);
    b := buf[..n];
  }

  /** The hops of a route hint. */
  method ReadHops(b: seq<byte>) returns (hops: seq<Hop>)
    ensures hops == HopsIn(b, MAX_HOPS)
  {
    hide HopOf, HopsIn;
    hops := [];
    assert b[0..] == b;
    assert hops + HopsIn(b, MAX_HOPS) == HopsIn(b, MAX_HOPS);
    var off := 0;
    while off + HOP_BYTES <= |b| && |hops| < MAX_HOPS
      invariant 0 <= off <= |b| && |hops| <= MAX_HOPS
      invariant hops + HopsIn(b[off..], MAX_HOPS - |hops|) == HopsIn(b, MAX_HOPS)
      decreases |b| - off
    {
      HopsStep(b, off, MAX_HOPS - |hops|);
      hops := hops + [HopOf(b[off..off + HOP_BYTES])];
      off := off + HOP_BYTES;
    }
    HopsStep(b, off, MAX_HOPS - |hops|);
    assert hops + [] == hops;
  }

  lemma HopsStep(b: seq<byte>, off: nat, max: nat)
    requires off <= |b|
    ensures max == 0 || off + HOP_BYTES > |b| ==> HopsIn(b[off..], max) == []
    ensures max > 0 && off + HOP_BYTES <= |b| ==>
              HopsIn(b[off..], max) == [HopOf(b[off..off + HOP_BYTES])] + HopsIn(b[off + HOP_BYTES..], max - 1)
  {
    hide HopOf;
    var c := b[off..];
    if off + HOP_BYTES <= |b| {
      assert c[..HOP_BYTES] == b[off..off + HOP_BYTES] && c[HOP_BYTES..] == b[off + HOP_BYTES..];
    }
  }

  lemma Mod64Then32(x: nat)
    ensures x % U64 % U32 == x % U32
  {
  }

  /** The switch over the tag. */
  method ApplyField(v: Invoice, tag: nat, data: seq<nat>) returns (r: Invoice)
    requires Fits(data, 5) && |data| <= FIELD_BUFFER
    ensures r == Apply(v, Field(tag, data))
  {
    hide Bytes, NumberOf, HopsIn, UpToNul, Fits;
    var n := |data|;
    r := v;
    if tag == 1 || tag == 5 || tag == 16 {
      if n == 52 {
        var b := ToBytes(data, 32);
        if |b| == 32 {
          r := if tag == 1 then v.(hash := b) else if tag == 5 then v.(descriptionHash := Some(b)) else v.(secret := Some(b));
        }
      }
    } else if tag == 4 {
      var x := ReadNumber(data);
      Mod64Then32(NumberOf(data));
      r := v.(expiry := x % U32);
    } else if tag == 6 {
      var x := ReadNumber(data);
      Mod64Then32(NumberOf(data));
      r := v.(cltv := Signed(x));
    } else if tag == 13 {
      var b := ToBytes(data, MAX_DESCRIPTION - 1);
      if |b| > 0 { r := v.(description := UpToNul(b)); }
    } else if tag == 19 {
      if n == 53 {
        var b := ToBytes(data, 33);
        if |b| == 33 { r := v.(payee := b); }
      }
    } else if tag == 20 {
      if n <= 4 {
        var x := ReadFeatures(data);
        r := v.(features := x);
      }
    } else if tag == 27 {
      var b := ToBytes(data, MAX_METADATA);
      if |b| > 0 { r := v.(metadata := Some(b)); }
    } else if tag == 3 {
      if |v.hints| < MAX_HINTS {
        var b := ToBytes(data, 512);
        var hops := ReadHops(b);
        r := v.(hints := v.hints + [hops]);
      }
    }
  }

  /** The loop over the tagged fields, from group 7 on. */
  method ReadFields(rd: Reader, start: Invoice) returns (v: Invoice)
    requires Fits(rd.d5, 5) && |rd.d5| >= 7 && rd.off == 35
    modifies rd
    ensures v == ApplyAll(start, FieldsIn(rd.d5[7..]))
  {
    hide Apply, ApplyAll, FieldsIn, Expand, Val, Fits;
    v := start;
    var d5 := rd.d5;
    while rd.off < |d5| * 5
      invariant rd.off % 5 == 0 && 35 <= rd.off <= 5 * |d5|
      invariant ApplyAll(start, FieldsIn(d5[7..])) == ApplyAll(v, FieldsIn(d5[rd.off / 5..]))
      decreases 5 * |d5| - rd.off
    {
      ghost var i := rd.off / 5;
      NextField(d5, i, v);
      if rd.off + 15 > |d5| * 5 { return; }
      GroupAt(d5, i);
      TwoGroupsAt(d5, i + 1);
      var tag := rd.ReadBits(5);
      var flen := rd.ReadBits(10);
      if rd.off + flen * 5 > |d5| * 5 { return; }
      if flen > FIELD_BUFFER {
        rd.off := rd.off + flen * 5;
      } else {
        var data := rd.ReadGroups(flen);
        FitsSlice(d5, i + 3, flen);
        v := ApplyField(v, tag, data);
      }
    }
    FieldsEnd(v);
    assert d5[rd.off / 5..] == [];
  }

  lemma FitsSlice(d5: seq<nat>, i: nat, n: nat)
    requires Fits(d5, 5) && i + n <= |d5|
    ensures Fits(d5[i..i + n], 5)
  {
  }

  lemma ApplyLong(v: Invoice, f: Field)
    requires |f.data| > FIELD_BUFFER
    ensures Apply(v, f) == v
  {
  }

  lemma FieldsEnd(v: Invoice)
    ensures ApplyAll(v, FieldsIn([])) == v
  {
  }

  lemma NextField(d5: seq<nat>, i: nat, v: Invoice)
    requires i <= |d5|
    ensures i + 3 > |d5| || i + 3 + (d5[i + 1] * 32 + d5[i + 2]) > |d5| ==> ApplyAll(v, FieldsIn(d5[i..])) == v
    ensures i + 3 <= |d5| && i + 3 + (d5[i + 1] * 32 + d5[i + 2]) <= |d5| ==>
              var n := d5[i + 1] * 32 + d5[i + 2];
              && ApplyAll(v, FieldsIn(d5[i..])) == ApplyAll(Apply(v, Field(d5[i], d5[i + 3..i + 3 + n])), FieldsIn(d5[i + 3 + n..]))
              && (n > FIELD_BUFFER ==> Apply(v, Field(d5[i], d5[i + 3..i + 3 + n])) == v)
  {
    hide Apply, FieldsIn;
    FieldsStep(d5, i);
    if i + 3 <= |d5| && i + 3 + (d5[i + 1] * 32 + d5[i + 2]) <= |d5| {
      var n := d5[i + 1] * 32 + d5[i + 2];
      var f, rest := Field(d5[i], d5[i + 3..i + 3 + n]), FieldsIn(d5[i + 3 + n..]);
      assert ([f] + rest)[1..] == rest;
      if n > FIELD_BUFFER { ApplyLong(v, f); }
    }
  }

  lemma FieldsStep(d5: seq<nat>, i: nat)
    requires i <= |d5|
    ensures i + 3 > |d5| || i + 3 + (d5[i + 1] * 32 + d5[i + 2]) > |d5| ==> FieldsIn(d5[i..]) == []
    ensures i + 3 <= |d5| && i + 3 + (d5[i + 1] * 32 + d5[i + 2]) <= |d5| ==>
              var n := d5[i + 1] * 32 + d5[i + 2];
              FieldsIn(d5[i..]) == [Field(d5[i], d5[i + 3..i + 3 + n])] + FieldsIn(d5[i + 3 + n..])
  {
    var g := d5[i..];
    if |g| >= 3 && 3 + (g[1] * 32 + g[2]) <= |g| {
      var n := g[1] * 32 + g[2];
      assert g[3..3 + n] == d5[i + 3..i + 3 + n] && g[3 + n..] == d5[i + 3 + n..];
    }
  }
}
