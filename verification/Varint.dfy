/** Bitcoin variable-length integers, little-endian after a length marker (src/bip158_backend.c). */
module Varint {
  import opened Bits
  import opened Wrappers

  function LeBytes(v: nat, k: nat): (b: seq<byte>)
    ensures |b| == k
  {
    if k == 0 then [] else [v % 256] + LeBytes(v / 256, k - 1)
  }

  function LeVal(b: seq<byte>): (v: nat)
    ensures v < Pow256(|b|)
  {
    if b == [] then 0 else b[0] + 256 * LeVal(b[1..])
  }

  lemma {:induction false} LeRoundTrip(v: nat, k: nat)
    requires v < Pow256(k)
    ensures LeVal(LeBytes(v, k)) == v
  {
    if k > 0 {
      LeRoundTrip(v / 256, k - 1);
      assert LeBytes(v, k)[1..] == LeBytes(v / 256, k - 1);
    }
  }

  /** How many bytes follow the marker. */
  function Tail(v: u64): (k: nat)
    ensures k == 0 || k == 2 || k == 4 || k == 8
  {
    if v < 0xfd then 0 else if v <= 0xffff then 2 else if v <= 0xffff_ffff then 4 else 8
  }

  function Marker(v: u64): (m: byte) {
    if v < 0xfd then v else if v <= 0xffff then 0xfd else if v <= 0xffff_ffff then 0xfe else 0xff
  }

  function Encode(v: u64): (b: seq<byte>)
    ensures |b| == 1 + Tail(v)
  {
    [Marker(v)] + LeBytes(v, Tail(v))
  }

  datatype Parsed = Parsed(value: nat, consumed: nat)

  /** read_varint. */
  function Decode(data: seq<byte>): (r: Option<Parsed>)
    ensures r.Some? ==> 0 < r.value.consumed <= |data| && r.value.value < U64
  {
    Pow256Const();
    if |data| < 1 then None
    else if data[0] < 0xfd then Some(Parsed(data[0], 1))
    else
      var k := if data[0] == 0xfd then 2 else if data[0] == 0xfe then 4 else 8;
      if |data| < 1 + k then None else Some(Parsed(LeVal(data[1..1 + k]), 1 + k))
  }

  lemma RoundTrip(v: u64, rest: seq<byte>)
    ensures Decode(Encode(v) + rest) == Some(Parsed(v, 1 + Tail(v)))
  {
    hide LeBytes, LeVal;
    var k := Tail(v);
    Pow256Const();
    if k > 0 {
      LeRoundTrip(v, k);
      assert (Encode(v) + rest)[1..1 + k] == LeBytes(v, k);
    }
  }

  lemma {:induction false} LeByteAt(v: nat, k: nat, i: nat)
    requires i < k
    ensures LeBytes(v, k)[i] == Shr(v, 8 * i) % 256
  {
    if i > 0 {
      LeByteAt(v / 256, k - 1, i - 1);
      ShrByte(v, 8 * (i - 1));
      assert LeBytes(v, k)[i] == LeBytes(v / 256, k - 1)[i - 1];
    }
  }

  lemma ShrByte(v: nat, k: nat)
    ensures Shr(v, k + 8) == Shr(v / 256, k)
  {
    assert v / 2 / 2 / 2 / 2 == v / 16;
    assert v / 16 / 2 / 2 / 2 / 2 == v / 256;
    assert Shr(v, k + 8) == Shr(v / 2 / 2, k + 6);
    assert Shr(v / 2 / 2, k + 6) == Shr(v / 16, k + 4);
    assert Shr(v / 16, k + 4) == Shr(v / 16 / 2 / 2, k + 2);
    assert Shr(v / 16 / 2 / 2, k + 2) == Shr(v / 256, k);
  }

  /** write_varint: bytes written, or 0 when they do not fit. */
  method Write(buf: array<byte>, v: u64) returns (n: nat)
    modifies buf
    ensures |Encode(v)| <= buf.Length ==> n == |Encode(v)| && buf[..n] == Encode(v)
    ensures |Encode(v)| > buf.Length ==> n == 0
  {
    hide LeBytes, Shr;
    var k := Tail(v);
    if buf.Length < 1 + k {
      return 0;
    }
    buf[0] := Marker(v);
    for i := 0 to k
      invariant buf[0] == Marker(v) && forall j | 0 <= j < i :: buf[1 + j] == LeBytes(v, k)[j]
    {
      LeByteAt(v, k, i);
      buf[1 + i] := Shr(v, 8 * i) % 256;
    }
    n := 1 + k;
    assert buf[..n] == Encode(v);
  }

  /** The four forms, byte by byte. */
  lemma Forms(v: u64)
    ensures v < 253 ==> Encode(v) == [v]
    ensures 253 <= v < 0x1_0000 ==> Encode(v) == [0xfd, v % 256, v / 256]
    ensures 0x1_0000 <= v < U32 ==> Encode(v) == [0xfe, v % 256, v / 256 % 256, v / 256 / 256 % 256, v / 256 / 256 / 256]
    ensures v >= U32 ==> Encode(v)[0] == 0xff && |Encode(v)| == 9 && LeVal(Encode(v)[1..]) == v && Encode(v)[1] == v % 256
  {
    if 253 <= v < 0x1_0000 {
      assert LeBytes(v, 2) == [v % 256] + LeBytes(v / 256, 1);
      assert LeBytes(v / 256, 1) == [v / 256 % 256] + LeBytes(v / 256 / 256, 0);
    } else if 0x1_0000 <= v < U32 {
      var w := v / 256 / 256;
      assert LeBytes(v, 4) == [v % 256] + ([v / 256 % 256] + LeBytes(w, 2));
      assert LeBytes(w, 2) == [w % 256] + ([w / 256 % 256] + LeBytes(w / 256 / 256, 0));
    } else if v >= U32 {
      Pow256Const();
      LeRoundTrip(v, 8);
    }
  }
}
