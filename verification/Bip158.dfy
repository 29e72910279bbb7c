/**
BIP 158 compact filters: hash to range, filter construction, merge scan
(src/bip158_backend.c).  SipHash is a parameter `sip` of everything that hashes.
*/
module Bip158 {
  import opened Bits
  import opened Wrappers
  import opened GolombRice
  import Varint

  const M := 784931
  const MAX_ITEMS := (U64 - 1) / M

  type Script = seq<byte>

  // ----- hash to range -----

  /** The portable 32-bit-halves product: no intermediate exceeds 64 bits, and it is the high word. */
  function HashToRange(h: u64, f: u64): (r: u64)
    ensures r == h * f / U64
    ensures f > 0 ==> r < f
  {
    var loH, hiH, loF, hiF := h % U32, h / U32, f % U32, f / U32;
    Halves(hiH, loH, hiF, loF);
    HighBelow(h, f);
    var ll: u64 := loH * loF;
    var lh: u64 := loH * hiF;
    var hl: u64 := hiH * loF;
    var hh: u64 := hiH * hiF;
    var mid: u64 := ll / U32 + lh % U32 + hl % U32;
    hh + lh / U32 + hl / U32 + mid / U32
  }

  lemma MulBelow(a: nat, b: nat)
    requires a < U32 && b < U32
    ensures 0 <= a * b <= (U32 - 1) * (U32 - 1)
  {
    MulLe(0, b, a);
    MulLe(b, U32 - 1, a);
    MulLe(a, U32 - 1, U32 - 1);
    assert b * a == a * b;
  }

  lemma MulLe(a: int, b: int, c: nat)
    requires a <= b
    ensures a * c <= b * c
  {
    assert (b - a) * c >= 0;
    assert (b - a) * c == b * c - a * c;
  }

  lemma Halves(hiH: nat, loH: nat, hiF: nat, loF: nat)
    requires hiH < U32 && loH < U32 && hiF < U32 && loF < U32
    ensures var ll, lh, hl, hh := loH * loF, loH * hiF, hiH * loF, hiH * hiF;
            var mid := ll / U32 + lh % U32 + hl % U32;
            && 0 <= ll < U64 && 0 <= lh < U64 && 0 <= hl < U64 && 0 <= hh < U64 && 0 <= mid < U64
            && (hiH * U32 + loH) * (hiF * U32 + loF) / U64 == hh + lh / U32 + hl / U32 + mid / U32
  {
    MulBelow(loH, loF);
    MulBelow(loH, hiF);
    MulBelow(hiH, loF);
    MulBelow(hiH, hiF);
    Product(hiH, loH, hiF, loF);
    HighWord(hiH * hiF, loH * hiF, hiH * loF, loH * loF);
  }

  lemma Product(a: nat, b: nat, c: nat, d: nat)
    ensures (a * U32 + b) * (c * U32 + d) == (a * c) * U64 + (b * c + a * d) * U32 + b * d
  {
    calc {
      (a * U32 + b) * (c * U32 + d);
      (a * U32) * (c * U32 + d) + b * (c * U32 + d);
      a * (c * U32 + d) * U32 + (b * c * U32 + b * d);
    }
    assert a * (c * U32 + d) == a * c * U32 + a * d;
  }

  lemma HighWord(hh: nat, lh: nat, hl: nat, ll: nat)
    ensures var mid := ll / U32 + lh % U32 + hl % U32;
            (hh * U64 + (lh + hl) * U32 + ll) / U64 == hh + lh / U32 + hl / U32 + mid / U32
  {
  }

  lemma HighBelow(h: nat, f: nat)
    requires h < U64
    ensures f > 0 ==> h * f / U64 < f
  {
    if f > 0 {
      MulLe(h, U64 - 1, f);
    }
  }

  function Hashes(scripts: seq<Script>, sip: Script -> u64, f: u64): (r: seq<nat>)
    ensures |r| == |scripts|
    ensures forall i | 0 <= i < |r| :: r[i] == HashToRange(sip(scripts[i]), f)
  {
    seq(|scripts|, i requires 0 <= i < |scripts| => HashToRange(sip(scripts[i]), f))
  }

  method HashAll(scripts: seq<Script>, sip: Script -> u64, f: u64) returns (r: seq<nat>)
    ensures r == Hashes(scripts, sip, f)
  {
    hide HashToRange;
    var hashed := new nat[|scripts|];
    for i := 0 to |scripts|
      invariant forall j | 0 <= j < i :: hashed[j] == HashToRange(sip(scripts[j]), f)
    {
      hashed[i] := HashToRange(sip(scripts[i]), f);
    }
    r := hashed[..];
  }

  // ----- sorting (the C library's qsort) -----

  predicate Sorted(s: seq<nat>) {
    forall i, j | 0 <= i < j < |s| :: s[i] <= s[j]
  }

  function Insert(x: nat, s: seq<nat>): (r: seq<nat>) {
    if s == [] || x <= s[0] then [x] + s else [s[0]] + Insert(x, s[1..])
  }

  lemma {:induction false} InsertKeeps(x: nat, s: seq<nat>)
    ensures multiset(Insert(x, s)) == multiset{x} + multiset(s)
    decreases |s|
  {
    if s != [] && x > s[0] {
      InsertKeeps(x, s[1..]);
      assert s == [s[0]] + s[1..];
    }
  }

  lemma {:induction false} InsertSorts(x: nat, s: seq<nat>)
    requires Sorted(s)
    ensures Sorted(Insert(x, s)) && multiset(Insert(x, s)) == multiset{x} + multiset(s)
    decreases |s|
  {
    InsertKeeps(x, s);
    if s != [] && x > s[0] {
      var r := s[1..];
      assert forall y | y in r :: s[0] <= y;
      InsertSorts(x, r);
      SortedCons(s[0], Insert(x, r), x, r);
    }
  }

  lemma SortedCons(a: nat, t: seq<nat>, x: nat, r: seq<nat>)
    requires Sorted(t) && multiset(t) == multiset{x} + multiset(r)
    requires a <= x && forall y | y in r :: a <= y
    ensures Sorted([a] + t)
  {
    forall i | 0 <= i < |t|
      ensures a <= t[i]
    {
      assert t[i] in multiset(t);
      assert t[i] == x || t[i] in multiset(r);
      assert t[i] == x || t[i] in r;
    }
  }

  function Sort(s: seq<nat>): (r: seq<nat>)
    ensures Sorted(r) && multiset(r) == multiset(s)
  {
    if s == [] then []
    else
      InsertSorts(s[0], Sort(s[1..]));
      assert s == [s[0]] + s[1..];
      Insert(s[0], Sort(s[1..]))
  }

  lemma SameMembers(s: seq<nat>)
    ensures |Sort(s)| == |s| && forall x :: x in Sort(s) <==> x in s
  {
    hide Sort;
    var r := Sort(s);
    assert |multiset(r)| == |r| && |multiset(s)| == |s|;
    assert forall x :: x in r <==> x in multiset(r);
    assert forall x :: x in s <==> x in multiset(s);
  }

  // ----- the encoded stream -----

  /** The value encoded before position `i`. */
  function Prev(vals: seq<nat>, i: nat): (r: nat)
    requires i <= |vals|
  {
    if i == 0 then 0 else vals[i - 1]
  }

  lemma PrevBelow(vals: seq<nat>, i: nat)
    requires Sorted(vals) && i < |vals|
    ensures Prev(vals, i) <= vals[i]
  {
  }

  /** The Golomb-Rice stream of the first `i` sorted values. */
  function Stream(vals: seq<nat>, i: nat): (b: seq<bool>)
    requires Sorted(vals) && i <= |vals|
  {
    if i == 0 then []
    else
      PrevBelow(vals, i - 1);
      Stream(vals, i - 1) + Code(vals[i - 1] - Prev(vals, i - 1))
  }

  lemma {:induction false} StreamPrefix(vals: seq<nat>, i: nat, n: nat)
    requires Sorted(vals) && i <= n <= |vals|
    ensures Stream(vals, i) <= Stream(vals, n)
    decreases n
  {
    hide Code;
    if i < n { StreamPrefix(vals, i, n - 1); }
  }

  /** The quotients of all deltas together are at most the quotient of the last value. */
  lemma {:induction false} StreamLength(vals: seq<nat>, i: nat)
    requires Sorted(vals) && i <= |vals|
    ensures |Stream(vals, i)| <= 20 * i + Prev(vals, i) / POW_P
  {
    if i > 0 {
      StreamLength(vals, i - 1);
      PrevBelow(vals, i - 1);
      DivSum(Prev(vals, i - 1), vals[i - 1] - Prev(vals, i - 1));
    }
  }

  lemma DivSum(a: nat, b: nat)
    ensures a / POW_P + b / POW_P <= (a + b) / POW_P
  {
  }

  // ----- what a reader sees -----

  /** Running sums of up to `n` deltas decoded from bit `pos` until the stream ends or fails. */
  function Decoded(b: seq<bool>, pos: nat, value: nat, n: nat): (r: seq<nat>)
    requires pos <= |b|
    ensures |r| <= n
    ensures forall i | 0 <= i < |r| :: r[i] >= value
    ensures Sorted(r)
    decreases n
  {
    if n == 0 then []
    else match DecodeAt(b, pos)
      case None => []
      case Some(item) =>
        var v := value + item.delta;
        [v] + Decoded(b, item.next, v, n - 1)
  }

  /** How many values from position `i` on have a quotient the decoder accepts. */
  function Readable(vals: seq<nat>, i: nat): (k: nat)
    requires Sorted(vals) && i <= |vals|
    ensures i + k <= |vals|
    decreases |vals| - i
  {
    if i == |vals| then 0
    else
      PrevBelow(vals, i);
      if (vals[i] - Prev(vals, i)) / POW_P > MAX_QUOTIENT then 0 else 1 + Readable(vals, i + 1)
  }

  /** Reading back what was written: exactly the sorted values before the first over-long quotient. */
  lemma {:induction false} DecodedStream(vals: seq<nat>, i: nat, post: seq<bool>)
    requires Sorted(vals) && i <= |vals|
    ensures Stream(vals, i) <= Stream(vals, |vals|)
    ensures Decoded(Stream(vals, |vals|) + post, |Stream(vals, i)|, Prev(vals, i), |vals| - i)
            == vals[i..i + Readable(vals, i)]
    decreases |vals| - i
  {
    hide Code, DecodeAt, Stream;
    var n := |vals|;
    StreamPrefix(vals, i, n);
    if i < n {
      PrevBelow(vals, i);
      StreamNext(vals, i);
      StreamPrefix(vals, i + 1, n);
      var b, d := Stream(vals, n) + post, vals[i] - Prev(vals, i);
      var rest := b[|Stream(vals, i + 1)|..];
      assert b == Stream(vals, i) + Code(d) + rest;
      DecodeCode(Stream(vals, i), d, rest);
      DecodedStream(vals, i + 1, post);
    }
  }

  lemma StreamNext(vals: seq<nat>, i: nat)
    requires Sorted(vals) && i < |vals| && Prev(vals, i) <= vals[i]
    ensures Stream(vals, i + 1) == Stream(vals, i) + Code(vals[i] - Prev(vals, i))
  {
  }

  /** Filters of up to 2^49 / M items never meet the quotient cap. */
  lemma {:induction false} AllReadable(vals: seq<nat>, i: nat)
    requires Sorted(vals) && i <= |vals| && forall j | 0 <= j < |vals| :: vals[j] <= MAX_QUOTIENT * POW_P
    ensures Readable(vals, i) == |vals| - i
    decreases |vals| - i
  {
    if i < |vals| {
      PrevBelow(vals, i);
      AllReadable(vals, i + 1);
    }
  }

  // ----- bytes -----

  function Pack(b: seq<bool>): (r: seq<byte>)
    ensures |r| == (|b| + 7) / 8
  {
    Pow2Const();
    Collect(b + Zeros((8 - |b| % 8) % 8), 8)
  }

  lemma ExpandPack(b: seq<bool>)
    ensures Expand(Pack(b), 8) == b + Zeros((8 - |b| % 8) % 8)
  {
    hide Expand, Collect, Zeros;
    ExpandCollect(b + Zeros((8 - |b| % 8) % 8), 8);
  }

  /** The serialised filter: item count, then the packed stream. */
  function Filter(scripts: seq<Script>, sip: Script -> u64): (r: seq<byte>)
    requires |scripts| <= MAX_ITEMS
  {
    Varint.Encode(|scripts|) + Pack(Stream(SortedHashes(scripts, sip), |scripts|))
  }

  function SortedHashes(scripts: seq<Script>, sip: Script -> u64): (r: seq<nat>)
    requires |scripts| <= MAX_ITEMS
    ensures Sorted(r) && |r| == |scripts|
    ensures forall v :: v in r <==> v in Hashes(scripts, sip, |scripts| * M)
  {
    SameMembers(Hashes(scripts, sip, |scripts| * M));
    Sort(Hashes(scripts, sip, |scripts| * M))
  }

  /** bip158_gcs_build_size. */
  function BuildSize(n: u64): (r: nat) {
    var vi := if n < 0xfd then 1 else if n <= 0xffff then 3 else 5;
    var bits := if n == 0 then 0 else n * (P + 22);
    vi + (bits + 7) / 8 + 8
  }

  /** The advertised size always suffices. */
  lemma SizeSuffices(scripts: seq<Script>, sip: Script -> u64)
    requires |scripts| <= MAX_ITEMS
    ensures |Filter(scripts, sip)| <= BuildSize(|scripts|)
  {
    hide Sort, Hashes, Stream, Code, HashToRange;
    var n := |scripts|;
    var vals := SortedHashes(scripts, sip);
    StreamLength(vals, n);
    if n > 0 {
      HashBelow(scripts, sip, vals[n - 1]);
    }
  }

  lemma HashBelow(scripts: seq<Script>, sip: Script -> u64, v: nat)
    requires |scripts| <= MAX_ITEMS && v in SortedHashes(scripts, sip)
    ensures v < |scripts| * M
  {
    hide Sort, HashToRange;
  }

  // ----- building -----

  /** bip158_gcs_build: bytes written, or 0. */
  method Build(scripts: seq<Script>, sip: Script -> u64, out: array<byte>) returns (len: nat)
    requires |scripts| < U64
    modifies out
    ensures out.Length == 0 || |scripts| > MAX_ITEMS ==> len == 0
    ensures out.Length > 0 && |scripts| <= MAX_ITEMS ==>
              if |Filter(scripts, sip)| <= out.Length
              then len == |Filter(scripts, sip)| && out[..len] == Filter(scripts, sip)
              else len == 0
  {
    hide Stream, Code, Sort, Pack, Expand, Zeros, HashToRange, Varint.Encode;
    if out.Length == 0 || |scripts| > MAX_ITEMS {
      return 0;
    }
    var n := |scripts|;
    var f := n * M;
    var hashed := HashAll(scripts, sip, f);
    var vals := Sort(hashed);
    SameMembers(hashed);
    var vi := Varint.Write(out, n);
    if vi == 0 {
      return 0;
    }
    var w := new BitWriter(out, vi);
    var ok := EncodeSorted(vals, w);
    ghost var bits := Stream(vals, n);
    PackLength(bits, out.Length - vi);
    if !ok {
      return 0;
    }
    var k := (w.pos + 7) / 8;
    PackedPrefix(out[vi..], bits, k);
    assert out[..vi + k] == out[..vi] + out[vi..][..k];
    len := vi + k;
  }

  /** The loop over the sorted values, each encoded as the difference from the one before. */
  method EncodeSorted(vals: seq<nat>, w: BitWriter) returns (ok: bool)
    requires Sorted(vals) && w.Valid() && w.Written() == []
    modifies w, w.data
    ensures w.Valid() && w.data[..w.base] == old(w.data[..w.base])
    ensures ok <==> |Stream(vals, |vals|)| <= |w.Stream()|
    ensures ok ==> w.Written() == Stream(vals, |vals|)
  {
    hide Stream, Code, Expand, Zeros;
    var prev := 0;
    StreamZero(vals);
    for i := 0 to |vals|
      invariant w.Valid() && w.data[..w.base] == old(w.data[..w.base])
      invariant prev == Prev(vals, i) && w.Written() == Stream(vals, i)
    {
      PrevBelow(vals, i);
      StreamNext(vals, i);
      StreamPrefix(vals, i + 1, |vals|);
      ok := w.GolombRiceEncode(vals[i] - prev);
      if !ok {
        return;
      }
      prev := vals[i];
    }
    ok := true;
  }

  lemma StreamZero(vals: seq<nat>)
    requires Sorted(vals)
    ensures Stream(vals, 0) == []
  {
  }

  lemma PackLength(b: seq<bool>, room: nat)
    ensures |b| <= room * 8 <==> |Pack(b)| <= room
  {
  }

  /** A zeroed buffer that holds `bits` and nothing else starts with the packed bytes. */
  lemma PackedPrefix(buf: seq<byte>, bits: seq<bool>, k: nat)
    requires |bits| <= |buf| * 8 && k == (|bits| + 7) / 8
    requires var e := Expand(buf, 8);
             e[..|bits|] == bits && e[|bits|..] == Zeros(|e| - |bits|)
    ensures k <= |buf| && buf[..k] == Pack(bits)
  {
    hide Expand, Collect, Pow2, Zeros, Fits;
    var pad := (8 - |bits| % 8) % 8;
    assert |bits| + pad == 8 * k;
    FirstBytes(buf, k);
    PaddedPrefix(Expand(buf, 8), bits, pad);
    assert Fits(buf[..k], 8) by { BytesFit(buf[..k]); }
    CollectExpand(buf[..k], 8);
  }

  lemma FirstBytes(buf: seq<byte>, k: nat)
    requires k <= |buf|
    ensures Expand(buf[..k], 8) == Expand(buf, 8)[..8 * k]
  {
    hide Expand;
    assert buf == buf[..k] + buf[k..];
    ExpandConcat(buf[..k], buf[k..], 8);
  }

  lemma PaddedPrefix(e: seq<bool>, bits: seq<bool>, pad: nat)
    requires |bits| + pad <= |e| && e[..|bits|] == bits && e[|bits|..] == Zeros(|e| - |bits|)
    ensures e[..|bits| + pad] == bits + Zeros(pad)
  {
    assert forall i | |bits| <= i < |bits| + pad :: e[i] == e[|bits|..][i - |bits|];
  }

  // ----- scanning -----

  /** The running sum after value `k`, as the 64-bit variable holds it. */
  function Sum64(all: seq<nat>, k: nat): (v: nat)
    requires k < |all|
    ensures v < U64
  {
    all[k] % U64
  }

  /** No earlier sum was larger; a sum that wrapped around is not of this kind. */
  predicate Record(all: seq<nat>, k: nat)
    requires k < |all|
  {
    forall i | 0 <= i < k :: Sum64(all, i) <= Sum64(all, k)
  }

  predicate Hit(all: seq<nat>, q: seq<nat>, k: nat)
    requires k < |all|
  {
    Record(all, k) && Sum64(all, k) in q
  }

  ghost predicate Found(all: seq<nat>, q: seq<nat>) {
    exists k :: 0 <= k < |all| && Hit(all, q, k)
  }

  /** What the merge scan decides, for every stream: some watched hash is one of the sums not smaller than those before. */
  ghost predicate Matches(b: seq<bool>, n: nat, watched: seq<nat>) {
    Found(Decoded(b, 0, 0, n), watched)
  }

  /** As long as the sums stay below 2^64 that is: some watched hash is one of the sums. */
  lemma MatchesBelow64(all: seq<nat>, q: seq<nat>)
    requires Sorted(all) && forall v :: v in all ==> v < U64
    ensures Found(all, q) <==> exists h :: h in q && h in all
  {
    forall k | 0 <= k < |all|
      ensures Sum64(all, k) == all[k]
    {
      assert all[k] in all;
    }
    forall k | 0 <= k < |all|
      ensures Hit(all, q, k) <==> all[k] in q
    {
    }
    if h :| h in q && h in all {
      var k :| 0 <= k < |all| && all[k] == h;
      assert Hit(all, q, k);
    }
  }

  lemma DecodedNext(b: seq<bool>, pos: nat, value: nat, n: nat)
    requires pos <= |b| && n > 0
    ensures match DecodeAt(b, pos)
            case None => Decoded(b, pos, value, n) == []
            case Some(item) =>
              var v, d := value + item.delta, Decoded(b, pos, value, n);
              |d| > 0 && d[0] == v && d[1..] == Decoded(b, item.next, v, n - 1)
  {
    hide DecodeAt;
  }

  /** bip158_gcs_match_any. */
  method MatchAny(data: seq<byte>, n: u64, sip: Script -> u64, scripts: seq<Script>) returns (found: bool)
    ensures found <==> 0 < n <= MAX_ITEMS && Matches(Expand(data, 8), n, Hashes(scripts, sip, n * M))
  {
    hide Expand, DecodeAt, Sort, HashToRange, Decoded, Hashes, Record;
    if n == 0 || |scripts| == 0 || n > MAX_ITEMS {
      return false;
    }
    var hashed := HashAll(scripts, sip, n * M);
    var q := Sort(hashed);
    SameMembers(hashed);
    found := MergeScan(data, n, q);
    SameFound(Decoded(Expand(data, 8), 0, 0, n), q, hashed);
  }

  lemma SameFound(all: seq<nat>, q: seq<nat>, r: seq<nat>)
    requires forall x :: x in q <==> x in r
    ensures Found(all, q) <==> Found(all, r)
  {
    hide Record;
    assert forall k | 0 <= k < |all| :: Hit(all, q, k) <==> Hit(all, r, k);
  }

  /** After `i` sums: the hashes below `qi` are each below one of them, the others above all of them, and none was met. */
  ghost predicate Passed(all: seq<nat>, i: nat, q: seq<nat>, qi: nat) {
    && i <= |all| && qi <= |q|
    && (forall j | 0 <= j < qi :: Behind(all, i, q[j]))
    && (forall j, k | qi <= j < |q| && 0 <= k < i :: Sum64(all, k) < q[j])
    && (forall k | 0 <= k < i :: !Hit(all, q, k))
  }

  ghost predicate Behind(all: seq<nat>, i: nat, x: nat)
    requires i <= |all|
  {
    exists k :: 0 <= k < i && Sum64(all, k) > x
  }

  lemma PassedNext(all: seq<nat>, i: nat, q: seq<nat>, from: nat, qi: nat)
    requires Sorted(q) && i < |all| && from <= qi <= |q| && Passed(all, i, q, from)
    requires forall j | from <= j < qi :: q[j] < Sum64(all, i)
    requires qi < |q| ==> q[qi] > Sum64(all, i)
    ensures Passed(all, i + 1, q, qi)
  {
    hide Sum64;
    forall j | 0 <= j < qi
      ensures Behind(all, i + 1, q[j])
    {
      if j < from {
        assert Behind(all, i, q[j]);
        var k :| 0 <= k < i && Sum64(all, k) > q[j];
        assert 0 <= k < i + 1;
      } else {
        assert Sum64(all, i) > q[j];
      }
    }
    forall j | 0 <= j < |q| && Record(all, i)
      ensures q[j] != Sum64(all, i)
    {
      assert j < from ==> Behind(all, i, q[j]);
    }
  }

  lemma HitNow(all: seq<nat>, i: nat, q: seq<nat>, from: nat, qi: nat)
    requires i < |all| && from <= qi < |q| && Passed(all, i, q, from) && q[qi] == Sum64(all, i)
    ensures Found(all, q)
  {
    assert Hit(all, q, i);
  }

  lemma NoMatch(all: seq<nat>, i: nat, q: seq<nat>, qi: nat)
    requires Passed(all, i, q, qi) && (i < |all| ==> qi == |q|)
    ensures !Found(all, q)
  {
    hide Sum64;
    forall k | 0 <= k < |all|
      ensures !Hit(all, q, k)
    {
      forall j | 0 <= j < |q| && k >= i && Record(all, k)
        ensures q[j] != Sum64(all, k)
      {
        assert Behind(all, i, q[j]);
      }
    }
  }

  /** The merge scan of the decoded sums against the sorted hashes. */
  method MergeScan(data: seq<byte>, n: u64, q: seq<nat>) returns (found: bool)
    requires Sorted(q)
    ensures found <==> Matches(Expand(data, 8), n, q)
  {
    hide Expand, DecodeAt, Decoded, Passed, Sorted, Found;
    var r := new BitReader(data);
    ghost var b := Expand(data, 8);
    ghost var all := Decoded(b, 0, 0, n);
    var value: nat, qi: nat, i: nat := 0, 0, 0;
    ghost var sum: nat := 0;
    PassedStart(all, q);
    while i < n && qi < |q|
      invariant i <= |all| && i <= n && qi <= |q| && r.data == data && r.pos <= |b|
      invariant value == sum % U64 && Decoded(b, r.pos, sum, n - i) == all[i..]
      invariant Passed(all, i, q, qi)
      decreases n - i
    {
      DecodedNext(b, r.pos, sum, n - i);
      var delta := r.GolombRiceDecode();
      if delta < 0 {
        break;
      }
      assert all[i..][0] == all[i] && all[i..][1..] == all[i + 1..];
      value, sum := (value + delta) % U64, sum + delta;
      ghost var from := qi;
      qi := Advance(q, qi, value);
      assert Sum64(all, i) == value;
      if qi < |q| && q[qi] == value {
        HitNow(all, i, q, from, qi);
        return true;
      }
      PassedNext(all, i, q, from, qi);
      i := i + 1;
    }
    NoMatch(all, i, q, qi);
    found := false;
  }

  lemma PassedStart(all: seq<nat>, q: seq<nat>)
    ensures Passed(all, 0, q, 0)
  {
  }

  /** The first hash from `start` on that is not below `value`. */
  method Advance(q: seq<nat>, start: nat, value: nat) returns (qi: nat)
    requires start <= |q|
    ensures start <= qi <= |q| && forall j | start <= j < qi :: q[j] < value
    ensures qi < |q| ==> q[qi] >= value
  {
    qi := start;
    while qi < |q| && q[qi] < value
      invariant start <= qi <= |q| && forall j | start <= j < qi :: q[j] < value
    {
      qi := qi + 1;
    }
  }

  /** What scanning a serialised filter decides. */
  ghost predicate Scan(filter: seq<byte>, sip: Script -> u64, registry: seq<Script>) {
    match Varint.Decode(filter)
    case None => false
    case Some(p) =>
      && 0 < p.value <= MAX_ITEMS
      && Matches(Expand(filter[p.consumed..], 8), p.value, Hashes(registry, sip, p.value * M))
  }

  /** bip158_scan_filter. */
  method ScanFilter(filter: seq<byte>, sip: Script -> u64, registry: seq<Script>) returns (found: bool)
    ensures found <==> Scan(filter, sip, registry)
  {
    hide Decoded, Expand, HashToRange, Record;
    if |registry| == 0 || |filter| < 1 {
      return false;
    }
    var hdr := Varint.Decode(filter);
    if hdr.None? || hdr.value.value == 0 {
      return false;
    }
    found := MatchAny(filter[hdr.value.consumed..], hdr.value.value, sip, registry);
  }

  // ----- construction and scan together -----

  /** The reader of a built filter sees the sorted hashes before the first over-long quotient. */
  lemma FilterRead(scripts: seq<Script>, sip: Script -> u64)
    requires |scripts| <= MAX_ITEMS
    ensures var filter, vals := Filter(scripts, sip), SortedHashes(scripts, sip);
            && Varint.Decode(filter) == Some(Varint.Parsed(|scripts|, |Varint.Encode(|scripts|)|))
            && Decoded(Expand(filter[|Varint.Encode(|scripts|)|..], 8), 0, 0, |scripts|) == vals[..Readable(vals, 0)]
  {
    hide Varint.Encode, Varint.Decode, Stream, Decoded, Expand, Pack, SortedHashes;
    var n, vals := |scripts|, SortedHashes(scripts, sip);
    var head, bits := Varint.Encode(n), Stream(vals, n);
    Varint.RoundTrip(n, Pack(bits));
    assert (head + Pack(bits))[|head|..] == Pack(bits);
    ExpandPack(bits);
    StreamZero(vals);
    DecodedStream(vals, 0, Zeros((8 - |bits| % 8) % 8));
  }

  /**
  Scanning a built filter answers yes exactly when some watched script hashes to one of
  the readable values: no false negatives, and false positives only by hash collision.
  */
  lemma ScanBuilt(scripts: seq<Script>, sip: Script -> u64, registry: seq<Script>)
    requires 0 < |scripts| <= MAX_ITEMS
    ensures var vals := SortedHashes(scripts, sip);
            Scan(Filter(scripts, sip), sip, registry) <==>
            exists h :: h in Hashes(registry, sip, |scripts| * M) && h in vals[..Readable(vals, 0)]
  {
    hide Filter, Decoded, Expand, SortedHashes, Hashes, Found;
    FilterRead(scripts, sip);
    var vals := SortedHashes(scripts, sip);
    var seen := vals[..Readable(vals, 0)];
    forall v | v in seen
      ensures v < U64
    {
      HashBelow(scripts, sip, v);
    }
    MatchesBelow64(seen, Hashes(registry, sip, |scripts| * M));
  }

  /** A registry that shares a script with the block always matches, when every quotient is readable. */
  lemma NoFalseNegatives(scripts: seq<Script>, sip: Script -> u64, registry: seq<Script>, s: Script)
    requires 0 < |scripts| <= MAX_ITEMS && s in scripts && s in registry
    requires Readable(SortedHashes(scripts, sip), 0) == |scripts|
    ensures Scan(Filter(scripts, sip), sip, registry)
  {
    hide Filter, Scan, HashToRange;
    var f := |scripts| * M;
    var h := HashToRange(sip(s), f);
    ScanBuilt(scripts, sip, registry);
    assert h in Hashes(scripts, sip, f) by { HashIn(scripts, sip, f, s); }
    assert h in Hashes(registry, sip, f) by { HashIn(registry, sip, f, s); }
    var vals := SortedHashes(scripts, sip);
    assert vals[..|scripts|] == vals;
  }

  lemma HashIn(scripts: seq<Script>, sip: Script -> u64, f: u64, s: Script)
    requires s in scripts
    ensures HashToRange(sip(s), f) in Hashes(scripts, sip, f)
  {
    hide HashToRange;
    var i :| 0 <= i < |scripts| && scripts[i] == s;
    assert Hashes(scripts, sip, f)[i] == HashToRange(sip(s), f);
  }

  /** The decoder's quotient cap is the only cause of a false negative: no script is missed iff all are readable. */
  lemma NoFalseNegativesExactly(scripts: seq<Script>, sip: Script -> u64)
    requires 0 < |scripts| <= MAX_ITEMS
    ensures (forall s :: s in scripts ==> Scan(Filter(scripts, sip), sip, [s]))
            <==> Readable(SortedHashes(scripts, sip), 0) == |scripts|
  {
    hide Filter, Scan, HashToRange, SortedHashes;
    var vals, f := SortedHashes(scripts, sip), |scripts| * M;
    var k := Readable(vals, 0);
    if k == |scripts| {
      forall s | s in scripts
        ensures Scan(Filter(scripts, sip), sip, [s])
      {
        NoFalseNegatives(scripts, sip, [s], s);
      }
    } else {
      FirstUnreadable(vals, 0);
      assert vals[k] in vals;
      var i :| 0 <= i < |scripts| && Hashes(scripts, sip, f)[i] == vals[k];
      var s := scripts[i];
      ScanBuilt(scripts, sip, [s]);
      assert Hashes([s], sip, f) == [vals[k]];
      assert !Scan(Filter(scripts, sip), sip, [s]);
    }
  }

  /** A filter of 720 million items over one script with the largest hash does not match that script. */
  lemma HugeFilterMisses()
    ensures var scripts, sip := seq(720_000_000, _ => []), _ => U64 - 1;
            !Scan(Filter(scripts, sip), sip, [[]])
  {
    hide Filter, Scan, HashToRange, SortedHashes;
    var scripts: seq<Script>, sip: Script -> u64 := seq(720_000_000, _ => []), _ => U64 - 1;
    var f := |scripts| * M;
    var vals := SortedHashes(scripts, sip);
    assert vals[0] in vals;
    var i :| 0 <= i < |scripts| && Hashes(scripts, sip, f)[i] == vals[0];
    DivUnique((U64 - 1) * f, U64, f - 1, U64 - f);
    assert vals[0] == f - 1;
    ScanBuilt(scripts, sip, [[]]);
    assert Readable(vals, 0) == 0;
  }

  /** The first unreadable value is strictly above every readable one. */
  lemma {:induction false} FirstUnreadable(vals: seq<nat>, i: nat)
    requires Sorted(vals) && i <= |vals| && i + Readable(vals, i) < |vals|
    ensures var k := i + Readable(vals, i);
            Prev(vals, k) < vals[k] && vals[k] !in vals[..k]
    decreases |vals| - i
  {
    PrevBelow(vals, i);
    if (vals[i] - Prev(vals, i)) / POW_P > MAX_QUOTIENT {
      assert forall j | 0 <= j < i :: vals[j] <= Prev(vals, i);
    } else {
      FirstUnreadable(vals, i + 1);
    }
  }

  /** Up to 717 million items the cap is out of reach, so nothing is ever missed. */
  lemma SmallFiltersReadable(scripts: seq<Script>, sip: Script -> u64)
    requires |scripts| * M <= MAX_QUOTIENT * POW_P
    ensures |scripts| <= MAX_ITEMS && Readable(SortedHashes(scripts, sip), 0) == |scripts|
  {
    hide SortedHashes, Readable;
    var vals := SortedHashes(scripts, sip);
    forall j | 0 <= j < |vals|
      ensures vals[j] <= MAX_QUOTIENT * POW_P
    {
      HashBelow(scripts, sip, vals[j]);
    }
    AllReadable(vals, 0);
  }

  // ----- one script -----

  lemma PackNumber(b: seq<bool>)
    ensures Digits(Pack(b), 256) == Val(b) * Pow2((8 - |b| % 8) % 8)
  {
    hide *;
    var z := Zeros((8 - |b| % 8) % 8);
    ExpandPack(b);
    assert Pow2(8) == 256 by { Pow2Const(); }
    BytesFit(Pack(b));
    ValExpand(Pack(b), 8);
    ValAppend(b, z);
    ValZeros(|z|);
  }

  lemma OneHash(s: Script, sip: Script -> u64)
    ensures SortedHashes([s], sip) == [sip(s) * 784931 / 0x1_0000_0000_0000_0000]
  {
    hide SortedHashes, HashToRange;
    var h := HashToRange(sip(s), M);
    assert Hashes([s], sip, M) == [h];
    var r := SortedHashes([s], sip);
    assert r[0] in r;
    assert r == [h];
  }

  /**
  The filter of one script, with the constants of BIP 158 written out: the count 1, then
  20 or 21 bits for its hash scaled by 784931, and zeros to the end of the byte.
  */
  lemma OneScript(s: Script, sip: Script -> u64)
    ensures var f, h := Filter([s], sip), sip(s) * 784931 / 0x1_0000_0000_0000_0000;
            && |f| == 4 && f[0] == 1
            && Digits(f[1..], 256) == if h < 524288 then 16 * h else 8 * (524288 + h)
  {
    hide HashToRange, Pack, Code, SortedHashes, Digits, Val, Pow2, Stream;
    var h := sip(s) * 784931 / U64;
    assert 0 <= h < 784931 by { HighBelow(sip(s), 784931); }
    OneHash(s, sip);
    OneStream(h);
    CodeNumber(h);
    PackNumber(Code(h));
    SmallPowers();
    assert Varint.Encode(1) == [1];
    assert ([1] + Pack(Code(h)))[1..] == Pack(Code(h));
  }

  lemma OneStream(h: nat)
    ensures Sorted([h]) && Stream([h], 1) == Code(h)
  {
    hide Code;
    assert Stream([h], 0) == [];
    assert [] + Code(h) == Code(h);
  }

  lemma SmallPowers()
    ensures Pow2(0) == 1 && Pow2(1) == 2 && Pow2(3) == 8 && Pow2(4) == 16
  {
  }

  /** A script that hashes to 2^63: its filter, byte by byte, and everything else that it matches. */
  lemma LiteralFilter(s: Script, sip: Script -> u64, t: Script)
    requires sip(s) == 0x8000_0000_0000_0000
    ensures Filter([s], sip) == [0x01, 0x5f, 0xd1, 0x10]
    ensures Scan([0x01, 0x5f, 0xd1, 0x10], sip, [t]) <==> sip(t) * 784931 / 0x1_0000_0000_0000_0000 == 392465
  {
    hide HashToRange, Filter, Scan, SortedHashes;
    var f := Filter([s], sip);
    assert sip(s) * 784931 / U64 == 392465;
    OneScript(s, sip);
    ThreeBytes(f[1..]);
    assert 16 * 392465 == 0x5f * 65536 + 0xd1 * 256 + 0x10;
    assert f == [f[0], f[1], f[2], f[3]];
    ScanLiteral(s, sip, t, f);
  }

  lemma ScanLiteral(s: Script, sip: Script -> u64, t: Script, f: seq<byte>)
    requires sip(s) == 0x8000_0000_0000_0000 && f == Filter([s], sip)
    ensures Scan(f, sip, [t]) <==> sip(t) * 784931 / 0x1_0000_0000_0000_0000 == 392465
  {
    hide HashToRange, Filter, Scan, SortedHashes;
    OneHash(s, sip);
    ScanBuilt([s], sip, [t]);
    var h, vals := HashToRange(sip(t), M), [392465];
    assert Readable(vals, 1) == 0 && Readable(vals, 0) == 1 && vals[..1] == vals;
    assert Hashes([t], sip, 1 * M) == [h];
    assert h in [h] && (h in vals <==> h == 392465);
  }

  lemma ThreeBytes(b: seq<nat>)
    requires |b| == 3
    ensures Digits(b, 256) == b[0] * 65536 + b[1] * 256 + b[2]
  {
    var b2, b1 := b[..2], b[..1];
    assert b2[..1] == b1 && b1[..0] == [];
    assert Digits(b1, 256) == b[0];
    assert Digits(b2, 256) == b[0] * 256 + b[1];
  }

  /** The item limit is where the range of the hashes, 784931 per item, stops fitting 64 bits. */
  lemma ItemLimitExactly(n: nat)
    ensures n <= MAX_ITEMS <==> n * 784931 < 0x1_0000_0000_0000_0000
  {
  }
}
