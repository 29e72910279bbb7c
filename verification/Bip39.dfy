/**
BIP-39 mnemonics (src/bip39.c; BIP 39, section "Generating the mnemonic"): entropy and a
checksum, cut into 11-bit word indices, and back.  The first byte of SHA-256 is a
parameter; the word list is any valid one.
*/
module Bip39 {
  import opened Bits
  import opened Wrappers
  import opened Regroup
  import W = WordList

  const MAX_WORDS := 24

  /** The first byte of the hash of the entropy. */
  type Sha = seq<byte> -> byte

  predicate Supported(n: nat) {
    n == 16 || n == 20 || n == 24 || n == 28 || n == 32
  }

  /** The word indices of an entropy: its bits, then a checksum bit per 32 of them. */
  function Indices(sha: Sha, e: seq<byte>): (r: seq<nat>)
    requires Supported(|e|)
    ensures |r| == 3 * (|e| / 4) && Fits(r, 11)
  {
    Collect(Expand(e + [sha(e)], 8)[..33 * (|e| / 4)], 11)
  }

  predicate WordCount(n: nat) {
    12 <= n <= MAX_WORDS && n % 3 == 0
  }

  function DecodeIndices(sha: Sha, idx: seq<nat>): (r: Option<seq<byte>>)
    requires WordCount(|idx|)
    ensures r.Some? ==> |r.value| == 4 * (|idx| / 3)
  {
    var m, b := |idx| / 3, Expand(idx, 11);
    var e := AsBytes(Collect(b[..32 * m], 8));
    if b[32 * m..] == Repr(sha(e), 8)[..m] then Some(e) else None
  }

  lemma ChecksumPart(e: seq<byte>, h: byte, m: nat)
    requires m <= 8
    ensures var s := Expand(e + [h], 8);
            |s| == 8 * |e| + 8 && s[..8 * |e|] == Expand(e, 8)
            && s[8 * |e|..8 * |e| + m] == Repr(h, 8)[..m]
            && s[..8 * |e| + m] == Expand(e, 8) + Repr(h, 8)[..m]
  {
    hide Expand, Repr;
    ExpandAppend(e, h, 8);
  }

  /** Repacking 8-bit groups into 11-bit groups and back loses nothing. */
  lemma IndicesDecode(sha: Sha, e: seq<byte>)
    requires Supported(|e|)
    ensures DecodeIndices(sha, Indices(sha, e)) == Some(e)
  {
    hide Expand, Repr, Collect;
    var m, idx := |e| / 4, Indices(sha, e);
    ChecksumPart(e, sha(e), m);
    ExpandCollect(Expand(e + [sha(e)], 8)[..33 * m], 11);
    BytesFit(e);
    CollectExpand(e, 8);
    assert Expand(idx, 11)[..32 * m] == Expand(e, 8);
    assert Expand(idx, 11)[32 * m..] == Repr(sha(e), 8)[..m];
  }

  /** And what decoding accepts is what encoding the result yields. */
  lemma DecodeThenIndices(sha: Sha, idx: seq<nat>)
    requires WordCount(|idx|) && Fits(idx, 11) && DecodeIndices(sha, idx).Some?
    ensures var e := DecodeIndices(sha, idx).value;
            Supported(|e|) && Indices(sha, e) == idx
  {
    hide Expand, Repr, Collect;
    var m, b := |idx| / 3, Expand(idx, 11);
    var e := DecodeIndices(sha, idx).value;
    ExpandCollect(b[..32 * m], 8);
    ChecksumPart(e, sha(e), m);
    assert Expand(e, 8) + Repr(sha(e), 8)[..m] == b;
    CollectExpand(idx, 11);
  }

  /** The words spell in base 2048 the entropy followed by the leading bits of its hash. */
  lemma SameNumber(sha: Sha, e: seq<byte>)
    requires Supported(|e|)
    ensures var m := |e| / 4;
            Digits(Indices(sha, e), 2048) == Digits(e, 256) * Pow2(m) + sha(e) / Pow2(8 - m)
  {
    hide Expand, Collect, Val, Digits, Pow2, Repr;
    var m, h := |e| / 4, sha(e);
    assert Pow2(11) == 2048 && Pow2(8) == 256 by { Pow2Const(); }
    var idx := Indices(sha, e);
    ChecksumPart(e, h, m);
    ExpandCollect(Expand(e + [h], 8)[..33 * m], 11);
    BytesFit(e);
    ValExpand(idx, 11);
    ValExpand(e, 8);
    ValAppend(Expand(e, 8), Repr(h, 8)[..m]);
    Pow2Add(m, 8 - m);
    LeadingBits(h, m, 8 - m, Repr(h, 8));
  }

  // ----- phrases -----

  function Words(ws: seq<string>, idx: seq<nat>): (r: seq<string>)
    requires |ws| == W.WORDS && Fits(idx, 11)
    ensures |r| == |idx| && forall i | 0 <= i < |r| :: idx[i] < |ws| && r[i] == ws[idx[i]]
  {
    Pow2Const();
    seq(|idx|, i requires 0 <= i < |idx| => ws[idx[i]])
  }

  function Mnemonic(ws: seq<string>, sha: Sha, e: seq<byte>): (s: string)
    requires |ws| == W.WORDS && Supported(|e|)
  {
    W.Join(Words(ws, Indices(sha, e)))
  }

  /** The indices of a list of words, if all are listed. */
  function IndicesOf(ws: seq<string>, ts: seq<string>): (r: Option<seq<nat>>)
    ensures r.Some? ==> |r.value| == |ts| && forall i | 0 <= i < |ts| :: r.value[i] < |ws| && ws[r.value[i]] == ts[i]
  {
    if ts == [] then Some([])
    else match IndicesOf(ws, ts[..|ts| - 1])
      case None => None
      case Some(r) =>
        match W.Index(ws, ts[|ts| - 1])
        case None => None
        case Some(i) => Some(r + [i])
  }

  /** Tokens past the 24th are not looked at. */
  function Used(text: string): (ts: seq<string>)
    ensures |ts| <= MAX_WORDS
  {
    var ts := W.Tokens(text);
    if |ts| <= MAX_WORDS then ts else ts[..MAX_WORDS]
  }

  function Decode(ws: seq<string>, sha: Sha, text: string, max: nat): (r: Option<seq<byte>>)
  {
    match IndicesOf(ws, Used(text))
    case None => None
    case Some(idx) =>
      if !WordCount(|idx|) || 4 * (|idx| / 3) > max then None else DecodeIndices(sha, idx)
  }

  lemma {:induction false} IndicesOfWords(ws: seq<string>, idx: seq<nat>)
    requires W.Valid(ws) && Fits(idx, 11)
    ensures IndicesOf(ws, Words(ws, idx)) == Some(idx)
    decreases |idx|
  {
    hide W.Sorted, Pow2;
    if idx != [] {
      var n := |idx| - 1;
      assert Words(ws, idx)[..n] == Words(ws, idx[..n]);
      IndicesOfWords(ws, idx[..n]);
      W.IndexIs(ws, idx[n]);
      assert idx[..n] + [idx[n]] == idx;
    }
  }

  lemma UsedJoin(ts: seq<string>)
    requires |ts| <= MAX_WORDS && forall i | 0 <= i < |ts| :: W.Clean(ts[i])
    ensures Used(W.Join(ts)) == ts
  {
    hide W.Join, W.Tokens, W.Clean;
    W.TokensJoin(ts);
  }

  /** Mnemonic-to-entropy inverts entropy-to-mnemonic, exactly when the entropy fits the caller's buffer. */
  lemma RoundTrip(ws: seq<string>, sha: Sha, e: seq<byte>, max: nat)
    requires W.Valid(ws) && Supported(|e|)
    ensures Decode(ws, sha, Mnemonic(ws, sha, e), max) == if |e| <= max then Some(e) else None
  {
    hide Indices, DecodeIndices, Used, W.Join, W.Sorted, W.Clean, IndicesOf;
    var idx := Indices(sha, e);
    UsedJoin(Words(ws, idx));
    IndicesOfWords(ws, idx);
    IndicesDecode(sha, e);
  }

  /** Every accepted phrase re-encodes to its own words: all of them, or the first 24 when there are more. */
  lemma Reencode(ws: seq<string>, sha: Sha, text: string, max: nat)
    requires W.Valid(ws) && Decode(ws, sha, text, max).Some?
    ensures var e := Decode(ws, sha, text, max).value;
            Supported(|e|) && |e| <= max && Mnemonic(ws, sha, e) == W.Join(Used(text))
  {
    hide Indices, DecodeIndices, Used, W.Join, W.Valid, IndicesOf;
    var idx := IndicesOf(ws, Used(text)).value;
    assert |ws| == W.WORDS by { WordsCount(ws); }
    assert Fits(idx, 11) by { Pow2Const(); }
    DecodeThenIndices(sha, idx);
    assert Words(ws, idx) == Used(text);
  }

  lemma WordsCount(ws: seq<string>)
    requires W.Valid(ws)
    ensures |ws| == W.WORDS
  {
  }

  // ----- bip39_entropy_to_mnemonic -----

  /** Eleven bits of the buffer, most significant first. */
  method ElevenBits(buf: seq<byte>, offset: nat) returns (idx: nat)
    requires offset + 11 <= 8 * |buf|
    ensures idx == Val(Expand(buf, 8)[offset..offset + 11])
  {
    hide Expand, Repr, Pow2;
    idx := 0;
    ghost var s := Expand(buf, 8);
    assert Val(s[offset..offset]) == 0;
    hide Val;
    for b := 0 to 11
      invariant idx == Val(s[offset..offset + b]) * Pow2(11 - b)
    {
      var pos := offset + b;
      BitOf(buf, pos);
      BitJoins(s[offset..pos], s[pos], 10 - b);
      assert s[offset..pos + 1] == s[offset..pos] + [s[pos]];
      if buf[pos / 8] / Pow2(7 - pos % 8) % 2 == 1 {
        idx := idx + Pow2(10 - b);
      }
    }
    assert Pow2(0) == 1 by { Pow2Zero(); }
  }

  lemma BitOf(buf: seq<byte>, pos: nat)
    requires pos < 8 * |buf|
    ensures pos / 8 < |buf| && Expand(buf, 8)[pos] == (buf[pos / 8] / Pow2(7 - pos % 8) % 2 == 1)
  {
    hide Expand, Repr, Pow2;
    ExpandAt(buf, 8, pos);
    ReprAt(buf[pos / 8], 8, pos % 8);
  }

  /** The index of word `w`. */
  method IndexAt(sha: Sha, entropy: seq<byte>, buf: seq<byte>, w: nat) returns (i: nat)
    requires Supported(|entropy|) && buf == entropy + [sha(entropy)] && w < 3 * (|entropy| / 4)
    ensures i == Indices(sha, entropy)[w]
  {
    hide Expand, Collect, Val;
    var m := |entropy| / 4;
    ghost var s := Expand(buf, 8)[..33 * m];
    CollectAt(s, 11, w);
    i := ElevenBits(buf, w * 11);
    assert s[w * 11..w * 11 + 11] == Expand(buf, 8)[w * 11..w * 11 + 11];
  }

  lemma BitJoins(x: seq<bool>, bit: bool, k: nat)
    ensures Val(x + [bit]) * Pow2(k) == Val(x) * Pow2(k + 1) + if bit then Pow2(k) else 0
  {
    assert (x + [bit])[..|x|] == x;
    var v, p := Val(x), Pow2(k);
    assert Pow2(k + 1) == 2 * p;
    assert (2 * v) * p == v * (2 * p);
    assert (2 * v + 1) * p == (2 * v) * p + p;
  }

  /** Appends `w` at `pos` if a terminator still fits after it below `max`. */
  method Append(out: array<char>, max: nat, pos: nat, w: string) returns (ok: bool)
    requires pos <= out.Length && max <= out.Length
    modifies out
    ensures ok <==> pos + |w| < max
    ensures ok ==> out[..pos + |w|] == old(out[..pos]) + w
  {
    if pos + |w| >= max { return false; }
    for i := 0 to |w|
      invariant out[..pos] == old(out[..pos])
      invariant out[pos..pos + i] == w[..i]
    {
      out[pos + i] := w[i];
      assert out[pos..pos + i + 1] == out[pos..pos + i] + [w[i]];
    }
    assert out[..pos + |w|] == out[..pos] + out[pos..pos + |w|];
    ok := true;
  }

  lemma {:induction false} JoinGrows(ts: seq<string>, n: nat)
    requires n <= |ts|
    ensures |W.Join(ts[..n])| <= |W.Join(ts)|
    decreases |ts|
  {
    if n == |ts| {
      assert ts[..n] == ts;
    } else {
      var t := ts[..|ts| - 1];
      JoinGrows(t, n);
      assert t[..n] == ts[..n];
    }
  }

  lemma JoinStep(ts: seq<string>, n: nat)
    requires n < |ts|
    ensures W.Join(ts[..n + 1]) == if n == 0 then ts[0] else W.Join(ts[..n]) + " " + ts[n]
  {
    assert ts[..n + 1][..n] == ts[..n];
  }

  /**
  Writes the phrase, or reports that the length is unsupported or `max` too small.  The
  first byte is written before `max` is looked at, so the buffer has one even if `max` is 0.
  */
  method EntropyToMnemonic(ws: seq<string>, sha: Sha, entropy: seq<byte>, out: array<char>, max: nat) returns (ok: bool)
    requires |ws| == W.WORDS && max <= out.Length && out.Length > 0
    modifies out
    ensures ok <==> Supported(|entropy|) && |Mnemonic(ws, sha, entropy)| < max
    ensures ok ==> var s := Mnemonic(ws, sha, entropy); out[..|s|] == s && out[|s|] == '\0'
  {
    hide Indices, W.Join;
    var csBits;
    if |entropy| == 16 { csBits := 4; }
    else if |entropy| == 20 { csBits := 5; }
    else if |entropy| == 24 { csBits := 6; }
    else if |entropy| == 28 { csBits := 7; }
    else if |entropy| == 32 { csBits := 8; }
    else { return false; }
    var totalBits := |entropy| * 8 + csBits;
    var nWords := totalBits / 11;
    var buf := entropy + [sha(entropy)];
    ghost var idx := Indices(sha, entropy);
    ghost var ts := Words(ws, idx);
    out[0] := '\0';
    var pos := 0;
    W.JoinNil();
    for w := 0 to nWords
      invariant pos <= out.Length && (w > 0 ==> pos < max)
      invariant pos == |W.Join(ts[..w])| && out[..pos] == W.Join(ts[..w])
    {
      var i := IndexAt(sha, entropy, buf, w);
      JoinStep(ts, w);
      JoinGrows(ts, w + 1);
      var word := ws[i];
      if w > 0 {
        var fits := Append(out, max, pos, " ");
        if !fits { return false; }
        pos := pos + 1;
      }
      var fits := Append(out, max, pos, word);
      if !fits { return false; }
      pos := pos + |word|;
    }
    assert ts[..nWords] == ts;
    out[pos] := '\0';
    ok := true;
  }

  // ----- bip39_mnemonic_to_entropy -----

  /** The loop over the tokens: the first 24 of them, if all are listed. */
  method ReadWords(ws: seq<string>, text: string) returns (r: Option<seq<nat>>)
    requires |ws| == W.WORDS && W.Sorted(ws)
    ensures r == IndicesOf(ws, Used(text))
  {
    hide W.Tokens, W.Sorted, W.Index, IndicesOf;
    var tokens := W.Tokens(text);
    ghost var ts := Used(text);
    var idx: seq<nat> := [];
    assert IndicesOf(ws, ts[..0]) == Some([]) by { IndicesOfStep(ws, ts, 0); }
    var n := 0;
    while n < |tokens| && n < MAX_WORDS
      invariant 0 <= n <= |ts| && IndicesOf(ws, ts[..n]) == Some(idx)
    {
      var i := W.Search(ws, tokens[n]);
      IndicesOfStep(ws, ts, n + 1);
      if i < 0 {
        IndicesOfStops(ws, ts, n + 1);
        return None;
      }
      idx := idx + [i];
      n := n + 1;
    }
    assert ts[..n] == ts;
    r := Some(idx);
  }

  lemma IndicesOfStep(ws: seq<string>, ts: seq<string>, n: nat)
    requires n <= |ts|
    ensures n == 0 ==> IndicesOf(ws, ts[..n]) == Some([])
    ensures n > 0 ==> IndicesOf(ws, ts[..n]) ==
                      if IndicesOf(ws, ts[..n - 1]).Some? && W.Index(ws, ts[n - 1]).Some?
                      then Some(IndicesOf(ws, ts[..n - 1]).value + [W.Index(ws, ts[n - 1]).value]) else None
  {
    hide W.Index;
    if n > 0 { assert ts[..n][..n - 1] == ts[..n - 1]; }
  }

  lemma {:induction false} IndicesOfStops(ws: seq<string>, ts: seq<string>, n: nat)
    requires n <= |ts| && IndicesOf(ws, ts[..n]) == None
    ensures IndicesOf(ws, ts) == None
    decreases |ts| - n
  {
    hide W.Index;
    if n == |ts| {
      assert ts[..n] == ts;
    } else {
      IndicesOfStep(ws, ts, n + 1);
      IndicesOfStops(ws, ts, n + 1);
    }
  }

  /** Ors one index into a zeroed stretch of the buffer. */
  method PutIndex(buf: array<byte>, offset: nat, idx: nat)
    requires idx < 2048 && offset + 11 <= 8 * buf.Length
    requires Expand(buf[..], 8)[offset..offset + 11] == Zeros(11)
    modifies buf
    ensures Expand(buf[..], 8) == old(Expand(buf[..], 8)[..offset]) + Repr(idx, 11) + old(Expand(buf[..], 8)[offset + 11..])
  {
    hide Expand, Repr, Val, Pow2, Zeros;
    ghost var s, bits := Expand(buf[..], 8), Repr(idx, 11);
    assert forall j | offset <= j < offset + 11 :: !s[j] by { ZerosAt(s, offset); }
    for b := 0 to 11
      invariant Expand(buf[..], 8) == Overlay(s, offset, bits, b)
    {
      var pos := offset + b;
      ghost var was: seq<nat> := buf[..];
      ReprAt(idx, 11, b);
      if idx / Pow2(10 - b) % 2 == 1 {
        BytesFit(buf[..]);
        Pow2Const();
        ExpandPutBit(was, 8, pos, true);
        buf[pos / 8] := Val(Repr(buf[pos / 8], 8)[pos % 8 := true]);
        assert buf[..] == PutBit(was, 8, pos, true);
      }
      assert Overlay(s, offset, bits, b)[pos := bits[b]] == Overlay(s, offset, bits, b + 1);
      assert bits[b] || Overlay(s, offset, bits, b)[pos := bits[b]] == Overlay(s, offset, bits, b);
    }
  }

  lemma ZerosAt(s: seq<bool>, offset: nat)
    requires offset + 11 <= |s| && s[offset..offset + 11] == Zeros(11)
    ensures forall j | offset <= j < offset + 11 :: !s[j]
  {
    forall j | offset <= j < offset + 11 ensures !s[j] {
      assert s[j] == s[offset..offset + 11][j - offset];
    }
  }

  /** The first `n` of `bits` laid over `s` from `offset`. */
  ghost function Overlay(s: seq<bool>, offset: nat, bits: seq<bool>, n: nat): (r: seq<bool>)
    requires n <= |bits| && offset + |bits| <= |s|
    ensures |r| == |s|
  {
    s[..offset] + bits[..n] + s[offset + n..]
  }

  /** The bit buffer rebuilt from the indices, padded with zeros to whole bytes. */
  method PackIndices(idx: seq<nat>) returns (buf: array<byte>)
    requires Fits(idx, 11)
    ensures fresh(buf) && buf.Length == (11 * |idx| + 7) / 8
    ensures Expand(buf[..], 8)[..11 * |idx|] == Expand(idx, 11)
  {
    hide Expand, Repr, Zeros, Pow2;
    var total := |idx| * 11;
    var len := (total + 7) / 8;
    buf := new byte[len](_ => 0);
    assert buf[..] == seq(len, _ => 0);
    ExpandZeros(len, 8);
    ExpandNil(11);
    for w := 0 to |idx|
      invariant Expand(buf[..], 8) == Expand(idx[..w], 11) + Zeros(8 * len - 11 * w)
    {
      var s := Expand(buf[..], 8);
      ZerosSplit(11, 8 * len - 11 * w);
      assert s[w * 11..w * 11 + 11] == Zeros(11);
      Pow2Const();
      PutIndex(buf, w * 11, idx[w]);
      ExpandAppend(idx[..w], idx[w], 11);
      assert idx[..w] + [idx[w]] == idx[..w + 1];
    }
    assert idx[..|idx|] == idx;
  }

  lemma ZerosSplit(a: nat, n: nat)
    requires a <= n
    ensures Zeros(n) == Zeros(a) + Zeros(n - a)
  {
  }

  /** `(x & mask) == (y & mask)` for the mask of the top `m` bits. */
  lemma MaskEqual(x: byte, y: byte, m: nat)
    requires m <= 8
    ensures Shr(x, 8 - m) == Shr(y, 8 - m) <==> Repr(x, 8)[..m] == Repr(y, 8)[..m]
  {
    hide Shr, Repr;
    MaskTop(x, m);
    MaskTop(y, m);
  }

  lemma MaskTop(x: byte, m: nat)
    requires m <= 8
    ensures Val(Repr(x, 8)[..m]) == Shr(x, 8 - m) && Repr(x, 8)[..m] == Repr(Shr(x, 8 - m), m)
  {
    hide Shr, Repr;
    ReprSplit(x, m, 8 - m);
    assert Repr(x, 8)[..m] == Repr(Shr(x, 8 - m), m);
    assert Shr(x, 8 - m) < Pow2(m) by { ShrBound(x, m); }
    ValRepr(Shr(x, 8 - m), m);
  }

  lemma {:induction false} ShrBound(x: nat, m: nat)
    requires x < 256 && m <= 8
    ensures Shr(x, 8 - m) < Pow2(m)
  {
    ShrLess(x, m, 8 - m);
    Pow2Const();
  }

  lemma {:induction false} ShrLess(x: nat, m: nat, k: nat)
    ensures x < Pow2(m + k) ==> Shr(x, k) < Pow2(m)
    decreases k
  {
    if k > 0 {
      assert Pow2(m + k) == 2 * Pow2(m + k - 1);
      ShrLess(x / 2, m, k - 1);
    }
  }

  lemma GroupOf(buf: seq<byte>, n: nat, m: nat)
    requires n < |buf| && m <= 8
    ensures 8 * n + m <= |Expand(buf, 8)|
    ensures Expand(buf, 8)[..8 * n] == Expand(buf[..n], 8)
    ensures Expand(buf, 8)[8 * n..8 * n + m] == Repr(buf[n], 8)[..m]
  {
    hide Expand, Repr;
    ExpandGroup(buf, 8, n);
  }

  /** Returns the entropy's length, or 0 and no result. */
  method MnemonicToEntropy(ws: seq<string>, sha: Sha, text: string, out: array<byte>) returns (len: nat)
    requires W.Valid(ws)
    modifies out
    ensures var r := Decode(ws, sha, text, out.Length);
            len == (if r.Some? then |r.value| else 0) && (r.Some? ==> len > 0 && out[..len] == r.value)
  {
    hide Expand, Repr, Collect, W.Sorted, W.Clean, IndicesOf, Used, Shr;
    var r := ReadWords(ws, text);
    if r.None? { return 0; }
    var idx := r.value;
    var n := |idx|;
    if n < 12 || n > 24 || n % 3 != 0 { return 0; }
    var totalBits := n * 11;
    var csBits := totalBits / 33;
    var entBytes := (totalBits - csBits) / 8;
    assert csBits == n / 3 && entBytes == 4 * csBits;
    if entBytes > out.Length { return 0; }
    assert Fits(idx, 11) by { Pow2Const(); }
    var buf := PackIndices(idx);
    CopyPrefix(out, buf, entBytes);
    var hash := sha(out[..entBytes]);
    ghost var b := Expand(idx, 11);
    GroupOf(buf[..], entBytes, csBits);
    BytesFit(buf[..entBytes]);
    CollectExpand(buf[..entBytes], 8);
    MaskEqual(buf[entBytes], hash, csBits);
    assert b[..32 * csBits] == Expand(buf[..entBytes], 8);
    assert b[32 * csBits..] == Repr(buf[entBytes], 8)[..csBits];
    if Shr(buf[entBytes], 8 - csBits) != Shr(hash, 8 - csBits) { return 0; }
    len := entBytes;
  }

  method CopyPrefix(out: array<byte>, buf: array<byte>, n: nat)
    requires n <= out.Length && n <= buf.Length && out != buf
    modifies out
    ensures out[..n] == buf[..n]
  {
    for i := 0 to n
      invariant out[..i] == buf[..i]
    {
      out[i] := buf[i];
    }
  }
}
