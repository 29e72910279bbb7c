/**
BOLT #11 invoices (src/bolt11.c): prefix, data part, signature and checksum, and how far
decoding undoes encoding.  Signing and public-key recovery are parameters.
*/
module Bolt11 {
  import opened Bits
  import opened Wrappers
  import opened Regroup
  import opened Bech32
  import opened Bolt11Fields
  import opened Bolt11Cursor
  import Bech32m
  import Hrp = Bolt11Hrp

  const CHECK_BUFFER := 1024
  const SIG_GROUPS := 104

  type Compact = b: seq<byte> | |b| == 64 witness seq(64, _ => 0)
  type Pubkey = b: seq<byte> | |b| == 33 witness seq(33, _ => 0)

  datatype Signature = Signature(compact: Compact, recid: byte)

  /** Signs prefix and data; may fail. */
  type Signer = (string, seq<nat>) -> Option<Signature>
  /** The key a signature over prefix and data was made with, given one recovery bit. */
  type Recoverer = (string, seq<nat>, Compact, nat) -> Option<Pubkey>

  // ----- encoding -----

  /** The 35 bits of the timestamp. */
  function TimeGroups(t: u32): (g: seq<nat>)
    ensures |g| == 7 && Fits(g, 5)
  {
    Collect(Repr(t, 35), 5)
  }

  function Data(v: Invoice): (g: seq<nat>)
    requires Valid(v)
  {
    TimeGroups(v.timestamp) + AllGroups(FieldsOf(v))
  }

  predicate Checkable(hrp: string, d5: seq<nat>) {
    |hrp| * 2 + 1 + |d5| + 6 <= CHECK_BUFFER
  }

  /** bech32_checksum_val: zero when the groups do not fit its buffer. */
  function Checksum11(hrp: cstring, d5: seq<nat>): (r: word30) {
    if Checkable(hrp, d5) then ChecksumOf(hrp, d5, BECH32_CONST) else Zeros(30)
  }

  function SigGroups(s: Signature): (g: seq<nat>)
    ensures |g| == SIG_GROUPS && Fits(g, 5)
  {
    To5(s.compact + [s.recid])
  }

  function WithChecksum(hrp: cstring, d5: seq<nat>): (g: seq<nat>) {
    d5 + Collect(Checksum11(hrp, d5), 5)
  }

  lemma BuildC(v: Invoice)
    requires Valid(v)
    ensures var h := Hrp.Build(v.network, v.amount);
            |h| < 128 && forall i | 0 <= i < |h| :: 0 < h[i] as int < 256
  {
    hide Hrp.Decimal, Hrp.Units, GoodHint;
    if v.amount.Some? && v.amount.value > 0 {
      var m := v.amount.value;
      Hrp.UnitLetter(m);
      Hrp.DecimalLength(Hrp.Units(m).0);
    }
  }

  /** The prefix as the C string it is. */
  function Prefix(v: Invoice): (h: cstring)
    requires Valid(v)
    ensures h == Hrp.Build(v.network, v.amount) && |h| < 128
  {
    BuildC(v);
    Hrp.Build(v.network, v.amount)
  }

  function Encode(v: Invoice, sign: Signer, outCap: nat): (r: Option<string>)
    requires Valid(v)
  {
    var h, d := Prefix(v), Data(v);
    match sign(h, d)
    case None => None
    case Some(s) =>
      if |d| + SIG_GROUPS + 6 > D5_BUFFER then None
      else
        var g := WithChecksum(h, d + SigGroups(s));
        GroupsAreSymbols(v, s, h);
        if outCap < |h| + 1 + |g| + 1 then None else Some(h + "1" + Chars(g))
  }

  lemma {:induction false} AllGroupsFit(fs: seq<Field>)
    requires GoodFields(fs)
    ensures Fits(AllGroups(fs), 5)
    decreases |fs|
  {
    if fs != [] {
      var n := |fs| - 1;
      AllGroupsFit(fs[..n]);
      OneGroupsFit(fs[n]);
      FitsConcat(AllGroups(fs[..n]), Groups(fs[n]));
    }
  }

  lemma OneGroupsFit(f: Field)
    requires GoodField(f)
    ensures Fits(Groups(f), 5)
  {
    Pow2Const();
  }

  lemma FitsConcat(a: seq<nat>, b: seq<nat>)
    requires Fits(a, 5) && Fits(b, 5)
    ensures Fits(a + b, 5)
  {
  }

  lemma DataFits(v: Invoice)
    requires Valid(v)
    ensures Fits(Data(v), 5)
  {
    hide Fits, FieldsOf, Valid, AllGroups, Repr, Collect;
    FieldsGood(v);
    AllGroupsFit(FieldsOf(v));
    FitsConcat(TimeGroups(v.timestamp), AllGroups(FieldsOf(v)));
  }

  lemma SymbolsOfFits(g: seq<nat>)
    ensures Fits(g, 5) <==> Symbols(g)
  {
    Pow2Const();
  }

  lemma GroupsAreSymbols(v: Invoice, s: Signature, h: cstring)
    requires Valid(v)
    ensures Symbols(WithChecksum(h, Data(v) + SigGroups(s)))
    ensures Symbols(Data(v) + SigGroups(s))
  {
    hide Data, Valid, To5, Fits, Collect, Checksum11;
    DataFits(v);
    FitsConcat(Data(v), SigGroups(s));
    var d := Data(v) + SigGroups(s);
    var c := Collect(Checksum11(h, d), 5);
    CollectFits(Checksum11(h, d));
    FitsConcat(d, c);
    SymbolsOfFits(d);
    SymbolsOfFits(d + c);
  }

  lemma CollectFits(w: word30)
    ensures Fits(Collect(w, 5), 5) && |Collect(w, 5)| == 6
  {
  }

  // ----- decoding -----

  /** The recomputed checksum against the last six groups. */
  predicate Accepts11(hrp: cstring, v: seq<nat>)
    requires |v| >= 6
  {
    Checksum11(hrp, v[..|v| - 6]) == Expand(v[|v| - 6..], 5)
  }

  function Timestamp(d: seq<nat>): (t: u32)
    requires |d| >= 7
  {
    Val(Expand(d, 5)[..35]) % U32
  }

  /** The payee is the one named, or else the one the signature is from. */
  function WithPayee(v: Invoice, key: Pubkey): (r: Invoice)
    requires |v.payee| > 0
  {
    if v.payee[0] == 0 then v.(payee := key) else v
  }

  lemma {:induction false} PayeeLength(v: Invoice, fs: seq<Field>)
    requires |v.payee| == 33
    ensures |ApplyAll(v, fs).payee| == 33
    decreases |fs|
  {
    if fs != [] {
      PayeeKept(v, fs[0]);
      PayeeLength(Apply(v, fs[0]), fs[1..]);
    }
  }

  lemma PayeeKept(v: Invoice, f: Field)
    requires |v.payee| == 33
    ensures |Apply(v, f).payee| == 33
  {
    hide Bytes, NumberOf, HopsIn, UpToNul;
  }

  /** Network, amount and fields, then the signature over them. */
  function DecodeBody(hrp: string, d: seq<nat>, recover: Recoverer): (r: Option<Invoice>) {
    match Hrp.Parse(hrp)
    case None => None
    case Some(p) =>
      if |d| < 7 + SIG_GROUPS then None
      else
        var body, sig5 := d[..|d| - SIG_GROUPS], d[|d| - SIG_GROUPS..];
        var start := Blank(p.network, if p.msat > 0 then Some(p.msat) else None, Timestamp(body));
        var v := ApplyAll(start, FieldsIn(body[7..]));
        PayeeLength(start, FieldsIn(body[7..]));
        var sig := Bytes(sig5, 66);
        if |sig| < 65 then None
        else match recover(hrp, body, sig[..64], sig[64] as int % 2)
          case None => None
          case Some(key) => Some(WithPayee(v, key))
  }

  function Decode(str: cstring, recover: Recoverer): (r: Option<Invoice>) {
    var sep := LastOne(str);
    if sep < 4 || sep >= 128 || |str| - sep - 1 < 110 || |str| - sep - 1 > D5_BUFFER then None
    else match Bech32m.SymbolsIn(str[sep + 1..])
      case None => None
      case Some(g) =>
        var h := LowerAll(str[..sep]);
        if !Accepts11(h, g) then None else DecodeBody(h, g[..|g| - 6], recover)
  }

  // ----- decoding undoes encoding -----

  lemma ChecksumBack(h: cstring, d: seq<nat>)
    ensures |WithChecksum(h, d)| == |d| + 6
    ensures Accepts11(h, WithChecksum(h, d)) && WithChecksum(h, d)[..|d|] == d
  {
    hide Collect, Expand, Checksum11;
    var c := Checksum11(h, d);
    var g := WithChecksum(h, d);
    ExpandCollect(c, 5);
    assert g[..|g| - 6] == d && g[|g| - 6..] == Collect(c, 5);
  }

  lemma TimeBack(v: Invoice)
    requires Valid(v)
    ensures Timestamp(Data(v)) == v.timestamp && Data(v)[7..] == AllGroups(FieldsOf(v))
  {
    hide Repr, Collect, Expand, Val, FieldsOf, Valid, AllGroups;
    var g, rest := TimeGroups(v.timestamp), AllGroups(FieldsOf(v));
    ExpandConcat(g, rest, 5);
    ExpandCollect(Repr(v.timestamp, 35), 5);
    assert Expand(Data(v), 5)[..35] == Repr(v.timestamp, 35);
    assert v.timestamp < Pow2(35) by { Pow35(); }
    ValRepr(v.timestamp, 35);
  }

  lemma Pow35()
    ensures Pow2(35) > U32
  {
    hide Pow2;
    Pow2Const();
    Pow2Add(32, 3);
    assert Pow2(3) > 1 by { Pow2Three(); }
  }

  lemma Pow2Three()
    ensures Pow2(3) == 8
  {
    assert Pow2(2) == 4;
  }

  lemma SigBack(s: Signature)
    ensures Bytes(SigGroups(s), 66) == s.compact + [s.recid]
  {
    hide Bytes, To5;
    BytesTo5(s.compact + [s.recid], 66);
  }

  /** The amount as the decoder reports it: none unless positive. */
  function AmountBack(amount: Option<u64>): (r: Option<u64>) {
    if Hrp.Back(amount) > 0 then Some(Hrp.Back(amount)) else None
  }

  lemma BodyBack(v: Invoice, s: Signature, recover: Recoverer, key: Pubkey)
    requires Valid(v) && Hrp.Supported(v.network)
    requires recover(Prefix(v), Data(v), s.compact, s.recid as int % 2) == Some(key)
    ensures DecodeBody(Prefix(v), Data(v) + SigGroups(s), recover) == Some(WithPayee(Recovered(v, AmountBack(v.amount)), key))
  {
    hide Hrp.Build, Hrp.Parse, Hrp.Back, Data, SigGroups, Timestamp, Bytes, ApplyAll, FieldsIn, AllGroups, FieldsOf, Recovered, Blank, GoodHint;
    var d, body := Data(v) + SigGroups(s), Data(v);
    Hrp.ParseBuild(v.network, v.amount);
    assert |body| >= 7 by { DataLength(v); }
    assert d[..|d| - SIG_GROUPS] == body && d[|d| - SIG_GROUPS..] == SigGroups(s);
    TimeBack(v);
    FieldsGood(v);
    FieldsBack(FieldsOf(v));
    FieldsRecovered(v, AmountBack(v.amount));
    SigBack(s);
    assert (s.compact + [s.recid])[..64] == s.compact;
  }

  lemma DataLength(v: Invoice)
    requires Valid(v)
    ensures |Data(v)| >= 7
  {
    hide FieldsOf, AllGroups, Repr, Collect;
  }

  lemma PrefixLower(v: Invoice)
    requires Valid(v) && Hrp.Supported(v.network)
    ensures LowerAll(Prefix(v)) == Prefix(v) && |Prefix(v)| >= 4
  {
    hide Hrp.Build, Lower, GoodHint;
    Hrp.BuildLower(v.network, v.amount);
  }

  /** Whatever the encoder writes for one of the five networks is read back, each part as `Recovered` and `AmountBack` say. */
  lemma DecodeEncode(v: Invoice, sign: Signer, outCap: nat, recover: Recoverer, key: Pubkey)
    requires Valid(v) && Hrp.Supported(v.network) && Encode(v, sign, outCap).Some?
    requires sign(Prefix(v), Data(v)).Some?
    requires var s := sign(Prefix(v), Data(v)).value;
             recover(Prefix(v), Data(v), s.compact, s.recid as int % 2) == Some(key)
    ensures var str := Encode(v, sign, outCap).value;
            && (forall i | 0 <= i < |str| :: 0 < str[i] as int < 256)
            && Decode(str, recover) == Some(WithPayee(Recovered(v, AmountBack(v.amount)), key))
  {
    hide Prefix, Data, SigGroups, WithChecksum, Accepts11, DecodeBody, Chars, LowerAll, LastOne, Bech32m.SymbolsIn, Recovered, Valid, AmountBack;
    var h, d := Prefix(v), Data(v);
    var s := sign(h, d).value;
    var b := d + SigGroups(s);
    var g := WithChecksum(h, b);
    GroupsAreSymbols(v, s, h);
    ChecksumBack(h, b);
    PrefixLower(v);
    DataLength(v);
    BodyBack(v, s, recover, key);
    Bech32m.ReadBack(h, g);
    var str := h + "1" + Chars(g);
    assert str[..|h|] == h && str[|h| + 1..] == Chars(g);
  }

  /** Everything an invoice must satisfy to survive. */
  predicate Faithful(v: Invoice)
    requires Valid(v)
  {
    InRange(v) && (v.amount.Some? ==> v.amount.value > 0 && v.amount.value % 100 == 0)
  }

  /**
  Decoding after encoding returns the invoice itself, the payee filled in if it was
  absent, exactly when every part is in range and the amount is absent or a positive
  multiple of 100 millisatoshi.
  */
  lemma RoundTripExactly(v: Invoice, sign: Signer, outCap: nat, recover: Recoverer, key: Pubkey)
    requires Valid(v) && Hrp.Supported(v.network) && Encode(v, sign, outCap).Some?
    requires sign(Prefix(v), Data(v)).Some?
    requires var s := sign(Prefix(v), Data(v)).value;
             recover(Prefix(v), Data(v), s.compact, s.recid as int % 2) == Some(key)
    ensures var str := Encode(v, sign, outCap).value;
            && (forall i | 0 <= i < |str| :: 0 < str[i] as int < 256)
            && (Decode(str, recover) == Some(WithPayee(v, key)) <==> Faithful(v))
  {
    hide Encode, Decode, HintsBack, Prefix, Data, GoodHint, Hrp.Back;
    DecodeEncode(v, sign, outCap, recover, key);
    RecoveredExactly(v);
    AmountSurvives(v.amount);
  }

  lemma AmountSurvives(amount: Option<u64>)
    ensures AmountBack(amount) == amount <==> (amount.Some? ==> amount.value > 0 && amount.value % 100 == 0)
  {
    hide Hrp.Back;
    if amount.Some? { Hrp.AmountExactly(amount.value); }
    assert amount.None? ==> Hrp.Back(amount) == 0 by { NoAmount(); }
  }

  lemma NoAmount()
    ensures Hrp.Back(None) == 0
  {
  }

  // ----- what is accepted -----

  /** What bolt11_decode accepts, with its bounds written out. */
  lemma DecodesExactly(str: cstring, recover: Recoverer)
    ensures Decode(str, recover).Some? <==>
            var sep := LastOne(str);
            && 4 <= sep <= 127 && 117 <= |str| - sep - 1 <= 4096
            && Bech32m.SymbolsIn(str[sep + 1..]).Some?
            && var h, g := LowerAll(str[..sep]), Bech32m.SymbolsIn(str[sep + 1..]).value;
               && Accepts11(h, g) && Hrp.Parse(h).Some?
               && var d, sig := g[..|g| - 110], From5(g[|g| - 110..|g| - 6]);
                  sig.Some? && recover(h, d, sig.value[..64], sig.value[64] as int % 2).Some?
  {
    hide LastOne, LowerAll, Accepts11, Hrp.Parse, From5, Bech32m.SymbolsIn, ApplyAll, FieldsIn, Timestamp;
    var sep := LastOne(str);
    if 4 <= sep <= 127 && 117 <= |str| - sep - 1 && Bech32m.SymbolsIn(str[sep + 1..]).Some? {
      var g := Bech32m.SymbolsIn(str[sep + 1..]).value;
      var d := g[..|g| - 6];
      assert d[..|d| - 104] == g[..|g| - 110] && d[|d| - 104..] == g[|g| - 110..|g| - 6];
    }
  }

  // ----- the layout of the data part -----

  /** The data part starts with the timestamp in seven groups, and each field with its tag and its length in three. */
  lemma DataLayout(v: Invoice)
    requires Valid(v)
    ensures |Data(v)| >= 62 && Digits(Data(v)[..7], 32) == v.timestamp
    ensures Data(v)[7..10] == [1, 1, 20] && Data(v)[10..62] == To5(v.hash)
  {
    hide Collect, To5, OfBlob, OfMetadata, OfDescription, OtherFields, Digits, GoodHint;
    TimeNumber(v.timestamp);
    var fs := FieldsOf(v);
    assert fs[0] == Field(1, To5(v.hash)) && |To5(v.hash)| == 52;
    FirstGroups(fs);
    assert Data(v)[..7] == TimeGroups(v.timestamp);
    assert Data(v)[7..] == AllGroups(fs);
  }

  lemma TimeNumber(t: u32)
    ensures Digits(TimeGroups(t), 32) == t
  {
    hide Collect, Digits, Repr, Val, Pow2;
    assert Pow2(5) == 32 && Pow2(32) == U32 by { Pow2Const(); }
    ExpandCollect(Repr(t, 35), 5);
    ValExpand(TimeGroups(t), 5);
    Pow2Add(32, 3);
    assert Pow2(3) == 8 by { Eight(); }
    ValRepr(t, 35);
  }

  lemma Eight()
    ensures Pow2(3) == 8
  {
  }

  lemma {:induction false} FirstGroups(fs: seq<Field>)
    requires fs != []
    ensures Groups(fs[0]) <= AllGroups(fs)
    decreases |fs|
  {
    hide Groups;
    if |fs| == 1 {
      assert fs[..0] == [] && AllGroups([]) == [];
      assert [] + Groups(fs[0]) == Groups(fs[0]);
    } else {
      FirstGroups(fs[..|fs| - 1]);
    }
  }

  // ----- how far the checksum reaches -----

  lemma AcceptsShort(hrp: cstring, v: seq<nat>)
    requires |v| >= 6 && Checkable(hrp, v[..|v| - 6])
    ensures Accepts11(hrp, v) <==> Accepts(hrp, v, BECH32_CONST)
  {
    hide Expand, ChecksumOf;
  }

  /**
  The checksum test with the BIP 173 constant written out: the polymod equation while the
  groups fit the buffer, and six symbols of zero beyond it.
  */
  lemma ChecksumExactly(hrp: cstring, v: seq<nat>)
    requires |v| >= 6 && Fits(v, 5)
    ensures Accepts11(hrp, v) <==>
            if 2 * |hrp| + 1 + |v| <= 1024 then Poly(Word(1), ExpandHrp(hrp) + v) == Word(1)
            else forall i | |v| - 6 <= i < |v| :: v[i] == 0
  {
    hide Accepts, Expand, ChecksumOf, Zeros, Poly, Word, ExpandHrp, Fits;
    if Checkable(hrp, v[..|v| - 6]) {
      AcceptsShort(hrp, v);
      assert Symbols(v) by { FitSymbols(v); }
      AcceptsExactly(hrp, v, BECH32_CONST);
    } else {
      ZeroTail(v);
    }
  }

  lemma FitSymbols(v: seq<nat>)
    requires Fits(v, 5)
    ensures Symbols(v)
  {
    Pow2Const();
  }

  lemma ZeroTail(v: seq<nat>)
    requires |v| >= 6 && Fits(v, 5)
    ensures Zeros(30) == Expand(v[|v| - 6..], 5) <==> forall i | |v| - 6 <= i < |v| :: v[i] == 0
  {
    hide Expand, Zeros;
    Pow2Const();
    var t, z := v[|v| - 6..], seq(6, _ => 0);
    ExpandZeros(6, 5);
    if Expand(t, 5) == Expand(z, 5) { ExpandInjective(t, z, 5); }
    assert forall i | |v| - 6 <= i < |v| :: v[i] == t[i - (|v| - 6)];
    if forall i | |v| - 6 <= i < |v| :: v[i] == 0 { assert t == z; }
  }

  /** Changing one symbol of an accepted string is noticed exactly when the string fits the checksum's buffer or the symbol is one of the last six. */
  lemma OneSymbolNoticed(hrp: cstring, v: seq<nat>, i: nat, y: nat)
    requires |v| >= 6 && i < |v| && v[i] < 32 && y < 32 && y != v[i] && Fits(v, 5) && Accepts11(hrp, v)
    ensures !Accepts11(hrp, v[i := y]) <==> Checkable(hrp, v[..|v| - 6]) || i >= |v| - 6
  {
    hide Accepts, Expand, ChecksumOf, Zeros, Fits;
    var w, n := v[i := y], |v| - 6;
    if Checkable(hrp, v[..n]) {
      AcceptsShort(hrp, v);
      AcceptsShort(hrp, w);
      OneErrorDetected(hrp, v, i, y, BECH32_CONST);
    } else if i >= n {
      assert v[n..][i - n] == v[i] && w[n..][i - n] == y;
      TailsDiffer(v, n, i, y);
    } else {
      assert w[n..] == v[n..];
    }
  }

  /** 1100 groups of zero under the prefix "lnbc": changing the first one goes unnoticed. */
  lemma LongInvoiceUnnoticed()
    ensures var v := seq(1100, _ => 0); Accepts11("lnbc", v) && Accepts11("lnbc", v[0 := 1])
  {
    hide Expand, ChecksumOf, Zeros;
    var v := seq(1100, _ => 0);
    assert v[1094..] == seq(6, _ => 0) && v[0 := 1][1094..] == v[1094..];
    ExpandZeros(6, 5);
  }

  lemma TailsDiffer(v: seq<nat>, n: nat, i: nat, y: nat)
    requires Fits(v, 5) && n <= i < |v| && y < 32 && v[i := y][n..] != v[n..]
    ensures Expand(v[i := y][n..], 5) != Expand(v[n..], 5)
  {
    hide Expand;
    Pow2Const();
    if Expand(v[i := y][n..], 5) == Expand(v[n..], 5) { ExpandInjective(v[n..], v[i := y][n..], 5); }
  }

  // ----- the code -----

  /** bolt11_encode. */
  method EncodeTo(v: Invoice, sign: Signer, out: array<char>) returns (ok: bool)
    requires Valid(v)
    modifies out
    ensures ok <==> Encode(v, sign, out.Length).Some?
    ensures ok ==> var s := Encode(v, sign, out.Length).value; |s| < out.Length && out[..|s|] == s && out[|s|] == '\0'
  {
    hide Prefix, Data, Valid, SigGroups, Checksum11, Chars, Collect;
    var h := Prefix(v);
    var n, d := EncodeData(v);
    var signed := sign(h, d);
    assert n + SIG_GROUPS + 6 <= D5_BUFFER ==> d == Data(v);
    if n + SIG_GROUPS + 6 > D5_BUFFER { return false; }
    if signed.None? { return false; }
    var sig5 := SignatureGroups(signed.value);
    var body := d + sig5;
    GroupsAreSymbols(v, signed.value, h);
    var chk := Checksum(h, body, BECH32_CONST, CHECK_BUFFER);
    assert chk == Checksum11(h, body) by { ChecksumSame(h, body, chk); }
    var tail := Bech32m.SplitChecksum(chk);
    var g := body + tail;
    if out.Length < |h| + 1 + |g| + 1 { return false; }
    Bech32m.WriteText(h, g, out);
    ok := true;
  }

  lemma ChecksumSame(h: cstring, d: seq<nat>, r: word30)
    requires |h| * 2 + 1 + |d| + 6 <= CHECK_BUFFER ==> r == ChecksumOf(h, d, BECH32_CONST)
    requires |h| * 2 + 1 + |d| + 6 > CHECK_BUFFER ==> r == Zeros(30)
    ensures r == Checksum11(h, d)
  {
  }

  method SignatureGroups(s: Signature) returns (g: seq<nat>)
    ensures g == SigGroups(s)
  {
    hide To5;
    var sig5 := new nat[SIG_GROUPS](_ => 0);
    var n := BytesTo5Bit(s.compact + [s.recid], sig5);
    g := sig5[..n];
  }

  /** The data groups and their number; the number alone tells when they do not fit. */
  method EncodeData(v: Invoice) returns (n: nat, d: seq<nat>)
    requires Valid(v)
    ensures n + SIG_GROUPS + 6 > D5_BUFFER <==> |Data(v)| + SIG_GROUPS + 6 > D5_BUFFER
    ensures n + SIG_GROUPS + 6 <= D5_BUFFER ==> n == |Data(v)| && d == Data(v)
  {
    hide Repr, Expand, AllGroups, FieldsOf, Valid, Collect, Fits;
    var w := new Writer(D5_BUFFER);
    WriteData(w, v);
    ghost var g := Data(v);
    ExpandConcat(TimeGroups(v.timestamp), AllGroups(FieldsOf(v)), 5);
    ExpandCollect(Repr(v.timestamp, 35), 5);
    assert w.Written() == Clip(Expand(g, 5), D5_BUFFER);
    n := (w.off + 4) / 5;
    d := w.d5[..n];
    if |g| <= D5_BUFFER {
      assert w.off == 5 * |g| && n == |g|;
      DataFits(v);
      PrefixIs(w.d5[..], n, g);
    }
  }

  lemma PrefixIs(d5: seq<nat>, n: nat, g: seq<nat>)
    requires Fits(d5, 5) && Fits(g, 5) && n == |g| <= |d5| && Expand(d5, 5)[..5 * n] == Expand(g, 5)
    ensures d5[..n] == g
  {
    hide Expand;
    assert d5 == d5[..n] + d5[n..];
    ExpandConcat(d5[..n], d5[n..], 5);
    ExpandInjective(d5[..n], g, 5);
  }

  /** bolt11_decode. */
  method DecodeFrom(str: cstring, recover: Recoverer) returns (r: Option<Invoice>)
    ensures r == Decode(str, recover)
  {
    hide LastOne, LowerAll, Bech32m.SymbolsIn, Accepts11, DecodeBody, Symbols;
    var sep := Bech32m.FindSeparator(str);
    if sep < 4 { return None; }
    if sep >= 128 { return None; }
    var total := |str| - sep - 1;
    if total < 110 || total > D5_BUFFER { return None; }
    var symbols := Bech32m.ReadSymbols(str[sep + 1..]);
    if symbols.None? { return None; }
    r := CheckAndRead(LowerAll(str[..sep]), symbols.value, recover);
  }

  method CheckAndRead(h: cstring, g: seq<nat>, recover: Recoverer) returns (r: Option<Invoice>)
    requires |g| >= 6 && Symbols(g)
    ensures r == if Accepts11(h, g) then DecodeBody(h, g[..|g| - 6], recover) else None
  {
    hide Checksum11, DecodeBody, Expand, Symbols;
    var n := |g| - 6;
    var d := g[..n];
    var chk := Checksum(h, d, BECH32_CONST, CHECK_BUFFER);
    ChecksumSame(h, d, chk);
    if chk != Expand(g[n..], 5) { return None; }
    assert Fits(d, 5) by { Bech32m.SymbolsPrefix(g, n); }
    r := ReadBody(h, d, recover);
  }

  method ReadBody(hrp: string, d: seq<nat>, recover: Recoverer) returns (r: Option<Invoice>)
    requires Fits(d, 5)
    ensures r == DecodeBody(hrp, d, recover)
  {
    hide Hrp.Parse, ApplyAll, FieldsIn, Expand, Val, Fits, Bytes;
    var parsed := Hrp.ParseNetwork(hrp);
    if parsed.None? { return None; }
    var p := parsed.value;
    if |d| < 7 + SIG_GROUPS { return None; }
    var n := |d| - SIG_GROUPS;
    var body, sig5 := d[..n], d[n..];
    FitsSplit(d, n);
    var rd := new Reader(body);
    var t := rd.ReadBits(35);
    var start := Blank(p.network, if p.msat > 0 then Some(p.msat) else None, t % U32);
    assert Expand(body, 5)[0..35] == Expand(body, 5)[..35];
    var v := ReadFields(rd, start);
    PayeeLength(start, FieldsIn(body[7..]));
    var sig := ToBytes(sig5, 66);
    if |sig| < 65 { return None; }
    var key := recover(hrp, body, sig[..64], sig[64] as int % 2);
    if key.None? { return None; }
    r := Some(if v.payee[0] == 0 then v.(payee := key.value) else v);
  }

  lemma FitsSplit(d: seq<nat>, n: nat)
    requires Fits(d, 5) && n <= |d|
    ensures Fits(d[..n], 5) && Fits(d[n..], 5)
  {
  }
}
