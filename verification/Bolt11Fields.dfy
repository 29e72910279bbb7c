/**
The data part of a BOLT #11 invoice (src/bolt11.c:269-412, 481-596; BOLT #11, section
"Data Part"): a timestamp and tagged fields, in 5-bit groups.
*/
module Bolt11Fields {
  import opened Bits
  import opened Wrappers
  import opened Regroup

  const MAX_DESCRIPTION := 640
  const MAX_HINTS := 8
  const MAX_HOPS := 8
  const MAX_METADATA := 64
  const FIELD_BUFFER := 512
  const HOP_BYTES := 51
  const DEFAULT_EXPIRY := 3600
  const DEFAULT_CLTV := 18
  const POW15 := 0x8000
  const POW20 := 0x10_0000

  datatype Hop = Hop(pubkey: seq<byte>, scid: u64, feeBase: u32, feePpm: u32, cltv: u16)

  datatype Invoice = Invoice(
    network: string, amount: Option<u64>, timestamp: u32, expiry: u32,
    hash: seq<byte>, secret: Option<seq<byte>>, description: seq<byte>, descriptionHash: Option<seq<byte>>,
    payee: seq<byte>, hints: seq<seq<Hop>>, features: u16, cltv: int, metadata: Option<seq<byte>>)

  // ----- hops -----

  /** `n` bytes, most significant first. */
  function Be(v: nat, n: nat): (r: seq<byte>)
    ensures |r| == n
    decreases n
  {
    if n == 0 then [] else Be(v / 256, n - 1) + [v % 256]
  }

  function BeVal(b: seq<byte>): (v: nat) {
    if b == [] then 0 else BeVal(b[..|b| - 1]) * 256 + b[|b| - 1] as int
  }

  lemma {:induction false} BeValBe(v: nat, n: nat)
    requires v < Pow256(n)
    ensures BeVal(Be(v, n)) == v
    decreases n
  {
    if n > 0 {
      BeValBe(v / 256, n - 1);
      assert Be(v, n)[..n - 1] == Be(v / 256, n - 1);
    }
  }

  lemma {:induction false} BeValBound(b: seq<byte>)
    ensures BeVal(b) < Pow256(|b|)
    decreases |b|
  {
    if b != [] { BeValBound(b[..|b| - 1]); }
  }

  function HopBytes(h: Hop): (r: seq<byte>)
    ensures |r| == |h.pubkey| + 18
  {
    h.pubkey + Be(h.scid, 8) + Be(h.feeBase, 4) + Be(h.feePpm, 4) + Be(h.cltv, 2)
  }

  function HopOf(b: seq<byte>): (h: Hop)
    requires |b| == HOP_BYTES
    ensures |h.pubkey| == 33
  {
    BeValBound(b[33..41]);
    BeValBound(b[41..45]);
    BeValBound(b[45..49]);
    BeValBound(b[49..51]);
    Pow256Const();
    Hop(b[..33], BeVal(b[33..41]), BeVal(b[41..45]), BeVal(b[45..49]), BeVal(b[49..51]))
  }

  lemma HopBack(h: Hop)
    requires |h.pubkey| == 33
    ensures HopOf(HopBytes(h)) == h
  {
    hide Be, BeVal, Pow256;
    var b := HopBytes(h);
    assert b[..33] == h.pubkey && b[33..41] == Be(h.scid, 8) && b[41..45] == Be(h.feeBase, 4)
           && b[45..49] == Be(h.feePpm, 4) && b[49..51] == Be(h.cltv, 2);
    Pow256Const();
    BeValBe(h.scid, 8);
    BeValBe(h.feeBase, 4);
    BeValBe(h.feePpm, 4);
    BeValBe(h.cltv, 2);
  }

  function HintBytes(hint: seq<Hop>): (r: seq<byte>) {
    if hint == [] then [] else HintBytes(hint[..|hint| - 1]) + HopBytes(hint[|hint| - 1])
  }

  predicate GoodHint(hint: seq<Hop>) {
    |hint| <= MAX_HOPS && forall i | 0 <= i < |hint| :: |hint[i].pubkey| == 33
  }

  /** As many whole hops as there are, up to `max`. */
  function HopsIn(b: seq<byte>, max: nat): (r: seq<Hop>)
    decreases max
  {
    if max == 0 || |b| < HOP_BYTES then [] else [HopOf(b[..HOP_BYTES])] + HopsIn(b[HOP_BYTES..], max - 1)
  }

  lemma {:induction false} HintCons(h: Hop, hint: seq<Hop>)
    ensures HintBytes([h] + hint) == HopBytes(h) + HintBytes(hint)
    decreases |hint|
  {
    hide HopBytes;
    if hint == [] {
      assert [h] + hint == [h];
      assert HintBytes([h]) == HintBytes([]) + HopBytes(h);
    } else {
      var t := hint[..|hint| - 1];
      HintCons(h, t);
      assert ([h] + hint)[..|hint|] == [h] + t;
    }
  }

  lemma {:induction false} HopsBack(hint: seq<Hop>, max: nat)
    requires |hint| <= max && forall i | 0 <= i < |hint| :: |hint[i].pubkey| == 33
    ensures |HintBytes(hint)| == HOP_BYTES * |hint| && HopsIn(HintBytes(hint), max) == hint
    decreases |hint|
  {
    hide HopBytes, HopOf;
    if hint != [] {
      var t := hint[1..];
      assert hint == [hint[0]] + t;
      HintCons(hint[0], t);
      HopsBack(t, max - 1);
      HopBack(hint[0]);
      var b := HintBytes(hint);
      assert b[..HOP_BYTES] == HopBytes(hint[0]) && b[HOP_BYTES..] == HintBytes(t);
    }
  }

  // ----- fields as groups -----

  datatype Field = Field(tag: nat, data: seq<nat>)

  predicate GoodField(f: Field) {
    f.tag < 32 && |f.data| < 1024 && Fits(f.data, 5)
  }

  predicate GoodFields(fs: seq<Field>) {
    forall i | 0 <= i < |fs| :: GoodField(fs[i])
  }

  /** Tag, two groups of length, data. */
  function Groups(f: Field): (g: seq<nat>) {
    [f.tag, |f.data| / 32, |f.data| % 32] + f.data
  }

  function AllGroups(fs: seq<Field>): (g: seq<nat>) {
    if fs == [] then [] else AllGroups(fs[..|fs| - 1]) + Groups(fs[|fs| - 1])
  }

  /** The fields of a data part, up to the first that is cut short. */
  function FieldsIn(g: seq<nat>): (fs: seq<Field>)
    decreases |g|
  {
    if |g| < 3 || 3 + (g[1] * 32 + g[2]) > |g| then []
    else
      var n := g[1] * 32 + g[2];
      [Field(g[0], g[3..3 + n])] + FieldsIn(g[3 + n..])
  }

  lemma {:induction false} GroupsCons(f: Field, fs: seq<Field>)
    ensures AllGroups([f] + fs) == Groups(f) + AllGroups(fs)
    decreases |fs|
  {
    hide Groups;
    if fs == [] {
      assert [f] + fs == [f];
      assert AllGroups([f]) == AllGroups([]) + Groups(f);
    } else {
      var t := fs[..|fs| - 1];
      GroupsCons(f, t);
      assert ([f] + fs)[..|fs|] == [f] + t;
    }
  }

  /** Reading the fields back, for every list of fields. */
  lemma {:induction false} FieldsBack(fs: seq<Field>)
    requires GoodFields(fs)
    ensures FieldsIn(AllGroups(fs)) == fs
    decreases |fs|
  {
    if fs != [] {
      var t := fs[1..];
      assert fs == [fs[0]] + t;
      GroupsCons(fs[0], t);
      FieldsBack(t);
      FirstField(fs[0], AllGroups(t));
    }
  }

  lemma FirstField(f: Field, rest: seq<nat>)
    requires GoodField(f)
    ensures FieldsIn(Groups(f) + rest) == [f] + FieldsIn(rest)
  {
    var g := Groups(f) + rest;
    var n := |f.data|;
    assert g[1] * 32 + g[2] == n;
    assert g[3..3 + n] == f.data && g[3 + n..] == rest;
  }

  // ----- what each field does -----

  /** fivebit_to_bytes into a buffer of `cap` bytes; empty when refused. */
  function Bytes(data: seq<nat>, cap: nat): (b: seq<byte>) {
    var r := From5(data);
    if r.Some? && |r.value| <= cap then r.value else []
  }

  /** The groups as one number. */
  function NumberOf(data: seq<nat>): (n: nat) {
    if data == [] then 0 else NumberOf(data[..|data| - 1]) * 32 + data[|data| - 1]
  }

  function UpToNul(b: seq<byte>): (r: seq<byte>) {
    if b == [] || b[0] == 0 then [] else [b[0]] + UpToNul(b[1..])
  }

  /** A 32-bit pattern as a signed number. */
  function Signed(n: nat): (r: int) {
    var m := n % U32;
    if m < 0x8000_0000 then m else m - U32
  }

  function Apply(v: Invoice, f: Field): (r: Invoice) {
    var n := |f.data|;
    if n > FIELD_BUFFER then v
    else if f.tag == 1 then (if n == 52 && |Bytes(f.data, 32)| == 32 then v.(hash := Bytes(f.data, 32)) else v)
    else if f.tag == 4 then v.(expiry := NumberOf(f.data) % U32)
    else if f.tag == 5 then (if n == 52 && |Bytes(f.data, 32)| == 32 then v.(descriptionHash := Some(Bytes(f.data, 32))) else v)
    else if f.tag == 6 then v.(cltv := Signed(NumberOf(f.data)))
    else if f.tag == 13 then
      (var d := Bytes(f.data, MAX_DESCRIPTION - 1); if d != [] then v.(description := UpToNul(d)) else v)
    else if f.tag == 16 then (if n == 52 && |Bytes(f.data, 32)| == 32 then v.(secret := Some(Bytes(f.data, 32))) else v)
    else if f.tag == 19 then (if n == 53 && |Bytes(f.data, 33)| == 33 then v.(payee := Bytes(f.data, 33)) else v)
    else if f.tag == 20 then (if n <= 4 then v.(features := NumberOf(f.data) % U16) else v)
    else if f.tag == 27 then
      (var m := Bytes(f.data, MAX_METADATA); if m != [] then v.(metadata := Some(m)) else v)
    else if f.tag == 3 then
      (if |v.hints| >= MAX_HINTS then v else v.(hints := v.hints + [HopsIn(Bytes(f.data, 512), MAX_HOPS)]))
    else v
  }

  function ApplyAll(v: Invoice, fs: seq<Field>): (r: Invoice)
    decreases |fs|
  {
    if fs == [] then v else ApplyAll(Apply(v, fs[0]), fs[1..])
  }

  lemma {:induction false} ApplyConcat(v: Invoice, a: seq<Field>, b: seq<Field>)
    ensures ApplyAll(v, a + b) == ApplyAll(ApplyAll(v, a), b)
    decreases |a|
  {
    hide Apply;
    if a == [] {
      assert a + b == b;
    } else {
      assert (a + b)[1..] == a[1..] + b;
      ApplyConcat(Apply(v, a[0]), a[1..], b);
    }
  }

  // ----- the fields of an invoice -----

  /** What the C type of an invoice holds. */
  predicate Valid(v: Invoice) {
    && |v.network| <= 7 && (forall i | 0 <= i < |v.network| :: 0 < v.network[i] as int < 256)
    && |v.hash| == 32 && |v.payee| == 33
    && (v.secret.Some? ==> |v.secret.value| == 32)
    && (v.descriptionHash.Some? ==> |v.descriptionHash.value| == 32)
    && |v.description| < MAX_DESCRIPTION && (forall i | 0 <= i < |v.description| :: v.description[i] != 0)
    && (v.metadata.Some? ==> |v.metadata.value| <= MAX_METADATA)
    && |v.hints| <= MAX_HINTS && (forall i | 0 <= i < |v.hints| :: GoodHint(v.hints[i]))
    && -0x8000_0000 <= v.cltv < 0x8000_0000
  }

  /** A blob that does not fit the group buffer is dropped. */
  function Fitting(b: seq<byte>, cap: nat): (d: seq<nat>)
    ensures |d| <= cap && Fits(d, 5)
  {
    if |To5(b)| <= cap then To5(b) else []
  }

  function Low5(x: int): (g: nat)
    ensures g < 32
  {
    x % 32
  }

  function ExpiryGroups(e: u32): (d: seq<nat>) {
    if e < 32 then [Low5(e)]
    else if e < 1024 then [Low5(e / 32), Low5(e)]
    else if e < POW15 then [Low5(e / 1024), Low5(e / 32), Low5(e)]
    else [Low5(e / POW15), Low5(e / 1024), Low5(e / 32), Low5(e)]
  }

  function CltvGroups(c: int): (d: seq<nat>) {
    if c < 32 then [Low5(c)]
    else if c < 1024 then [Low5(c / 32), Low5(c)]
    else [Low5(c / 1024), Low5(c / 32), Low5(c)]
  }

  function When(b: bool, tag: nat, data: seq<nat>): (fs: seq<Field>) {
    if b then [Field(tag, data)] else []
  }

  function HintFields(hints: seq<seq<Hop>>): (fs: seq<Field>) {
    if hints == [] then []
    else
      var n := |hints| - 1;
      HintFields(hints[..n]) + When(hints[n] != [], 3, Fitting(HintBytes(hints[n]), FIELD_BUFFER))
  }

  function OfMetadata(v: Invoice): (fs: seq<Field>) {
    var d := if v.metadata.Some? then Fitting(v.metadata.value, 128) else [];
    When(v.metadata.Some? && v.metadata.value != [] && d != [], 27, d)
  }

  function OfDescription(v: Invoice): (fs: seq<Field>) {
    var d := Fitting(v.description, FIELD_BUFFER);
    When(v.description != [] && v.descriptionHash.None? && d != [], 13, d)
  }

  function OfBlob(tag: nat, blob: Option<seq<byte>>): (fs: seq<Field>) {
    if blob.Some? then [Field(tag, To5(blob.value))] else []
  }

  function BlobFields(v: Invoice): (fs: seq<Field>) {
    [Field(1, To5(v.hash))] + OfBlob(16, v.secret) + OfMetadata(v) + OfDescription(v) + OfBlob(5, v.descriptionHash)
  }

  function OtherFields(v: Invoice): (fs: seq<Field>)
    requires Valid(v)
  {
    When(v.expiry != DEFAULT_EXPIRY, 4, ExpiryGroups(v.expiry))
    + When(v.cltv != DEFAULT_CLTV, 6, CltvGroups(v.cltv))
    + When(v.payee[0] != 0, 19, To5(v.payee))
    + HintFields(v.hints)
  }

  function FieldsOf(v: Invoice): (fs: seq<Field>)
    requires Valid(v)
  {
    BlobFields(v) + OtherFields(v)
  }

  // ----- and what is read back of them -----

  /** The hints that survive: none empty, and those too long come back empty. */
  function HintsBack(hints: seq<seq<Hop>>): (r: seq<seq<Hop>>)
    ensures |r| <= |hints|
  {
    if hints == [] then []
    else
      var n := |hints| - 1;
      HintsBack(hints[..n]) + HintBack(hints[n])
  }

  function HintBack(h: seq<Hop>): (r: seq<seq<Hop>>)
    ensures |r| <= 1 && (r == [h] <==> 1 <= |h| <= 6)
  {
    if h == [] then [] else if |h| > 6 then [[]] else [h]
  }

  function CltvBack(c: int): (r: int) {
    if c < 32 then c % 32 else if c < 1024 then c else c % POW15
  }

  /** The decoder's defaults. */
  function Blank(network: string, amount: Option<u64>, timestamp: u32): (v: Invoice) {
    Invoice(network, amount, timestamp, DEFAULT_EXPIRY, seq(32, _ => 0), None, [], None, seq(33, _ => 0), [], 0, DEFAULT_CLTV, None)
  }

  /** What decoding the encoded fields of `v` yields. */
  function Recovered(v: Invoice, amount: Option<u64>): (r: Invoice)
    requires Valid(v)
  {
    Invoice(v.network, amount, v.timestamp, v.expiry % POW20,
            v.hash, v.secret, if v.descriptionHash.Some? || |v.description| > 320 then [] else v.description,
            v.descriptionHash, if v.payee[0] != 0 then v.payee else seq(33, _ => 0),
            HintsBack(v.hints), 0, CltvBack(v.cltv), if v.metadata == Some([]) then None else v.metadata)
  }

  lemma BytesTo5(b: seq<byte>, cap: nat)
    requires |b| <= cap
    ensures Bytes(To5(b), cap) == b
  {
    hide To5, From5;
    To5From5(b);
  }

  lemma ApplyHash(v: Invoice, b: seq<byte>)
    requires |b| == 32
    ensures Apply(v, Field(1, To5(b))) == v.(hash := b)
    ensures Apply(v, Field(5, To5(b))) == v.(descriptionHash := Some(b))
    ensures Apply(v, Field(16, To5(b))) == v.(secret := Some(b))
  {
    hide To5, Bytes;
    BytesTo5(b, 32);
  }

  lemma ApplyPayee(v: Invoice, b: seq<byte>)
    requires |b| == 33
    ensures Apply(v, Field(19, To5(b))) == v.(payee := b)
  {
    hide To5, Bytes;
    BytesTo5(b, 33);
  }

  lemma {:induction false} NoNul(b: seq<byte>)
    requires forall i | 0 <= i < |b| :: b[i] != 0
    ensures UpToNul(b) == b
    decreases |b|
  {
    if b != [] {
      NoNul(b[1..]);
      assert b == [b[0]] + b[1..];
    }
  }

  lemma ApplyDescription(v: Invoice, b: seq<byte>)
    requires b != [] && |b| <= 320 && forall i | 0 <= i < |b| :: b[i] != 0
    ensures Apply(v, Field(13, To5(b))) == v.(description := b)
  {
    hide To5, Bytes, UpToNul;
    BytesTo5(b, MAX_DESCRIPTION - 1);
    NoNul(b);
  }

  lemma ApplyMetadata(v: Invoice, b: seq<byte>)
    requires b != [] && |b| <= MAX_METADATA
    ensures Apply(v, Field(27, To5(b))) == v.(metadata := Some(b))
  {
    hide To5, Bytes;
    BytesTo5(b, MAX_METADATA);
  }

  lemma NumberOne(a: nat)
    ensures NumberOf([a]) == a
  {
    assert [a][..0] == [];
    assert NumberOf([]) == 0;
  }

  lemma NumberSnoc(d: seq<nat>, x: nat)
    ensures NumberOf(d + [x]) == NumberOf(d) * 32 + x
  {
    assert (d + [x])[..|d|] == d;
  }

  lemma NumberFour(a: nat, b: nat, c: nat, d: nat)
    ensures NumberOf([a, b]) == a * 32 + b
    ensures NumberOf([a, b, c]) == a * 1024 + b * 32 + c
    ensures NumberOf([a, b, c, d]) == a * 32768 + b * 1024 + c * 32 + d
  {
    hide NumberOf;
    NumberOne(a);
    NumberSnoc([a], b);
    NumberSnoc([a, b], c);
    NumberSnoc([a, b, c], d);
    assert [a] + [b] == [a, b] && [a, b] + [c] == [a, b, c] && [a, b, c] + [d] == [a, b, c, d];
  }

  lemma Split5(x: nat)
    ensures x % 1024 == x / 32 % 32 * 32 + x % 32
    ensures x % POW15 == x / 1024 % 32 * 1024 + x / 32 % 32 * 32 + x % 32
    ensures x % POW20 == x / POW15 % 32 * POW15 + x / 1024 % 32 * 1024 + x / 32 % 32 * 32 + x % 32
  {
    var a, r := x / 32, x % 32;
    var b, s := a / 32, a % 32;
    var c, t := b / 32, b % 32;
    var d, u := c / 32, c % 32;
    DivUnique(x, 1024, b, s * 32 + r);
    DivUnique(x, POW15, c, t * 1024 + s * 32 + r);
    DivUnique(x, POW20, d, u * POW15 + t * 1024 + s * 32 + r);
  }

  lemma ExpiryBack(e: u32)
    ensures NumberOf(ExpiryGroups(e)) == e % POW20
  {
    hide NumberOf;
    Split5(e);
    NumberOne(Low5(e));
    NumberFour(Low5(e / 32), Low5(e), 0, 0);
    NumberFour(Low5(e / 1024), Low5(e / 32), Low5(e), 0);
    NumberFour(Low5(e / POW15), Low5(e / 1024), Low5(e / 32), Low5(e));
  }

  lemma CltvNumber(c: int)
    ensures NumberOf(CltvGroups(c)) == CltvBack(c)
  {
    hide NumberOf;
    if c < 32 {
      NumberOne(Low5(c));
    } else {
      Split5(c);
      NumberFour(Low5(c / 32), Low5(c), 0, 0);
      NumberFour(Low5(c / 1024), Low5(c / 32), Low5(c), 0);
      DivSmall(c % 1024, 1024);
    }
  }

  lemma ApplyOne(v: Invoice, b: bool, tag: nat, data: seq<nat>)
    ensures ApplyAll(v, When(b, tag, data)) == if b then Apply(v, Field(tag, data)) else v
    ensures ApplyAll(v, [Field(tag, data)]) == Apply(v, Field(tag, data))
  {
    hide Apply;
    assert [Field(tag, data)][1..] == [];
  }

  lemma StepBlob(v: Invoice, blob: Option<seq<byte>>)
    requires blob.Some? ==> |blob.value| == 32
    ensures v.secret == None ==> ApplyAll(v, OfBlob(16, blob)) == v.(secret := blob)
    ensures v.descriptionHash == None ==> ApplyAll(v, OfBlob(5, blob)) == v.(descriptionHash := blob)
  {
    hide Apply, To5;
    if blob.Some? {
      ApplyOne(v, true, 16, To5(blob.value));
      ApplyOne(v, true, 5, To5(blob.value));
      ApplyHash(v, blob.value);
    }
  }

  lemma StepMetadata(v: Invoice, x: Invoice)
    requires Valid(x) && v.metadata == None
    ensures ApplyAll(v, OfMetadata(x)) == v.(metadata := if x.metadata == Some([]) then None else x.metadata)
  {
    hide Apply, To5, When, ApplyAll;
    var d := if x.metadata.Some? then Fitting(x.metadata.value, 128) else [];
    ApplyOne(v, x.metadata.Some? && x.metadata.value != [] && d != [], 27, d);
    if x.metadata.Some? && x.metadata.value != [] {
      ApplyMetadata(v, x.metadata.value);
    }
  }

  lemma StepDescription(v: Invoice, x: Invoice)
    requires Valid(x) && v.description == []
    ensures ApplyAll(v, OfDescription(x)) ==
            v.(description := if x.descriptionHash.Some? || |x.description| > 320 then [] else x.description)
  {
    hide Apply, To5, When, ApplyAll;
    var b := x.description;
    var d := Fitting(b, FIELD_BUFFER);
    ApplyOne(v, b != [] && x.descriptionHash.None? && d != [], 13, d);
    if b != [] && x.descriptionHash.None? && d != [] {
      ApplyDescription(v, b);
    }
  }

  lemma StepExpiry(v: Invoice, x: Invoice)
    requires Valid(x) && v.expiry == DEFAULT_EXPIRY
    ensures ApplyAll(v, When(x.expiry != DEFAULT_EXPIRY, 4, ExpiryGroups(x.expiry))) == v.(expiry := x.expiry % POW20)
  {
    hide When, ApplyAll, NumberOf;
    ApplyOne(v, x.expiry != DEFAULT_EXPIRY, 4, ExpiryGroups(x.expiry));
    ExpiryBack(x.expiry);
  }

  lemma StepCltv(v: Invoice, x: Invoice)
    requires Valid(x) && v.cltv == DEFAULT_CLTV
    ensures ApplyAll(v, When(x.cltv != DEFAULT_CLTV, 6, CltvGroups(x.cltv))) == v.(cltv := CltvBack(x.cltv))
  {
    hide When, ApplyAll, NumberOf;
    ApplyOne(v, x.cltv != DEFAULT_CLTV, 6, CltvGroups(x.cltv));
    CltvNumber(x.cltv);
  }

  lemma ApplyHint(v: Invoice, hint: seq<Hop>)
    requires |v.hints| < MAX_HINTS && hint != [] && GoodHint(hint)
    ensures Apply(v, Field(3, Fitting(HintBytes(hint), FIELD_BUFFER))) ==
            v.(hints := v.hints + [if |hint| > 6 then [] else hint])
  {
    hide To5, Bytes, HopsIn, HintBytes, Apply;
    HopsBack(hint, MAX_HOPS);
    var b := HintBytes(hint);
    ApplyRoute(v, Fitting(b, FIELD_BUFFER));
    if |hint| <= 6 {
      BytesTo5(b, 512);
    } else {
      assert Fitting(b, FIELD_BUFFER) == [];
      NoHops();
    }
  }

  lemma ApplyRoute(v: Invoice, data: seq<nat>)
    requires |v.hints| < MAX_HINTS && |data| <= FIELD_BUFFER
    ensures Apply(v, Field(3, data)) == v.(hints := v.hints + [HopsIn(Bytes(data, 512), MAX_HOPS)])
  {
    hide Bytes, HopsIn;
  }

  lemma NoHops()
    ensures HopsIn(Bytes([], 512), MAX_HOPS) == []
  {
    assert |Bytes([], 512)| == 0;
  }

  lemma {:induction false} StepHints(v: Invoice, hints: seq<seq<Hop>>)
    requires v.hints == [] && |hints| <= MAX_HINTS && forall i | 0 <= i < |hints| :: GoodHint(hints[i])
    ensures ApplyAll(v, HintFields(hints)) == v.(hints := HintsBack(hints))
    decreases |hints|
  {
    hide Apply, Fitting, HintBytes, GoodHint, When;
    if hints != [] {
      var n := |hints| - 1;
      var last, d := hints[n], Fitting(HintBytes(hints[n]), FIELD_BUFFER);
      StepHints(v, hints[..n]);
      ApplyConcat(v, HintFields(hints[..n]), When(last != [], 3, d));
      var w := ApplyAll(v, HintFields(hints[..n]));
      ApplyOne(w, last != [], 3, d);
      if last != [] { ApplyHint(w, last); }
    }
  }

  lemma BlobsRecovered(s: Invoice, v: Invoice)
    requires Valid(v) && s.secret == None && s.metadata == None && s.description == [] && s.descriptionHash == None
    ensures ApplyAll(s, BlobFields(v)) ==
            s.(hash := v.hash, secret := v.secret, metadata := if v.metadata == Some([]) then None else v.metadata,
               description := if v.descriptionHash.Some? || |v.description| > 320 then [] else v.description,
               descriptionHash := v.descriptionHash)
  {
    hide Apply, ApplyAll, To5, OfBlob, OfMetadata, OfDescription, GoodHint;
    var a := [Field(1, To5(v.hash))];
    var b := a + OfBlob(16, v.secret);
    var c := b + OfMetadata(v);
    var d := c + OfDescription(v);
    ApplyOne(s, true, 1, To5(v.hash));
    ApplyHash(s, v.hash);
    ApplyConcat(s, a, OfBlob(16, v.secret));
    StepBlob(ApplyAll(s, a), v.secret);
    ApplyConcat(s, b, OfMetadata(v));
    StepMetadata(ApplyAll(s, b), v);
    ApplyConcat(s, c, OfDescription(v));
    StepDescription(ApplyAll(s, c), v);
    ApplyConcat(s, d, OfBlob(5, v.descriptionHash));
    StepBlob(ApplyAll(s, d), v.descriptionHash);
  }

  lemma OthersRecovered(s: Invoice, v: Invoice)
    requires Valid(v) && s.expiry == DEFAULT_EXPIRY && s.cltv == DEFAULT_CLTV && s.hints == []
    ensures ApplyAll(s, OtherFields(v)) ==
            s.(expiry := v.expiry % POW20, cltv := CltvBack(v.cltv), payee := if v.payee[0] != 0 then v.payee else s.payee,
               hints := HintsBack(v.hints))
  {
    hide Apply, ApplyAll, To5, HintFields, When, ExpiryGroups, CltvGroups, CltvBack, HintsBack, GoodHint;
    var a := When(v.expiry != DEFAULT_EXPIRY, 4, ExpiryGroups(v.expiry));
    var b := a + When(v.cltv != DEFAULT_CLTV, 6, CltvGroups(v.cltv));
    var c := b + When(v.payee[0] != 0, 19, To5(v.payee));
    StepExpiry(s, v);
    ApplyConcat(s, a, When(v.cltv != DEFAULT_CLTV, 6, CltvGroups(v.cltv)));
    StepCltv(ApplyAll(s, a), v);
    ApplyConcat(s, b, When(v.payee[0] != 0, 19, To5(v.payee)));
    ApplyOne(ApplyAll(s, b), v.payee[0] != 0, 19, To5(v.payee));
    ApplyPayee(ApplyAll(s, b), v.payee);
    ApplyConcat(s, c, HintFields(v.hints));
    StepHints(ApplyAll(s, c), v.hints);
  }

  /** Every field of an encoded invoice, read back. */
  lemma FieldsRecovered(v: Invoice, amount: Option<u64>)
    requires Valid(v)
    ensures ApplyAll(Blank(v.network, amount, v.timestamp), FieldsOf(v)) == Recovered(v, amount)
  {
    hide ApplyAll, BlobFields, OtherFields, CltvBack, HintsBack, GoodHint;
    var s := Blank(v.network, amount, v.timestamp);
    ApplyConcat(s, BlobFields(v), OtherFields(v));
    BlobsRecovered(s, v);
    OthersRecovered(ApplyAll(s, BlobFields(v)), v);
  }

  lemma {:induction false} HintFieldsGood(hints: seq<seq<Hop>>)
    ensures GoodFields(HintFields(hints))
    decreases |hints|
  {
    hide HintBytes, Fitting, Fits;
    if hints != [] { HintFieldsGood(hints[..|hints| - 1]); }
  }

  lemma BlobsGood(v: Invoice)
    requires Valid(v)
    ensures GoodFields(BlobFields(v))
  {
    hide To5, Fits, GoodHint;
  }

  lemma OthersGood(v: Invoice)
    requires Valid(v)
    ensures GoodFields(OtherFields(v))
  {
    hide To5, HintFields, GoodHint, Low5;
    HintFieldsGood(v.hints);
    NumbersFit(v);
    hide Fits, ExpiryGroups, CltvGroups;
  }

  lemma NumbersFit(v: Invoice)
    ensures Fits(ExpiryGroups(v.expiry), 5) && |ExpiryGroups(v.expiry)| <= 4
    ensures Fits(CltvGroups(v.cltv), 5) && |CltvGroups(v.cltv)| <= 3
  {
    hide Low5, Pow2;
    Pow2Const();
    var e, c := ExpiryGroups(v.expiry), CltvGroups(v.cltv);
    assert forall i | 0 <= i < |e| :: e[i] < 32;
    assert forall i | 0 <= i < |c| :: c[i] < 32;
  }

  /** Every field the encoder writes has a 5-bit tag, a 10-bit length and 5-bit groups. */
  lemma FieldsGood(v: Invoice)
    requires Valid(v)
    ensures GoodFields(FieldsOf(v))
  {
    hide BlobFields, OtherFields;
    BlobsGood(v);
    OthersGood(v);
  }

  // ----- exactly what survives -----

  predicate InRange(v: Invoice)
    requires Valid(v)
  {
    && v.expiry < POW20 && 0 <= v.cltv < POW15
    && (v.descriptionHash.Some? ==> v.description == []) && |v.description| <= 320
    && v.metadata != Some([]) && v.features == 0
    && (forall i | 0 <= i < |v.hints| :: 1 <= |v.hints[i]| <= 6)
  }

  /** An expiry of 2^20 seconds comes back as 0. */
  lemma ExpiryLost(v: Invoice)
    requires Valid(v)
    ensures Recovered(v.(expiry := POW20), v.amount).expiry == 0
  {
    hide HintsBack, GoodHint;
  }

  /** A final CLTV of 2^15 blocks comes back as 0, and one of -1 as 31. */
  lemma CltvLost(v: Invoice)
    requires Valid(v)
    ensures Recovered(v.(cltv := POW15), v.amount).cltv == 0
    ensures Recovered(v.(cltv := -1), v.amount).cltv == 31
  {
    hide HintsBack, GoodHint;
  }

  /** An empty hint is lost, and one of seven hops comes back empty. */
  lemma HintsLost(h: Hop)
    requires |h.pubkey| == 33
    ensures HintsBack([[]]) == [] && HintsBack([seq(7, _ => h)]) == [[]]
  {
    var none: seq<seq<Hop>>, seven: seq<seq<Hop>> := [[]], [seq(7, _ => h)];
    assert none[..0] == [] && seven[..0] == [];
    assert HintsBack([]) == [];
  }

  lemma {:induction false} HintsExactly(hints: seq<seq<Hop>>)
    ensures HintsBack(hints) == hints <==> forall i | 0 <= i < |hints| :: 1 <= |hints[i]| <= 6
    decreases |hints|
  {
    if hints != [] {
      hide HintsBack;
      var n := |hints| - 1;
      var init := hints[..n];
      assert hints == init + [hints[n]];
      HintsExactly(init);
      HintsJoin(init, hints[n]);
      JoinsAgree(HintsBack(init), HintBack(hints[n]), init, hints[n]);
    }
  }

  lemma HintsJoin(init: seq<seq<Hop>>, x: seq<Hop>)
    ensures HintsBack(init + [x]) == HintsBack(init) + HintBack(x)
  {
    assert (init + [x])[..|init|] == init;
  }

  lemma JoinsAgree<T>(a: seq<T>, b: seq<T>, c: seq<T>, x: T)
    requires |a| <= |c| && |b| <= 1
    ensures a + b == c + [x] <==> a == c && b == [x]
  {
    var l, r := a + b, c + [x];
    if l == r {
      assert |a| == |c| && a == l[..|a|] && c == r[..|c|] && b == l[|a|..] && [x] == r[|c|..];
    }
  }

  /** Payee and amount aside, an invoice comes back unchanged exactly when every part of it is in range. */
  lemma RecoveredExactly(v: Invoice)
    requires Valid(v)
    ensures Recovered(v, v.amount).(payee := v.payee) == v <==> InRange(v)
  {
    hide HintsBack;
    HintsExactly(v.hints);
  }

  // ----- tags -----

  lemma {:induction false} NumberIsDigits(d: seq<nat>)
    ensures NumberOf(d) == Digits(d, 32)
  {
    if d != [] { NumberIsDigits(d[..|d| - 1]); }
  }

  lemma ShortDigits(d: seq<nat>)
    ensures |d| == 1 ==> Digits(d, 32) == d[0]
    ensures |d| == 2 ==> Digits(d, 32) == d[0] * 32 + d[1]
    ensures |d| == 3 ==> Digits(d, 32) == d[0] * 1024 + d[1] * 32 + d[2]
    ensures |d| == 4 ==> Digits(d, 32) == d[0] * 32768 + d[1] * 1024 + d[2] * 32 + d[3]
  {
    if 1 <= |d| <= 4 {
      var c := d[..|d| - 1];
      ShortDigits(c);
      assert |d| > 1 ==> c[0] == d[0];
      assert Digits([], 32) == 0;
    }
  }

  /** The feature bits: up to four groups, cut to 16 bits; more are ignored. */
  lemma FeaturesRead(v: Invoice, d: seq<nat>)
    ensures |d| > 4 || d == [] ==> Apply(v, Field(20, d)) == if d == [] then v.(features := 0) else v
    ensures |d| == 1 ==> Apply(v, Field(20, d)) == v.(features := d[0] % 65536)
    ensures |d| == 2 ==> Apply(v, Field(20, d)) == v.(features := (d[0] * 32 + d[1]) % 65536)
    ensures |d| == 3 ==> Apply(v, Field(20, d)) == v.(features := (d[0] * 1024 + d[1] * 32 + d[2]) % 65536)
    ensures |d| == 4 ==> Apply(v, Field(20, d)) == v.(features := (d[0] * 32768 + d[1] * 1024 + d[2] * 32 + d[3]) % 65536)
  {
    hide Digits;
    NumberIsDigits(d);
    ShortDigits(d);
  }

  /** The tags that carry numbers and fixed-size blobs, and what each of them sets. */
  lemma TagsRead(v: Invoice, d: seq<nat>)
    ensures |d| <= 512 ==> Apply(v, Field(4, d)) == v.(expiry := Digits(d, 32) % U32)
    ensures |d| <= 512 && Digits(d, 32) < 0x8000_0000 ==> Apply(v, Field(6, d)) == v.(cltv := Digits(d, 32))
    ensures |d| == 52 && From5(d).Some? ==>
              && Apply(v, Field(1, d)) == v.(hash := From5(d).value)
              && Apply(v, Field(5, d)) == v.(descriptionHash := Some(From5(d).value))
              && Apply(v, Field(16, d)) == v.(secret := Some(From5(d).value))
    ensures |d| == 53 && From5(d).Some? ==> Apply(v, Field(19, d)) == v.(payee := From5(d).value)
  {
    hide From5, HopsIn, UpToNul, Digits, NumberOf;
    NumberIsDigits(d);
  }

  /** Every other tag is skipped. */
  lemma OtherTagsSkipped(v: Invoice, tag: nat, d: seq<nat>)
    requires tag !in {1, 3, 4, 5, 6, 13, 16, 19, 20, 27} || |d| > 512
    ensures Apply(v, Field(tag, d)) == v
  {
  }

  /**
  BOLT #11 gives the expiry tag 6, the final CLTV 24, the description hash 23 and the
  features 5.  Written so by another node, the expiry is taken for the CLTV and the rest is lost.
  */
  lemma StandardTags(v: Invoice, d: seq<nat>)
    ensures Apply(v, Field(24, d)) == v && Apply(v, Field(23, d)) == v && (|d| != 52 ==> Apply(v, Field(5, d)) == v)
    ensures |d| <= 512 && Digits(d, 32) < 0x8000_0000 ==> Apply(v, Field(6, d)) == v.(cltv := Digits(d, 32))
  {
    hide From5, HopsIn, UpToNul, Digits, NumberOf;
    NumberIsDigits(d);
  }

  lemma {:induction false} BeDigits(v: nat, n: nat)
    requires v < Pow256(n)
    ensures Digits(Be(v, n), 256) == v
    decreases n
  {
    if n > 0 {
      BeDigits(v / 256, n - 1);
      var r: seq<nat> := Be(v, n);
      assert r[..n - 1] == Be(v / 256, n - 1);
    }
  }

  /** The 51 bytes of a hop: its key, then short channel id, base fee, rate and CLTV delta, high bytes first. */
  lemma HopLayout(h: Hop)
    requires |h.pubkey| == 33
    ensures var b := HopBytes(h);
            && |b| == 51 && b[..33] == h.pubkey
            && Digits(b[33..41], 256) == h.scid && Digits(b[41..45], 256) == h.feeBase
            && Digits(b[45..49], 256) == h.feePpm && Digits(b[49..51], 256) == h.cltv
  {
    hide Be, Digits, Pow256;
    var b := HopBytes(h);
    assert b[..33] == h.pubkey && b[33..41] == Be(h.scid, 8) && b[41..45] == Be(h.feeBase, 4)
           && b[45..49] == Be(h.feePpm, 4) && b[49..51] == Be(h.cltv, 2);
    Pow256Const();
    BeDigits(h.scid, 8);
    BeDigits(h.feeBase, 4);
    BeDigits(h.feePpm, 4);
    BeDigits(h.cltv, 2);
  }

  lemma {:induction false} CutAtNul(b: seq<byte>, k: nat)
    requires k <= |b| && (forall i | 0 <= i < k :: b[i] != 0) && (k < |b| ==> b[k] == 0)
    ensures UpToNul(b) == b[..k]
    decreases |b|
  {
    if k > 0 {
      CutAtNul(b[1..], k - 1);
      assert b[..k] == [b[0]] + b[1..][..k - 1];
    }
  }

  /** A description is a C string: it ends at its first zero byte. */
  lemma DescriptionRead(v: Invoice, b: seq<byte>, k: nat)
    requires |b| <= 320 && b != [] && k <= |b| && (forall i | 0 <= i < k :: b[i] != 0) && (k < |b| ==> b[k] == 0)
    ensures Apply(v, Field(13, To5(b))) == v.(description := b[..k])
  {
    hide To5, Bytes, UpToNul;
    BytesTo5(b, 639);
    CutAtNul(b, k);
  }

  /** Metadata of up to 64 bytes is taken, longer metadata is not. */
  lemma MetadataExactly(v: Invoice, b: seq<byte>)
    requires b != [] && |b| <= 320
    ensures Apply(v, Field(27, To5(b))) == if |b| <= 64 then v.(metadata := Some(b)) else v
  {
    hide To5, From5;
    To5From5(b);
  }

  /** A route hint is appended while there are fewer than eight. */
  lemma HintRead(v: Invoice, hint: seq<Hop>)
    requires |hint| <= 6 && forall i | 0 <= i < |hint| :: |hint[i].pubkey| == 33
    ensures Apply(v, Field(3, To5(HintBytes(hint)))) == if |v.hints| < 8 then v.(hints := v.hints + [hint]) else v
  {
    hide To5, Bytes, HintBytes, HopsIn;
    HopsBack(hint, 8);
    BytesTo5(HintBytes(hint), 512);
  }

  lemma {:induction false} HintTags(fs: seq<Field>, hints: seq<seq<Hop>>, k: nat)
    requires fs == HintFields(hints) && k < |fs|
    ensures fs[k].tag == 3
    decreases |hints|
  {
    hide Fitting, HintBytes;
    var n := |hints| - 1;
    var init := HintFields(hints[..n]);
    if k < |init| { HintTags(init, hints[..n], k); }
  }

  /** An hour of expiry and a final CLTV of 18 blocks are what an invoice without those fields means, and they are not written. */
  lemma DefaultsSilent(v: Invoice, k: nat)
    requires Valid(v) && k < |OtherFields(v)|
    ensures v.expiry == 3600 ==> OtherFields(v)[k].tag != 4
    ensures v.cltv == 18 ==> OtherFields(v)[k].tag != 6
    ensures Blank(v.network, v.amount, v.timestamp).expiry == 3600 && Blank(v.network, v.amount, v.timestamp).cltv == 18
  {
    hide ExpiryGroups, CltvGroups, To5, HintFields, GoodHint;
    var h := HintFields(v.hints);
    var m := |OtherFields(v)| - |h|;
    if k >= m { HintTags(h, v.hints, k - m); }
  }
}
