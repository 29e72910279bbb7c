/**
The leaf scripts of src/tapscript.c, and when Bitcoin lets each of them be spent: script
numbers, the opcodes they use, and the lock rules of BIP 65, BIP 68 and BIP 112.
*/
module Tapscript {
  import opened Bits
  import opened Wrappers
  import opened Channel

  // ----- script numbers -----

  /** The bytes of a number, least significant first. */
  function Little(v: nat): (b: seq<byte>) {
    if v == 0 then [] else [v % 256] + Little(v / 256)
  }

  function LittleOf(b: seq<byte>): (v: nat) {
    if b == [] then 0 else b[0] + 256 * LittleOf(b[1..])
  }

  /** The element a script number is pushed as: a zero byte keeps the top bit free for the sign. */
  function NumBytes(v: nat): (b: seq<byte>) {
    var b := Little(v);
    if b != [] && b[|b| - 1] >= 128 then b + [0] else b
  }

  /** What the interpreter reads: sign and magnitude, at most five bytes for the lock opcodes. */
  function NumOf(b: seq<byte>): (r: Option<int>) {
    if |b| > 5 then None
    else if b == [] then Some(0)
    else
      var n := |b| - 1;
      if b[n] >= 128 then Some(0 - LittleOf(b[..n] + [b[n] - 128])) else Some(LittleOf(b))
  }

  lemma {:induction false} LittleBack(v: nat)
    ensures LittleOf(Little(v)) == v
    ensures v > 0 ==> Little(v) != [] && Little(v)[|Little(v)| - 1] > 0
  {
    if v > 0 {
      var t := Little(v / 256);
      LittleBack(v / 256);
      assert Little(v)[1..] == t;
    }
  }

  lemma {:induction false} LittleShort(v: nat, n: nat)
    requires v < Pow256(n)
    ensures |Little(v)| <= n
    decreases n
  {
    if v > 0 {
      assert v / 256 < Pow256(n - 1);
      LittleShort(v / 256, n - 1);
    }
  }

  lemma {:induction false} LittleZero(b: seq<byte>)
    ensures LittleOf(b + [0]) == LittleOf(b)
  {
    if b == [] {
      assert ([] + [0])[1..] == [];
    } else {
      LittleZero(b[1..]);
      assert (b + [0])[1..] == b[1..] + [0];
    }
  }

  /** Every 32-bit number is read back as itself. */
  lemma NumBack(v: u32)
    ensures NumOf(NumBytes(v)) == Some(v as int)
  {
    hide Little, LittleOf;
    LittleBack(v);
    Pow256Const();
    LittleShort(v, 4);
    LittleZero(Little(v));
  }

  /** The push in the script: OP_0, OP_1 to OP_16, or a length byte and the bytes. */
  function PushNum(v: nat): (b: seq<byte>) {
    if v == 0 then [0x00] else if v <= 16 then [0x50 + v] else [|NumBytes(v)| % 256] + NumBytes(v)
  }

  /** The element that the push at the front of a script leaves, and the rest of the script. */
  function ReadPush(s: seq<byte>): (r: Option<(seq<byte>, seq<byte>)>) {
    if s == [] then None
    else if s[0] == 0x00 then Some(([], s[1..]))
    else if 0x51 <= s[0] <= 0x60 then Some(([s[0] - 0x50], s[1..]))
    else if s[0] <= 75 && s[0] < |s| then Some((s[1..1 + s[0]], s[1 + s[0]..]))
    else None
  }

  /** The push of every 32-bit number leaves exactly its element, whatever follows. */
  lemma PushBack(v: u32, rest: seq<byte>)
    ensures ReadPush(PushNum(v) + rest) == Some((NumBytes(v), rest))
  {
    hide Little;
    LittleBack(v);
    Pow256Const();
    LittleShort(v, 4);
    var b, s := NumBytes(v), PushNum(v) + rest;
    if v == 0 {
      assert Little(0) == [] by { LittleSmall(0); }
      assert s[1..] == rest;
    } else if v <= 16 {
      LittleSmall(v);
      assert s[1..] == rest;
    } else {
      assert 1 <= |b| <= 5;
      assert s[0] == |b| && s[1..1 + |b|] == b && s[1 + |b|..] == rest;
    }
  }

  lemma LittleSmall(v: nat)
    requires v < 256
    ensures Little(v) == if v == 0 then [] else [v]
  {
  }

  /** encode_scriptnum. */
  method EncodeScriptnum(val: u32) returns (out: seq<byte>)
    ensures out == PushNum(val)
  {
    hide Little;
    if val == 0 { return [0x00]; }
    if val <= 16 { return [0x50 + val]; }
    var tmp := LittleBytes(val);
    LittleBack(val);
    Pow256Const();
    LittleShort(val, 4);
    if tmp[|tmp| - 1] >= 128 { tmp := tmp + [0]; }
    out := [|tmp|] + tmp;
  }

  /** Its loop. */
  method LittleBytes(val: nat) returns (tmp: seq<byte>)
    ensures tmp == Little(val)
  {
    hide Little;
    tmp := [];
    var v := val;
    assert [] + Little(v) == Little(v);
    while v > 0
      invariant tmp + Little(v) == Little(val)
    {
      LittleStep(v);
      assert tmp + ([v % 256] + Little(v / 256)) == (tmp + [v % 256]) + Little(v / 256);
      tmp := tmp + [v % 256];
      v := v / 256;
    }
    LittleSmall(0);
    assert tmp + [] == tmp;
  }

  lemma LittleStep(v: nat)
    requires v > 0
    ensures Little(v) == [v % 256] + Little(v / 256)
  {
  }

  // ----- scripts -----

  /** A stack element: bytes, a hash or a public key pushed by a script, a signature by the holder of a key. */
  datatype Item = Data(bytes: seq<byte>) | Hash(hash: LeafHash) | Key(key: Point) | Sig(signer: Point)

  datatype Opcode = Push(item: Item) | OpSize | OpEqualVerify | OpSha256 | OpCltv | OpCsv | OpDrop | OpCheckSig

  function Number(v: nat): (op: Opcode) {
    Push(Data(NumBytes(v)))
  }

  /** The scripts as the builders write them, opcode by opcode. */
  function ScriptOf(leaf: Leaf): (s: seq<Opcode>) {
    match leaf
    case CsvDelay(delay, key) => [Number(delay), OpCsv, OpDrop] + [Push(Key(key)), OpCheckSig]
    case RevocationCheck(key) => [Push(Key(key)), OpCheckSig]
    case OfferedSuccess(hash, key) => HashLock(hash) + [Push(Key(key)), OpCheckSig]
    case OfferedTimeout(cltv, delay, key) =>
      [Number(cltv), OpCltv, OpDrop] + ([Number(delay), OpCsv, OpDrop] + [Push(Key(key)), OpCheckSig])
    case ReceivedSuccess(hash, delay, key) =>
      HashLock(hash) + ([Number(delay), OpCsv, OpDrop] + [Push(Key(key)), OpCheckSig])
    case ReceivedTimeout(cltv, key) => [Number(cltv), OpCltv, OpDrop] + [Push(Key(key)), OpCheckSig]
  }

  function HashLock(hash: LeafHash): (s: seq<Opcode>) {
    [OpSize, Number(32), OpEqualVerify, OpSha256, Push(Hash(hash)), OpEqualVerify]
  }

  // ----- execution -----

  const LOCKTIME_THRESHOLD := 500000000
  const SEQUENCE_FINAL := 0xffff_ffff
  const DISABLE := 0x8000_0000
  const BY_TIME := 0x40_0000

  /** What of a spending transaction the locks look at. */
  datatype Spend = Spend(version: nat, lockTime: u32, sequence: u32)

  predicate Bit(n: nat, mask: nat)
    requires mask > 0
  {
    n / mask % 2 == 1
  }

  predicate CltvHolds(n: int, tx: Spend) {
    && n >= 0
    && (n < LOCKTIME_THRESHOLD <==> tx.lockTime < LOCKTIME_THRESHOLD)
    && n <= tx.lockTime && tx.sequence != SEQUENCE_FINAL
  }

  predicate CsvHolds(n: int, tx: Spend) {
    && n >= 0
    && (Bit(n, DISABLE) ||
        (tx.version >= 2 && !Bit(tx.sequence, DISABLE) && Bit(n, BY_TIME) == Bit(tx.sequence, BY_TIME)
         && n % U16 <= tx.sequence % U16))
  }

  function Width(x: Item): (n: nat) {
    match x
    case Data(b) => |b|
    case Sig(_) => 64
    case _ => 32
  }

  const TRUE_ITEM := Data([1])

  /** One opcode; the top of the stack is its last element. */
  function Do(op: Opcode, s: seq<Item>, tx: Spend): (r: Option<seq<Item>>) {
    var n := |s|;
    match op
    case Push(x) => Some(s + [x])
    case OpSize => if n < 1 then None else Some(s + [Data(NumBytes(Width(s[n - 1])))])
    case OpEqualVerify => if n < 2 || s[n - 1] != s[n - 2] then None else Some(s[..n - 2])
    case OpSha256 =>
      if n < 1 || !s[n - 1].Data? then None else Some(s[..n - 1] + [Hash(OfDigest(Sha256(s[n - 1].bytes)))])
    case OpCltv =>
      if n < 1 || !s[n - 1].Data? then None
      else
        var v := NumOf(s[n - 1].bytes);
        if v.None? || !CltvHolds(v.value, tx) then None else Some(s)
    case OpCsv =>
      if n < 1 || !s[n - 1].Data? then None
      else
        var v := NumOf(s[n - 1].bytes);
        if v.None? || !CsvHolds(v.value, tx) then None else Some(s)
    case OpDrop => if n < 1 then None else Some(s[..n - 1])
    case OpCheckSig =>
      if n < 2 || !s[n - 1].Key? then None
      else if s[n - 2] == Data([]) then Some(s[..n - 2] + [Data([])])
      else if s[n - 2] == Sig(s[n - 1].key) then Some(s[..n - 2] + [TRUE_ITEM])
      else None
  }

  function Exec(ops: seq<Opcode>, s: seq<Item>, tx: Spend): (r: Option<seq<Item>>)
    decreases |ops|
  {
    if ops == [] then Some(s)
    else match Do(ops[0], s, tx)
      case None => None
      case Some(t) => Exec(ops[1..], t, tx)
  }

  /** A script path spend is valid when the script leaves exactly one true element. */
  predicate Opens(leaf: Leaf, w: seq<Item>, tx: Spend) {
    Exec(ScriptOf(leaf), w, tx) == Some([TRUE_ITEM])
  }

  /** Witness elements are bytes or signatures. */
  predicate Witness(w: seq<Item>) {
    forall i | 0 <= i < |w| :: w[i].Data? || w[i].Sig?
  }

  lemma {:induction false} ExecJoin(a: seq<Opcode>, b: seq<Opcode>, s: seq<Item>, tx: Spend)
    ensures Exec(a + b, s, tx) == var r := Exec(a, s, tx); if r.None? then None else Exec(b, r.value, tx)
    decreases |a|
  {
    hide Do;
    if a == [] {
      assert [] + b == b;
    } else {
      assert (a + b)[0] == a[0] && (a + b)[1..] == a[1..] + b;
      var t := Do(a[0], s, tx);
      if t.Some? { ExecJoin(a[1..], b, t.value, tx); }
    }
  }

  lemma Exec2(a: Opcode, b: Opcode, s: seq<Item>, tx: Spend)
    ensures Exec([a, b], s, tx) == var r := Do(a, s, tx); if r.None? then None else Do(b, r.value, tx)
  {
    hide Do;
    assert [a, b][1..] == [b] && [b][1..] == [];
    var r := Do(a, s, tx);
    if r.Some? && Do(b, r.value, tx).Some? { assert Exec([], Do(b, r.value, tx).value, tx) == Do(b, r.value, tx); }
  }

  lemma Exec3(a: Opcode, b: Opcode, d: Opcode, s: seq<Item>, tx: Spend)
    ensures Exec([a, b, d], s, tx) == var r := Exec([a, b], s, tx); if r.None? then None else Do(d, r.value, tx)
  {
    hide Do;
    assert [a, b, d] == [a, b] + [d];
    ExecJoin([a, b], [d], s, tx);
    var r := Exec([a, b], s, tx);
    if r.Some? { Exec1(d, r.value, tx); }
  }

  lemma Exec1(a: Opcode, s: seq<Item>, tx: Spend)
    ensures Exec([a], s, tx) == Do(a, s, tx)
  {
    hide Do;
    assert [a][1..] == [];
    var r := Do(a, s, tx);
    if r.Some? { assert Exec([], r.value, tx) == r; }
  }

  lemma PushDrop(s: seq<Item>, x: Item)
    ensures (s + [x])[..|s|] == s && (s + [x])[|s|] == x
  {
  }

  lemma CltvPart(v: u32, s: seq<Item>, tx: Spend)
    ensures Exec([Number(v), OpCltv, OpDrop], s, tx) == if CltvHolds(v, tx) then Some(s) else None
  {
    hide CltvHolds, NumOf, NumBytes, Exec;
    Exec3(Number(v), OpCltv, OpDrop, s, tx);
    Exec2(Number(v), OpCltv, s, tx);
    PushDrop(s, Data(NumBytes(v)));
    NumBack(v);
  }

  lemma CsvPart(v: u32, s: seq<Item>, tx: Spend)
    ensures Exec([Number(v), OpCsv, OpDrop], s, tx) == if CsvHolds(v, tx) then Some(s) else None
  {
    hide CsvHolds, NumOf, NumBytes, Exec;
    Exec3(Number(v), OpCsv, OpDrop, s, tx);
    Exec2(Number(v), OpCsv, s, tx);
    PushDrop(s, Data(NumBytes(v)));
    NumBack(v);
  }

  lemma CheckSigOn(key: Point, t: seq<Item>, x: Item, tx: Spend)
    ensures Do(OpCheckSig, t + [x] + [Key(key)], tx) ==
            if x == Data([]) then Some(t + [Data([])]) else if x == Sig(key) then Some(t + [TRUE_ITEM]) else None
  {
    var s := t + [x] + [Key(key)];
    assert s[|s| - 1] == Key(key) && s[|s| - 2] == x && s[..|s| - 2] == t;
  }

  /** A signature by the key, and nothing else on the stack. */
  lemma SigPart(key: Point, s: seq<Item>, tx: Spend)
    ensures Exec([Push(Key(key)), OpCheckSig], s, tx) == Some([TRUE_ITEM]) <==> s == [Sig(key)]
  {
    hide Exec;
    Exec2(Push(Key(key)), OpCheckSig, s, tx);
    if s != [] {
      var n := |s| - 1;
      var t, x := s[..n], s[n];
      assert s == t + [x];
      CheckSigOn(key, t, x, tx);
      hide Do;
      SameOne(t, TRUE_ITEM, TRUE_ITEM);
      SameOne(t, Data([]), TRUE_ITEM);
      SameOne(t, x, Sig(key));
      PushIs(Key(key), s, tx);
    }
  }

  lemma PushIs(x: Item, s: seq<Item>, tx: Spend)
    ensures Do(Push(x), s, tx) == Some(s + [x])
  {
  }

  lemma SameOne(t: seq<Item>, x: Item, y: Item)
    ensures t + [x] == [y] <==> t == [] && x == y
  {
    if t + [x] == [y] { assert |t + [x]| == 1; }
    assert (t + [x])[|t|] == x;
  }

  /** A preimage of 32 bytes on top is taken off; anything else fails. */
  lemma HashPart(hash: LeafHash, s: seq<Item>, tx: Spend)
    requires Witness(s)
    ensures var r := Exec(HashLock(hash), s, tx);
            && (r.Some? <==> s != [] && Preimage(s[|s| - 1], hash))
            && (r.Some? ==> r.value == s[..|s| - 1])
  {
    hide Exec;
    var a, b := [OpSize, Number(32), OpEqualVerify], [OpSha256, Push(Hash(hash)), OpEqualVerify];
    assert HashLock(hash) == a + b;
    ExecJoin(a, b, s, tx);
    SizePart(s, tx);
    if s != [] && Width(s[|s| - 1]) == 32 { ShaPart(hash, s, tx); }
  }

  predicate Preimage(x: Item, hash: LeafHash) {
    x.Data? && |x.bytes| == 32 && OfDigest(Sha256(x.bytes)) == hash
  }

  lemma SizePart(s: seq<Item>, tx: Spend)
    requires Witness(s)
    ensures Exec([OpSize, Number(32), OpEqualVerify], s, tx) ==
            if s != [] && Width(s[|s| - 1]) == 32 then Some(s) else None
  {
    hide Exec, NumBytes;
    Exec3(OpSize, Number(32), OpEqualVerify, s, tx);
    Exec2(OpSize, Number(32), s, tx);
    if s != [] {
      var w := Width(s[|s| - 1]);
      var t := s + [Data(NumBytes(w))];
      assert (t + [Data(NumBytes(32))])[..|s|] == s;
      NumInjective(w, 32);
    }
  }

  lemma NumInjective(v: nat, w: nat)
    ensures NumBytes(v) == NumBytes(w) ==> v == w
  {
    hide Little, LittleOf;
    LittleBack(v);
    LittleBack(w);
    LittleZero(Little(v));
    LittleZero(Little(w));
  }

  lemma ShaPart(hash: LeafHash, s: seq<Item>, tx: Spend)
    requires s != [] && Width(s[|s| - 1]) == 32 && Witness(s)
    ensures Exec([OpSha256, Push(Hash(hash)), OpEqualVerify], s, tx) ==
            if Preimage(s[|s| - 1], hash) then Some(s[..|s| - 1]) else None
  {
    hide Exec;
    Exec3(OpSha256, Push(Hash(hash)), OpEqualVerify, s, tx);
    Exec2(OpSha256, Push(Hash(hash)), s, tx);
    var n := |s| - 1;
    if s[n].Data? {
      var t := s[..n] + [Hash(OfDigest(Sha256(s[n].bytes)))];
      assert (t + [Hash(hash)])[..n] == s[..n];
    }
  }

  // ----- what opens each leaf -----

  /** The locks of a leaf, under the transaction that spends it. */
  predicate LocksHold(leaf: Leaf, tx: Spend) {
    match leaf
    case CsvDelay(delay, _) => CsvHolds(delay, tx)
    case RevocationCheck(_) => true
    case OfferedSuccess(_, _) => true
    case OfferedTimeout(cltv, delay, _) => CltvHolds(cltv, tx) && CsvHolds(delay, tx)
    case ReceivedSuccess(_, delay, _) => CsvHolds(delay, tx)
    case ReceivedTimeout(cltv, _) => CltvHolds(cltv, tx)
  }

  /** The numbers in a leaf are 32 bits wide. */
  predicate Narrow(leaf: Leaf) {
    match leaf
    case CsvDelay(delay, _) => delay < U32
    case OfferedTimeout(cltv, delay, _) => cltv < U32 && delay < U32
    case ReceivedSuccess(_, delay, _) => delay < U32
    case ReceivedTimeout(cltv, _) => cltv < U32
    case _ => true
  }

  predicate Hashed(leaf: Leaf) {
    leaf.OfferedSuccess? || leaf.ReceivedSuccess?
  }

  /** A witness opens a leaf exactly when it is a signature by the leaf's key, with the preimage above it where there is a hash, and the locks hold. */
  lemma OpensExactly(leaf: Leaf, w: seq<Item>, tx: Spend)
    requires Witness(w) && Narrow(leaf)
    ensures Opens(leaf, w, tx) <==>
            && LocksHold(leaf, tx)
            && (if Hashed(leaf) then |w| == 2 && w[0] == Sig(leaf.key) && Preimage(w[1], leaf.hash) else w == [Sig(leaf.key)])
  {
    hide Exec, CltvHolds, CsvHolds, HashLock, Preimage;
    match leaf
    case CsvDelay(delay, key) =>
      ExecJoin([Number(delay), OpCsv, OpDrop], [Push(Key(key)), OpCheckSig], w, tx);
      CsvPart(delay, w, tx);
      SigPart(key, w, tx);
    case RevocationCheck(key) => SigPart(key, w, tx);
    case OfferedSuccess(hash, key) =>
      assert [] + [Push(Key(key)), OpCheckSig] == [Push(Key(key)), OpCheckSig];
      if w != [] { ExecNone(w[..|w| - 1], tx); }
      HashedOpens(hash, key, [], w, tx);
    case OfferedTimeout(cltv, delay, key) =>
      ExecJoin([Number(cltv), OpCltv, OpDrop], [Number(delay), OpCsv, OpDrop] + [Push(Key(key)), OpCheckSig], w, tx);
      ExecJoin([Number(delay), OpCsv, OpDrop], [Push(Key(key)), OpCheckSig], w, tx);
      CltvPart(cltv, w, tx);
      CsvPart(delay, w, tx);
      SigPart(key, w, tx);
    case ReceivedSuccess(hash, delay, key) =>
      if w != [] { CsvPart(delay, w[..|w| - 1], tx); }
      HashedOpens(hash, key, [Number(delay), OpCsv, OpDrop], w, tx);
    case ReceivedTimeout(cltv, key) =>
      ExecJoin([Number(cltv), OpCltv, OpDrop], [Push(Key(key)), OpCheckSig], w, tx);
      CltvPart(cltv, w, tx);
      SigPart(key, w, tx);
  }

  lemma ExecNone(s: seq<Item>, tx: Spend)
    ensures Exec([], s, tx) == Some(s)
  {
  }

  /** A hash lock, then other locks that leave the stack alone or fail, then a signature. */
  lemma HashedOpens(hash: LeafHash, key: Point, locks: seq<Opcode>, w: seq<Item>, tx: Spend)
    requires Witness(w)
    requires w != [] ==> var r := Exec(locks, w[..|w| - 1], tx); r.None? || r.value == w[..|w| - 1]
    ensures Exec(HashLock(hash) + (locks + [Push(Key(key)), OpCheckSig]), w, tx) == Some([TRUE_ITEM]) <==>
            |w| == 2 && w[0] == Sig(key) && Preimage(w[1], hash) && Exec(locks, w[..1], tx).Some?
  {
    hide Exec, HashLock;
    ExecJoin(HashLock(hash), locks + [Push(Key(key)), OpCheckSig], w, tx);
    HashPart(hash, w, tx);
    if w != [] {
      var t := w[..|w| - 1];
      ExecJoin(locks, [Push(Key(key)), OpCheckSig], t, tx);
      SigPart(key, t, tx);
      assert t == [Sig(key)] <==> |w| == 2 && w[0] == Sig(key);
    }
  }
}
