/**
BOLT #8 message framing and key rotation (src/bolt8.c:409-485), and two ends of it
joined by a FIFO in each direction.

One chaining key serves both directions of an end.  So the ends stay in step in every
run in which no end reads a rotating message while a rotating message of its own is
still unread, and in no other.
*/
module Transport {
  import opened Bits
  import opened Wrappers
  import opened NoiseTerms
  import H = Handshake

  const ROTATE_AT := 1000
  const PER_KEY := 500
  const MAX_LEN := 65535

  type Msg = seq<byte>

  datatype End = End(sk: Term, rk: Term, ck: Term, sn: nat, rn: nat)

  /** The encrypted length, the encrypted body, and the number of bytes on the wire. */
  datatype Frame = Frame(head: Term, body: Term, total: nat)

  function LengthBytes(n: nat): (b: Msg)
    requires n <= MAX_LEN
    ensures |b| == 2 && LengthOf(b) == n
  {
    [n / 256, n % 256]
  }

  function LengthOf(b: Msg): (n: nat)
    requires |b| == 2
  {
    256 * (b[0] as int) + b[1] as int
  }

  function FrameOf(key: Term, nonce: nat, m: Msg): (f: Frame)
    requires |m| <= MAX_LEN
  {
    Frame(Aead(key, nonce, EMPTY, Bytes(LengthBytes(|m|))), Aead(key, nonce + 1, EMPTY, Bytes(m)), |m| + 34)
  }

  /** The sending side after rotating if its counter has reached the limit. */
  function RotatedSend(e: End): (r: End) {
    if e.sn == ROTATE_AT then e.(ck := HkdfCk(e.ck, e.sk), sk := HkdfK(e.ck, e.sk), sn := 0) else e
  }

  function RotatedRecv(e: End): (r: End) {
    if e.rn == ROTATE_AT then e.(ck := HkdfCk(e.ck, e.rk), rk := HkdfK(e.ck, e.rk), rn := 0) else e
  }

  datatype Wrote = Wrote(end: End, frame: Frame)

  function Write(e: End, m: Msg): (r: Wrote)
    requires |m| <= MAX_LEN
  {
    var s := RotatedSend(e);
    Wrote(s.(sn := s.sn + 2), FrameOf(s.sk, s.sn, m))
  }

  datatype Got = Got(end: End, msg: Msg)

  function Read(e: End, f: Frame): (r: Option<Got>) {
    var s := RotatedRecv(e);
    if f.total < 34 then None
    else match Open(s.rk, s.rn, EMPTY, f.head)
      case None => None
      case Some(head) =>
        if !head.Bytes? || |head.bytes| != 2 then None
        else
          var n := LengthOf(head.bytes);
          if f.total < 18 + n + 16 then None
          else match Open(s.rk, s.rn + 1, EMPTY, f.body)
            case None => None
            case Some(body) =>
              if !body.Bytes? || |body.bytes| != n then None
              else Some(Got(s.(rn := s.rn + 2), body.bytes))
  }

  /** What a failed read leaves: a rotation once the frame is long enough, one count once the header opens. */
  function ReadFailed(e: End, f: Frame): (r: End) {
    var s := RotatedRecv(e);
    if f.total < 34 then e
    else match Open(s.rk, s.rn, EMPTY, f.head)
      case None => s
      case Some(head) => if !head.Bytes? || |head.bytes| != 2 then s else s.(rn := s.rn + 1)
  }

  /** The frame is too short, or its header does not open to a length. */
  predicate BadHeader(e: End, f: Frame) {
    var s := RotatedRecv(e);
    var head := Open(s.rk, s.rn, EMPTY, f.head);
    f.total < 34 || head.None? || !head.value.Bytes? || |head.value.bytes| != 2
  }

  /** A read that fails at the header, or before it, does not change what the next read recovers or leaves. */
  lemma BadHeaderHarmless(e: End, f: Frame, g: Frame)
    requires BadHeader(e, f)
    ensures Read(e, f).None? && Read(ReadFailed(e, f), g) == Read(e, g)
    ensures g.total >= 34 ==> ReadFailed(ReadFailed(e, f), g) == ReadFailed(e, g)
  {
  }

  /** A read accepts exactly the frames a writer with its key and counter makes, whatever bytes follow them. */
  lemma ReadExactly(e: End, f: Frame, m: Msg)
    ensures var s := RotatedRecv(e);
            (Read(e, f).Some? && Read(e, f).value == Got(s.(rn := s.rn + 2), m)) <==>
            |m| <= 65535 && f.total >= |m| + 34 && f == FrameOf(s.rk, s.rn, m).(total := f.total)
  {
    if Read(e, f).Some? {
      assert Read(e, f).value.end == RotatedRecv(e).(rn := RotatedRecv(e).rn + 2);
      LengthBack(f.head.plain.bytes);
    }
  }

  lemma LengthBack(b: Msg)
    requires |b| == 2
    ensures LengthOf(b) <= 65535 && LengthBytes(LengthOf(b)) == b
  {
  }

  // ----- a failed read between other calls -----

  /** The calls made at one end, and what each of them gives. */
  datatype Act = Put(msg: Msg) | Take(frame: Frame)

  datatype Seen = Sent(frame: Option<Frame>) | Received(msg: Option<Msg>)

  function Result(e: End, a: Act): (r: Seen) {
    match a
    case Put(m) => Sent(if |m| > MAX_LEN then None else Some(Write(e, m).frame))
    case Take(f) => Received(var r := Read(e, f); if r.None? then None else Some(r.value.msg))
  }

  function Leaves(e: End, a: Act): (r: End) {
    match a
    case Put(m) => if |m| > MAX_LEN then e else Write(e, m).end
    case Take(f) => var r := Read(e, f); if r.None? then ReadFailed(e, f) else r.value.end
  }

  function Trace(e: End, acts: seq<Act>): (t: seq<Seen>)
    decreases |acts|
  {
    if acts == [] then [] else [Result(e, acts[0])] + Trace(Leaves(e, acts[0]), acts[1..])
  }

  /** A write rotates before the first read of a whole frame. */
  predicate SendRotatesFirst(sn: nat, acts: seq<Act>)
    decreases |acts|
  {
    acts != [] &&
    match acts[0]
    case Put(m) => if |m| > MAX_LEN then SendRotatesFirst(sn, acts[1..])
                   else sn == ROTATE_AT || SendRotatesFirst(sn + 2, acts[1..])
    case Take(f) => f.total < 34 && SendRotatesFirst(sn, acts[1..])
  }

  lemma RotatedKeysDiffer(a: Term, b: Term, ck: Term)
    ensures HkdfCk(ck, a) != ck && HkdfK(HkdfCk(ck, a), b) != HkdfK(ck, b)
  {
    assert Size(HkdfCk(ck, a)) > Size(ck);
  }

  /** Rotating early on the receiving side is noticed exactly when a write rotates before the next read does. */
  lemma {:induction false} EarlyRotation(e: End, acts: seq<Act>)
    requires e.rn == ROTATE_AT
    ensures Trace(RotatedRecv(e), acts) == Trace(e, acts) <==> !SendRotatesFirst(e.sn, acts)
    decreases |acts|
  {
    hide FrameOf, Read, ReadFailed;
    if acts != [] {
      var r, a := RotatedRecv(e), acts[0];
      TraceHead(r, e, acts);
      match a
      case Take(f) =>
        ReadAfterRotation(e, f);
        if f.total < 34 { EarlyRotation(e, acts[1..]); }
      case Put(m) =>
        if |m| > MAX_LEN {
          EarlyRotation(e, acts[1..]);
        } else if e.sn == ROTATE_AT {
          RotatedKeysDiffer(e.rk, e.sk, e.ck);
          assert Result(r, a) != Result(e, a) by { KeyShows(RotatedSend(r).sk, RotatedSend(e).sk, 0, m); }
        } else {
          EarlyRotation(Leaves(e, a), acts[1..]);
        }
    }
  }

  lemma TraceHead(d: End, e: End, acts: seq<Act>)
    requires acts != []
    ensures Trace(d, acts) == Trace(e, acts) <==>
            Result(d, acts[0]) == Result(e, acts[0]) && Trace(Leaves(d, acts[0]), acts[1..]) == Trace(Leaves(e, acts[0]), acts[1..])
  {
    hide Result, Leaves;
    var s, t := Trace(d, acts), Trace(e, acts);
    assert s[0] == Result(d, acts[0]) && t[0] == Result(e, acts[0]);
    assert s[1..] == Trace(Leaves(d, acts[0]), acts[1..]) && t[1..] == Trace(Leaves(e, acts[0]), acts[1..]);
    assert s == [s[0]] + s[1..] && t == [t[0]] + t[1..];
  }

  lemma KeyShows(j: Term, k: Term, nonce: nat, m: Msg)
    requires j != k && |m| <= MAX_LEN
    ensures FrameOf(j, nonce, m) != FrameOf(k, nonce, m)
  {
    assert FrameOf(j, nonce, m).body.key == j && FrameOf(k, nonce, m).body.key == k;
  }

  lemma ReadAfterRotation(e: End, f: Frame)
    requires e.rn == ROTATE_AT
    ensures f.total < 34 ==> Leaves(e, Take(f)) == e && Leaves(RotatedRecv(e), Take(f)) == RotatedRecv(e)
    ensures f.total >= 34 ==> Leaves(e, Take(f)) == Leaves(RotatedRecv(e), Take(f))
    ensures Result(e, Take(f)) == Result(RotatedRecv(e), Take(f))
  {
  }

  /**
  A read that fails at the header changes nothing that any later calls give, exactly when
  it did not rotate, or no write rotates before the next whole frame is read.
  */
  lemma BadHeaderExactly(e: End, f: Frame, acts: seq<Act>)
    requires BadHeader(e, f)
    ensures Trace(ReadFailed(e, f), acts) == Trace(e, acts) <==>
            f.total < 34 || e.rn != ROTATE_AT || !SendRotatesFirst(e.sn, acts)
  {
    hide Trace, SendRotatesFirst;
    if f.total >= 34 && e.rn == ROTATE_AT { EarlyRotation(e, acts); }
  }

  /**
  Two ends that have both used up their keys.  The first writes, the second reads that and
  answers: the answer `g` is read.  With a failed read of any bad frame before the write it is not.
  */
  lemma BadHeaderParts(a: Term, b: Term, ck: Term, f: Frame, m: Msg)
    requires |m| <= MAX_LEN && f.total >= 34 && BadHeader(End(a, b, ck, 1000, 1000), f)
    ensures var e, peer := End(a, b, ck, 1000, 1000), End(b, a, ck, 1000, 1000);
            var w := Write(e, m);
            && Read(peer, w.frame).Some?
            && var g := Write(Read(peer, w.frame).value.end, m).frame;
               && Read(w.end, g).Some? && Read(w.end, g).value.msg == m
               && Read(Write(ReadFailed(e, f), m).end, g).None?
  {
    RotatedKeysDiffer(a, b, ck);
  }

  // ----- the code -----

  /** bolt8_state_t. */
  class State {
    var sk: Term
    var rk: Term
    var ck: Term
    var sn: nat
    var rn: nat

    function View(): (e: End)
      reads this
    {
      End(sk, rk, ck, sn, rn)
    }

    constructor (e: End)
      ensures View() == e
    {
      sk, rk, ck, sn, rn := e.sk, e.rk, e.ck, e.sn, e.rn;
    }

    /** bolt8_write_message. */
    method WriteMessage(m: Msg) returns (r: Option<Frame>)
      modifies this
      ensures r.Some? <==> |m| <= MAX_LEN
      ensures r.None? ==> View() == old(View())
      ensures r.Some? ==> Write(old(View()), m) == Wrote(View(), r.value)
    {
      if |m| > MAX_LEN { return None; }
      if sn == 1000 {
        ck, sk := HkdfCk(ck, sk), HkdfK(ck, sk);
        sn := 0;
      }
      var head := Aead(sk, sn, EMPTY, Bytes([|m| / 256, |m| % 256]));
      sn := sn + 1;
      var body := Aead(sk, sn, EMPTY, Bytes(m));
      sn := sn + 1;
      r := Some(Frame(head, body, |m| + 34));
    }

    /** bolt8_read_message. */
    method ReadMessage(f: Frame) returns (r: Option<Msg>)
      modifies this
      ensures r.Some? == Read(old(View()), f).Some?
      ensures r.Some? ==> Read(old(View()), f).value == Got(View(), r.value)
      ensures r.None? ==> View() == ReadFailed(old(View()), f)
    {
      if f.total < 18 + 16 { return None; }
      if rn == 1000 {
        ck, rk := HkdfCk(ck, rk), HkdfK(ck, rk);
        rn := 0;
      }
      var head := Open(rk, rn, EMPTY, f.head);
      if head.None? || !head.value.Bytes? || |head.value.bytes| != 2 { return None; }
      rn := rn + 1;
      var len := LengthOf(head.value.bytes);
      if f.total < 18 + len + 16 { return None; }
      var body := Open(rk, rn, EMPTY, f.body);
      if body.None? || !body.value.Bytes? || |body.value.bytes| != len { return None; }
      rn := rn + 1;
      r := Some(body.value.bytes);
    }
  }

  // ----- two ends -----

  /** One direction: everything sent, how much of it was read, and the sender's key of each rotation. */
  datatype Dir = Dir(frames: seq<Frame>, msgs: seq<Msg>, read: nat, keys: seq<Term>)

  /** Ends 0 and 1; `d0` runs from 0 to 1, `d1` from 1 to 0. */
  datatype Sys = Sys(e0: End, e1: End, d0: Dir, d1: Dir)

  function Swap(s: Sys): (r: Sys) {
    Sys(s.e1, s.e0, s.d1, s.d0)
  }

  /** Two ends after a handshake that left chaining key `ck` (see HonestHandshake). */
  function Fresh(ck: Term): (s: Sys) {
    var k0, k1 := HkdfCk(ck, EMPTY), HkdfK(ck, EMPTY);
    Sys(End(k0, k1, ck, 0, 0), End(k1, k0, ck, 0, 0), Dir([], [], 0, [k0]), Dir([], [], 0, [k1]))
  }

  function EndOf(k: H.Keys): (e: End) {
    End(k.sk, k.rk, k.ck, k.sn, k.rn)
  }

  /** The keys an honest handshake leaves are where the transport starts: `Fresh` for one chaining key. */
  lemma HandshakeStarts(iS: nat, ie: nat, rs: nat, re: nat)
    ensures H.AfterAct2(ie, rs, re).Some?
    ensures var (i2, r2) := H.AfterAct2(ie, rs, re).value;
            && H.WriteAct3(i2, iS).Some? && H.ReadAct3(r2, H.WriteAct3(i2, iS).value.msg).Some?
            && var i, r := H.WriteAct3(i2, iS).value, H.ReadAct3(r2, H.WriteAct3(i2, iS).value.msg).value;
               EndOf(i.keys) == Fresh(i.keys.ck).e0 && EndOf(r.keys) == Fresh(i.keys.ck).e1
  {
    H.HonestHandshake(iS, ie, rs, re);
    hide H.AfterAct2;
  }

  function Send0(s: Sys, m: Msg): (r: Sys)
    requires |m| <= MAX_LEN
  {
    var w := Write(s.e0, m);
    var keys := if s.e0.sn == ROTATE_AT then s.d0.keys + [w.end.sk] else s.d0.keys;
    s.(e0 := w.end, d0 := Dir(s.d0.frames + [w.frame], s.d0.msgs + [m], s.d0.read, keys))
  }

  /** End 1 reads the next frame; the answer tells whether it recovered the message that was sent. */
  function Recv1(s: Sys): (r: Option<Sys>)
    requires s.d0.read < |s.d0.frames| && s.d0.read < |s.d0.msgs|
  {
    var g := Read(s.e1, s.d0.frames[s.d0.read]);
    if g.Some? && g.value.msg == s.d0.msgs[s.d0.read]
    then Some(s.(e1 := g.value.end, d0 := s.d0.(read := s.d0.read + 1))) else None
  }

  // ----- the invariant -----

  /** Rotations done after `n` messages, and the nonce counter then. */
  function Rotations(n: nat): (k: nat) {
    if n == 0 then 0 else (n - 1) / PER_KEY
  }

  function Counter(n: nat): (c: nat) {
    if n == 0 then 0 else 2 * ((n - 1) % PER_KEY) + 2
  }

  ghost predicate KeysChain(keys: seq<Term>) {
    forall i | 0 < i < |keys| :: keys[i].HkdfK? && keys[i].ikm == keys[i - 1]
  }

  ghost predicate DirOk(d: Dir) {
    && |d.msgs| == |d.frames| && d.read <= |d.frames|
    && |d.keys| == Rotations(|d.frames|) + 1 && KeysChain(d.keys) && !d.keys[0].Bytes?
    && (forall j | 0 <= j < |d.frames| ::
          |d.msgs[j]| <= MAX_LEN && d.frames[j] == FrameOf(d.keys[Rotations(j + 1)], 2 * (j % PER_KEY), d.msgs[j]))
  }

  lemma RotationsMonotone(a: nat, b: nat)
    requires a <= b
    ensures Rotations(a) <= Rotations(b)
  {
  }

  ghost predicate SenderOk(e: End, d: Dir)
    requires DirOk(d)
  {
    e.sk == d.keys[|d.keys| - 1] && e.sn == Counter(|d.frames|)
  }

  /** The reader's current key, then the keys of the rotations it has yet to make. */
  ghost function Pending(d: Dir): (k: seq<Term>)
    requires DirOk(d)
    ensures |k| > 0
  {
    RotationsMonotone(d.read, |d.frames|);
    d.keys[Rotations(d.read)..]
  }

  ghost predicate ReaderOk(e: End, d: Dir)
    requires DirOk(d)
  {
    e.rk == Pending(d)[0] && e.rn == Counter(d.read)
  }

  /** From chaining key `c`, the rotations into `k[1..]` lead to chaining key `to`. */
  ghost predicate Linked(c: Term, k: seq<Term>, to: Term)
    requires |k| > 0
    decreases |k|
  {
    if |k| == 1 then c == to
    else k[1].HkdfK? && k[1].ck == c && Linked(HkdfCk(c, k[0]), k[1..], to)
  }

  /** How the two chaining keys are related, given the rotations in flight each way. */
  ghost predicate CksOk(c0: Term, c1: Term, p0: seq<Term>, p1: seq<Term>)
    requires |p0| > 0 && |p1| > 0
  {
    && (|p1| == 1 ==> Linked(c1, p0, c0))
    && (|p0| == 1 ==> Linked(c0, p1, c1))
    && (|p0| > 1 && |p1| > 1 ==>
          p0[1].HkdfK? && Size(c1) > Size(p0[1].ck) && p1[1].HkdfK? && Size(c0) > Size(p1[1].ck))
  }

  ghost predicate Inv(s: Sys) {
    && DirOk(s.d0) && DirOk(s.d1)
    && SenderOk(s.e0, s.d0) && ReaderOk(s.e1, s.d0)
    && SenderOk(s.e1, s.d1) && ReaderOk(s.e0, s.d1)
    && CksOk(s.e0.ck, s.e1.ck, Pending(s.d0), Pending(s.d1))
    && Root(s.d0.keys[0]) != Root(s.d1.keys[0])
  }

  /** The key a chain of rotations started from. */
  ghost function Root(k: Term): (r: Term) {
    if k.HkdfK? && !k.ikm.Bytes? then Root(k.ikm) else k
  }

  lemma SwapInv(s: Sys)
    requires Inv(s)
    ensures Inv(Swap(s))
  {
    hide DirOk, SenderOk, ReaderOk, Linked, Root, Pending;
  }

  lemma FreshInv(ck: Term)
    ensures Inv(Fresh(ck))
  {
  }

  // ----- sending keeps it -----

  lemma {:induction false} LinkedExtend(c: Term, k: seq<Term>, to: Term)
    requires |k| > 0 && Linked(c, k, to)
    ensures Linked(c, k + [HkdfK(to, k[|k| - 1])], HkdfCk(to, k[|k| - 1]))
    decreases |k|
  {
    var x := HkdfK(to, k[|k| - 1]);
    var kx := k + [x];
    if |k| == 1 {
      assert Linked(HkdfCk(c, kx[0]), kx[1..], HkdfCk(to, k[0]));
    } else {
      LinkedExtend(HkdfCk(c, k[0]), k[1..], to);
      assert kx[1..] == k[1..] + [x];
    }
  }

  lemma {:induction false} LinkedGrows(c: Term, k: seq<Term>, to: Term)
    requires |k| > 0 && Linked(c, k, to)
    ensures Size(to) >= Size(c) && (|k| > 1 ==> Size(to) > Size(c))
    decreases |k|
  {
    if |k| > 1 { LinkedGrows(HkdfCk(c, k[0]), k[1..], to); }
  }

  lemma CksRotateSend(c0: Term, c1: Term, p0: seq<Term>, p1: seq<Term>)
    requires |p0| > 0 && |p1| > 0 && CksOk(c0, c1, p0, p1)
    ensures var k := p0[|p0| - 1];
            CksOk(HkdfCk(c0, k), c1, p0 + [HkdfK(c0, k)], p1)
  {
    hide Linked;
    if |p1| == 1 {
      LinkedExtend(c1, p0, c0);
    } else if |p0| == 1 {
      LinkedGrows(c0, p1, c1);
      LinkedHead(c0, p1, c1);
    }
  }

  lemma LinkedHead(c: Term, k: seq<Term>, to: Term)
    requires |k| > 1 && Linked(c, k, to)
    ensures k[1].HkdfK? && k[1].ck == c && Linked(HkdfCk(c, k[0]), k[1..], to)
  {
  }

  /** The counter reaches its limit exactly after a whole number of key lifetimes. */
  lemma CounterAt(n: nat)
    ensures Counter(n) == ROTATE_AT <==> n > 0 && n % PER_KEY == 0
    ensures Counter(n) != ROTATE_AT ==> Counter(n) == 2 * (n % PER_KEY) && Rotations(n + 1) == Rotations(n)
    ensures n > 0 && n % PER_KEY == 0 ==> Rotations(n + 1) == Rotations(n) + 1
    ensures Counter(n + 1) == 2 * (n % PER_KEY) + 2
  {
  }

  lemma SendDir(e: End, d: Dir, m: Msg)
    requires DirOk(d) && SenderOk(e, d) && |m| <= MAX_LEN
    ensures var w := Write(e, m);
            var keys := if e.sn == ROTATE_AT then d.keys + [w.end.sk] else d.keys;
            var d' := Dir(d.frames + [w.frame], d.msgs + [m], d.read, keys);
            DirOk(d') && SenderOk(w.end, d')
            && Pending(d') == if e.sn == ROTATE_AT then Pending(d) + [w.end.sk] else Pending(d)
  {
    hide FrameOf, Counter, Rotations;
    var n := |d.frames|;
    CounterAt(n);
    var w := Write(e, m);
    var keys := if e.sn == ROTATE_AT then d.keys + [w.end.sk] else d.keys;
    var d' := Dir(d.frames + [w.frame], d.msgs + [m], d.read, keys);
    RotationsMonotone(d.read, n);
    forall j | 0 <= j <= n
      ensures |d'.msgs[j]| <= MAX_LEN && Rotations(j + 1) < |keys|
              && d'.frames[j] == FrameOf(keys[Rotations(j + 1)], 2 * (j % PER_KEY), d'.msgs[j])
    {
      if j < n { RotationsMonotone(j + 1, n); }
    }
  }

  lemma Send0Ok(s: Sys, m: Msg)
    requires Inv(s) && |m| <= MAX_LEN
    ensures Inv(Send0(s, m)) && |Send0(s, m).d0.frames| == |s.d0.frames| + 1
  {
    hide DirOk, Linked, Root, Counter, FrameOf, CksOk;
    SendDir(s.e0, s.d0, m);
    FirstKeyKept(s.d0.keys);
    CksRotateSend(s.e0.ck, s.e1.ck, Pending(s.d0), Pending(s.d1));
    LastPending(s.d0);
  }

  lemma FirstKeyKept(keys: seq<Term>)
    ensures |keys| > 0 ==> forall k :: (keys + [k])[0] == keys[0]
  {
  }

  lemma LastPending(d: Dir)
    requires DirOk(d)
    ensures |d.keys| > 0 && Pending(d)[|Pending(d)| - 1] == d.keys[|d.keys| - 1]
  {
  }

  // ----- reading keeps it, except across crossed rotations -----

  /** The next message in a direction is the first under a new key. */
  predicate Rotating(read: nat) {
    read > 0 && read % PER_KEY == 0
  }

  lemma PendingRead(d: Dir)
    requires DirOk(d) && d.read < |d.frames|
    ensures |d.msgs| == |d.frames|
    ensures var d' := d.(read := d.read + 1);
            && DirOk(d')
            && (Rotating(d.read) ==> |Pending(d)| > 1 && Pending(d') == Pending(d)[1..])
            && (!Rotating(d.read) ==> Pending(d') == Pending(d))
            && d.frames[d.read] == FrameOf(Pending(d')[0], 2 * (d.read % PER_KEY), d.msgs[d.read])
            && |d.msgs[d.read]| <= MAX_LEN
  {
    hide FrameOf, Rotations, Counter;
    CounterAt(d.read);
    RotationsMonotone(d.read, |d.frames|);
    RotationsMonotone(d.read + 1, |d.frames|);
  }

  lemma ReadFrame(e: End, key: Term, nonce: nat, m: Msg)
    requires |m| <= MAX_LEN
    requires var s := RotatedRecv(e); s.rn == nonce
    ensures var s := RotatedRecv(e);
            Read(e, FrameOf(key, nonce, m)) == (if s.rk == key then Some(Got(s.(rn := s.rn + 2), m)) else None)
  {
    hide RotatedRecv, LengthOf;
  }

  lemma CksRotateRecv(c0: Term, c1: Term, p0: seq<Term>, p1: seq<Term>)
    requires |p0| > 1 && |p1| > 0 && CksOk(c0, c1, p0, p1) && p0[1].HkdfK? && p0[1].ikm == p0[0]
    ensures HkdfK(c1, p0[0]) == p0[1] <==> |p1| == 1
    ensures |p1| == 1 ==> CksOk(c0, HkdfCk(c1, p0[0]), p0[1..], p1)
  {
    hide Linked;
    if |p1| == 1 {
      LinkedHead(c1, p0, c0);
      LinkedSingle(p0[1..], p1, HkdfCk(c1, p0[0]), c0);
    }
  }

  lemma LinkedSingle(p: seq<Term>, q: seq<Term>, c: Term, to: Term)
    requires |p| > 0 && |q| == 1 && Linked(c, p, to)
    ensures |p| == 1 ==> Linked(to, q, c)
  {
  }

  lemma SecondKey(d: Dir)
    requires DirOk(d) && |Pending(d)| > 1
    ensures Pending(d)[1].HkdfK? && Pending(d)[1].ikm == Pending(d)[0]
  {
    hide FrameOf;
  }

  /** Reading succeeds exactly when it does not rotate while rotations of the reader's own are unread. */
  lemma Recv1Exact(s: Sys)
    requires Inv(s) && s.d0.read < |s.d0.frames|
    ensures Recv1(s).Some? <==> !(Rotating(s.d0.read) && |Pending(s.d1)| > 1)
    ensures Recv1(s).Some? ==> Inv(Recv1(s).value)
  {
    hide FrameOf, Linked, Counter, Rotations, Root, Read, DirOk, Pending, CksOk;
    assert DirOk(s.d0);
    var d, e := s.d0, s.e1;
    PendingRead(d);
    CounterAt(d.read);
    var nonce := 2 * (d.read % PER_KEY);
    assert RotatedRecv(e).rn == nonce;
    ReadFrame(e, Pending(d.(read := d.read + 1))[0], nonce, d.msgs[d.read]);
    if Rotating(d.read) {
      SecondKey(d);
      CksRotateRecv(s.e0.ck, e.ck, Pending(d), Pending(s.d1));
    }
  }

  // ----- runs -----

  datatype Event = Send(from0: bool, msg: Msg) | Recv(at1: bool)

  /** One event; a read with nothing to read waits, a read that fails ends the connection. */
  function Step(s: Sys, ev: Event): (r: Option<Sys>)
    requires |s.d0.msgs| == |s.d0.frames| && |s.d1.msgs| == |s.d1.frames|
  {
    match ev
    case Send(from0, m) =>
      if |m| > MAX_LEN then Some(s) else if from0 then Some(Send0(s, m)) else Some(Swap(Send0(Swap(s), m)))
    case Recv(true) =>
      if s.d0.read < |s.d0.frames| then Recv1(s) else Some(s)
    case Recv(false) =>
      if s.d1.read < |s.d1.frames| then
        match Recv1(Swap(s)) case None => None case Some(t) => Some(Swap(t))
      else Some(s)
  }

  /** The counts an observer of the schedule sees: sent and read in each direction. */
  datatype Counts = Counts(w0: nat, r0: nat, w1: nat, r1: nat)

  function CountsOf(s: Sys): (c: Counts) {
    Counts(|s.d0.frames|, s.d0.read, |s.d1.frames|, s.d1.read)
  }

  function Next(c: Counts, ev: Event): (r: Counts) {
    match ev
    case Send(from0, m) =>
      if |m| > MAX_LEN then c else if from0 then c.(w0 := c.w0 + 1) else c.(w1 := c.w1 + 1)
    case Recv(true) => if c.r0 < c.w0 then c.(r0 := c.r0 + 1) else c
    case Recv(false) => if c.r1 < c.w1 then c.(r1 := c.r1 + 1) else c
  }

  /** A rotating message is about to be read by an end with a rotating message of its own unread. */
  predicate Crossed(c: Counts, ev: Event) {
    match ev
    case Send(_, _) => false
    case Recv(true) => c.r0 < c.w0 && Rotating(c.r0) && Rotations(c.w1) > Rotations(c.r1)
    case Recv(false) => c.r1 < c.w1 && Rotating(c.r1) && Rotations(c.w0) > Rotations(c.r0)
  }

  predicate NeverCrossed(c: Counts, evs: seq<Event>)
    decreases |evs|
  {
    evs == [] || (!Crossed(c, evs[0]) && NeverCrossed(Next(c, evs[0]), evs[1..]))
  }

  ghost function Run(s: Sys, evs: seq<Event>): (r: Option<Sys>)
    requires Inv(s)
    decreases |evs|
  {
    if evs == [] then Some(s)
    else
      StepExact(s, evs[0]);
      match Step(s, evs[0])
      case None => None
      case Some(t) => Run(t, evs[1..])
  }

  lemma PendingCount(d: Dir)
    requires DirOk(d)
    ensures |Pending(d)| > 1 <==> Rotations(|d.frames|) > Rotations(d.read)
  {
    hide FrameOf, Rotations;
    RotationsMonotone(d.read, |d.frames|);
    assert |Pending(d)| == |d.keys| - Rotations(d.read);
  }

  lemma InvLengths(s: Sys)
    requires Inv(s)
    ensures |s.d0.msgs| == |s.d0.frames| && |s.d1.msgs| == |s.d1.frames|
  {
    hide FrameOf, Linked, Counter, Root;
  }

  lemma Recv1Counts(s: Sys)
    requires Inv(s) && s.d0.read < |s.d0.frames|
    ensures |s.d0.msgs| == |s.d0.frames|
    ensures Recv1(s).Some? <==> !Crossed(CountsOf(s), Recv(true))
    ensures Recv1(s).Some? ==> Inv(Recv1(s).value) && CountsOf(Recv1(s).value) == Next(CountsOf(s), Recv(true))
  {
    InvLengths(s);
    Recv1Exact(s);
    assert DirOk(s.d1);
    PendingCount(s.d1);
    hide Inv, Read, Rotations, Pending, DirOk;
  }

  lemma StepExact(s: Sys, ev: Event)
    requires Inv(s)
    ensures |s.d0.msgs| == |s.d0.frames| && |s.d1.msgs| == |s.d1.frames|
    ensures Step(s, ev).Some? <==> !Crossed(CountsOf(s), ev)
    ensures Step(s, ev).Some? ==> Inv(Step(s, ev).value) && CountsOf(Step(s, ev).value) == Next(CountsOf(s), ev)
  {
    hide Inv, Write, Recv1, Rotations;
    InvLengths(s);
    SwapInv(s);
    match ev
    case Send(from0, m) =>
      if |m| <= MAX_LEN {
        if from0 { Send0Ok(s, m); } else { Send0Ok(Swap(s), m); SwapInv(Send0(Swap(s), m)); }
      }
    case Recv(true) =>
      if s.d0.read < |s.d0.frames| { Recv1Counts(s); }
    case Recv(false) =>
      if s.d1.read < |s.d1.frames| {
        Recv1Counts(Swap(s));
        if Recv1(Swap(s)).Some? { SwapInv(Recv1(Swap(s)).value); }
      }
  }

  /**
  Over every run: all reads recover the message sent exactly when no end ever reads a
  rotating message while a rotating message of its own is unread.
  */
  lemma {:induction false} RunExact(s: Sys, evs: seq<Event>)
    requires Inv(s)
    ensures Run(s, evs).Some? <==> NeverCrossed(CountsOf(s), evs)
    ensures Run(s, evs).Some? ==> Inv(Run(s, evs).value) && CountsOf(Run(s, evs).value) == After(CountsOf(s), evs)
    decreases |evs|
  {
    hide Inv, Crossed, Next, Step, CountsOf;
    if evs != [] {
      StepExact(s, evs[0]);
      if Step(s, evs[0]).Some? { RunExact(Step(s, evs[0]).value, evs[1..]); }
    }
  }

  function After(c: Counts, evs: seq<Event>): (r: Counts)
    decreases |evs|
  {
    if evs == [] then c else After(Next(c, evs[0]), evs[1..])
  }

  /** With nothing in flight the ends mirror each other: keys, counters and chaining key. */
  lemma QuietAgree(s: Sys)
    requires Inv(s) && s.d0.read == |s.d0.frames| && s.d1.read == |s.d1.frames|
    ensures s.e0.sk == s.e1.rk && s.e0.rk == s.e1.sk && s.e0.ck == s.e1.ck
    ensures s.e0.sn == s.e1.rn && s.e0.rn == s.e1.sn
  {
    hide FrameOf, Counter, Rotations;
    assert |Pending(s.d0)| == 1 && |Pending(s.d1)| == 1;
  }

  // ----- schedules that never cross -----

  /** Every message is read before the next one is written, in either direction. */
  predicate Lockstep(c: Counts, evs: seq<Event>)
    decreases |evs|
  {
    evs == [] || ((evs[0].Send? ==> c.w0 == c.r0 && c.w1 == c.r1) && Lockstep(Next(c, evs[0]), evs[1..]))
  }

  lemma {:induction false} LockstepNeverCrosses(c: Counts, evs: seq<Event>)
    requires Lockstep(c, evs) && c.r0 <= c.w0 <= c.r0 + 1 && c.r1 <= c.w1 <= c.r1 + 1
    requires c.w0 == c.r0 || c.w1 == c.r1
    ensures NeverCrossed(c, evs)
    decreases |evs|
  {
    if evs != [] { LockstepNeverCrosses(Next(c, evs[0]), evs[1..]); }
  }

  /** A one-way stream, pipelined as deep as its writer likes. */
  predicate OneWay(evs: seq<Event>) {
    forall i | 0 <= i < |evs| :: evs[i].Send? ==> evs[i].from0
  }

  lemma {:induction false} OneWayNeverCrosses(c: Counts, evs: seq<Event>)
    requires OneWay(evs) && c.r0 <= c.w0 && c.w1 == c.r1
    ensures NeverCrossed(c, evs)
    decreases |evs|
  {
    if evs != [] { OneWayNeverCrosses(Next(c, evs[0]), evs[1..]); }
  }

  /** From a fresh handshake, every lock-step run and every one-way stream delivers every message it reads. */
  lemma OrderlyRunsDeliver(ck: Term, evs: seq<Event>)
    requires Lockstep(Counts(0, 0, 0, 0), evs) || OneWay(evs)
    ensures Inv(Fresh(ck)) && Run(Fresh(ck), evs).Some? && Inv(Run(Fresh(ck), evs).value)
  {
    hide Inv, Run, Lockstep, OneWay, NeverCrossed;
    FreshInv(ck);
    RunExact(Fresh(ck), evs);
    if Lockstep(Counts(0, 0, 0, 0), evs) {
      LockstepNeverCrosses(Counts(0, 0, 0, 0), evs);
    } else {
      OneWayNeverCrosses(Counts(0, 0, 0, 0), evs);
    }
  }

  /** `n` exchanges in lock step, then `rest`. */
  function PingPong(n: nat, rest: seq<Event>): (evs: seq<Event>) {
    if n == 0 then rest
    else [Send(true, [])] + ([Recv(true)] + ([Send(false, [])] + ([Recv(false)] + PingPong(n - 1, rest))))
  }

  lemma Unfold(c: Counts, ev: Event, t: seq<Event>)
    ensures NeverCrossed(c, [ev] + t) <==> !Crossed(c, ev) && NeverCrossed(Next(c, ev), t)
  {
    hide Next, Crossed;
    assert ([ev] + t)[1..] == t;
  }

  lemma {:induction false} PingPongCounts(n: nat, m: nat, rest: seq<Event>)
    ensures NeverCrossed(Counts(m, m, m, m), PingPong(n, rest)) <==>
            NeverCrossed(Counts(m + n, m + n, m + n, m + n), rest)
    decreases n
  {
    hide NeverCrossed, Rotations;
    if n > 0 {
      var t := PingPong(n - 1, rest);
      Unfold(Counts(m, m, m, m), Send(true, []), [Recv(true)] + ([Send(false, [])] + ([Recv(false)] + t)));
      Unfold(Counts(m + 1, m, m, m), Recv(true), [Send(false, [])] + ([Recv(false)] + t));
      Unfold(Counts(m + 1, m + 1, m, m), Send(false, []), [Recv(false)] + t);
      Unfold(Counts(m + 1, m + 1, m + 1, m), Recv(false), t);
      PingPongCounts(n - 1, m + 1, rest);
    }
  }

  /**
  Full duplex is not always safe: after 500 messages each way, both ends send before
  either reads, everything so far was recovered, and the next read fails.
  */
  lemma FullDuplexFails(ck: Term)
    ensures Inv(Fresh(ck))
    ensures Run(Fresh(ck), PingPong(PER_KEY, [Send(true, [])] + [Send(false, [])])).Some?
    ensures Run(Fresh(ck), PingPong(PER_KEY, [Send(true, [])] + ([Send(false, [])] + ([Recv(true)] + [])))) == None
  {
    hide PingPong, Run, Inv, NeverCrossed;
    FreshInv(ck);
    var two, three := [Send(true, [])] + [Send(false, [])], [Send(true, [])] + ([Send(false, [])] + ([Recv(true)] + []));
    RunExact(Fresh(ck), PingPong(PER_KEY, two));
    RunExact(Fresh(ck), PingPong(PER_KEY, three));
    PingPongCounts(PER_KEY, 0, two);
    PingPongCounts(PER_KEY, 0, three);
    Unfold(Counts(500, 500, 500, 500), Send(true, []), [Send(false, [])]);
    Unfold(Counts(500, 500, 500, 500), Send(true, []), [Send(false, [])] + ([Recv(true)] + []));
    Unfold(Counts(501, 500, 500, 500), Send(false, []), []);
    Unfold(Counts(501, 500, 500, 500), Send(false, []), [Recv(true)] + []);
    Unfold(Counts(501, 500, 501, 500), Recv(true), []);
    assert [Send(false, [])] + [] == [Send(false, [])];
    NothingCrosses(Counts(501, 500, 501, 500));
  }

  lemma NothingCrosses(c: Counts)
    ensures NeverCrossed(c, [])
  {
  }

  // ----- no nonce is reused -----

  /** Frame `j` of a direction holds two encryptions: its length (part 0) and its body (part 1). */
  function Cipher(d: Dir, j: nat, part: nat): (t: Term)
    requires j < |d.frames| && part < 2
  {
    if part == 0 then d.frames[j].head else d.frames[j].body
  }

  lemma {:induction false} KeyFacts(keys: seq<Term>, i: nat)
    requires KeysChain(keys) && i < |keys| && !keys[0].Bytes?
    ensures Root(keys[i]) == Root(keys[0]) && !keys[i].Bytes?
    ensures forall j | 0 <= j < i :: Size(keys[j]) < Size(keys[i])
  {
    if i > 0 { KeyFacts(keys, i - 1); }
  }

  /** Key and nonce of each encryption. */
  lemma CipherIs(d: Dir, j: nat, p: nat)
    requires DirOk(d) && j < |d.frames| && p < 2
    ensures Rotations(j + 1) < |d.keys|
    ensures var x := Cipher(d, j, p);
            x.Aead? && x.key == d.keys[Rotations(j + 1)] && x.nonce == 2 * (j % PER_KEY) + p && Root(x.key) == Root(d.keys[0])
  {
    hide Root, Size;
    RotationsMonotone(j + 1, |d.frames|);
    KeyFacts(d.keys, Rotations(j + 1));
  }

  lemma KeysDiffer(d: Dir, a: nat, b: nat)
    requires DirOk(d) && a < |d.keys| && b < |d.keys| && d.keys[a] == d.keys[b]
    ensures a == b
  {
    hide Root, Size, Rotations;
    KeyFacts(d.keys, a);
    KeyFacts(d.keys, b);
  }

  /** In every reachable state, whatever the schedule, no key encrypts two texts under one nonce. */
  lemma NoncesUnique(s: Sys, j: nat, p: nat, k: nat, q: nat)
    requires Inv(s) && p < 2 && q < 2 && j < |s.d0.frames|
    ensures k < |s.d0.frames| && (j, p) != (k, q) ==>
              var x, y := Cipher(s.d0, j, p), Cipher(s.d0, k, q);
              x.Aead? && y.Aead? && (x.key, x.nonce) != (y.key, y.nonce)
    ensures k < |s.d1.frames| ==>
              var x, y := Cipher(s.d0, j, p), Cipher(s.d1, k, q);
              x.Aead? && y.Aead? && x.key != y.key
  {
    hide DirOk, SenderOk, ReaderOk, CksOk, Root, Rotations, Cipher;
    CipherIs(s.d0, j, p);
    if k < |s.d0.frames| {
      CipherIs(s.d0, k, q);
      SameSlot(j, k);
      var a, b := Rotations(j + 1), Rotations(k + 1);
      if s.d0.keys[a] == s.d0.keys[b] { KeysDiffer(s.d0, a, b); }
    }
    if k < |s.d1.frames| {
      CipherIs(s.d1, k, q);
    }
  }

  lemma SameSlot(j: nat, k: nat)
    ensures Rotations(j + 1) == Rotations(k + 1) && j % PER_KEY == k % PER_KEY ==> j == k
  {
  }

  // ----- the bytes of a stream -----

  /** The sending key and the chaining key after `r` rotations of one direction alone (BOLT #8, section "Lightning Message Key Rotation"). */
  function Rotated(sk: Term, ck: Term, r: nat): (t: (Term, Term)) {
    if r == 0 then (sk, ck)
    else
      var (k, c) := Rotated(sk, ck, r - 1);
      (HkdfK(c, k), HkdfCk(c, k))
  }

  /** An end after writing messages that all fit. */
  function WriteAll(e: End, msgs: seq<Msg>): (r: End)
    requires forall i | 0 <= i < |msgs| :: |msgs[i]| <= MAX_LEN
  {
    if msgs == [] then e else Write(WriteAll(e, msgs[..|msgs| - 1]), msgs[|msgs| - 1]).end
  }

  /** After `n` messages the key has been rotated once for every full 500 before the last of them. */
  lemma {:induction false} WriteAllIs(e: End, msgs: seq<Msg>)
    requires e.sn == 0 && forall i | 0 <= i < |msgs| :: |msgs[i]| <= MAX_LEN
    ensures var n, d := |msgs|, WriteAll(e, msgs);
            var r := if n == 0 then 0 else (n - 1) / 500;
            && (d.sk, d.ck) == Rotated(e.sk, e.ck, r) && d.rk == e.rk && d.rn == e.rn
            && d.sn == if n == 0 then 0 else 2 * ((n - 1) % 500) + 2
  {
    hide FrameOf;
    var n := |msgs|;
    if n > 0 {
      WriteAllIs(e, msgs[..n - 1]);
      if n > 1 { Lifetimes(n); }
    }
  }

  lemma Lifetimes(n: nat)
    requires n > 1
    ensures (n - 1) / 500 == (n - 2) / 500 + (if (n - 2) % 500 == 499 then 1 else 0)
    ensures (n - 1) % 500 == if (n - 2) % 500 == 499 then 0 else (n - 2) % 500 + 1
  {
  }

  /**
  What message number `j` of a direction looks like on the wire: its length, high byte
  first, and its body, under the key of its 500 messages and two nonces of its own.
  */
  lemma StreamIs(e: End, msgs: seq<Msg>)
    requires e.sn == 0 && msgs != [] && forall i | 0 <= i < |msgs| :: |msgs[i]| <= 65535
    ensures var j, m := |msgs| - 1, msgs[|msgs| - 1];
            var k := Rotated(e.sk, e.ck, j / 500).0;
            Write(WriteAll(e, msgs[..j]), m).frame ==
            Frame(Aead(k, 2 * (j % 500), EMPTY, Bytes([|m| / 256, |m| % 256])),
                  Aead(k, 2 * (j % 500) + 1, EMPTY, Bytes(m)), |m| + 34)
  {
    var j := |msgs| - 1;
    WriteAllIs(e, msgs[..j]);
    if j > 0 { Lifetimes(j + 1); }
  }
}
