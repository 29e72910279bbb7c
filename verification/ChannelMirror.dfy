/**
Two ends of one channel.  Matched operations keep them mirror images, the exchange of
revoked secrets and next points keeps each end's point cache complete, and then the
commitment transaction one end builds for the other is the one the other builds itself.
*/
module ChannelMirror {
  import opened Bits
  import opened Wrappers
  import opened Channel
  import opened ChannelLaws
  import T = ChannelTimeouts

  function MirrorOf(c: Chan): (r: Chan) {
    c.(local := c.remote, remote := c.local, htlcs := FlipHtlcs(c.htlcs), ptlcs := FlipPtlcs(c.ptlcs),
       funderIsLocal := !c.funderIsLocal, mine := c.theirs, theirs := c.mine)
  }

  /** Everything but each end's own secrets and what it has learnt of the peer's. */
  predicate IsMirror(a: Chan, b: Chan) {
    b == MirrorOf(a).(secrets := b.secrets, slot0 := b.slot0, slot1 := b.slot1, revoked := b.revoked)
  }

  function FlipOp(op: Op): (r: Op) {
    match op
    case Add(dir, amount, hash, cltv) => Add(Flip(dir), amount, hash, cltv)
    case AddFromWire(dir, msat, hash, cltv, wireId) => AddFromWire(Flip(dir), msat, hash, cltv, wireId)
    case Move(delta) => Move(-delta)
    case _ => op
  }

  // ----- lists under the mirror -----

  function FlipHtlc(h: Htlc): (r: Htlc) {
    h.(direction := Flip(h.direction))
  }

  lemma {:induction false} FindFlip(hs: seq<Htlc>, id: nat)
    ensures Find(FlipHtlcs(hs), id) == Find(hs, id)
  {
    if hs != [] {
      FindFlip(hs[1..], id);
      assert FlipHtlcs(hs)[1..] == FlipHtlcs(hs[1..]);
    }
  }

  lemma FlipAppend(hs: seq<Htlc>, h: Htlc)
    ensures FlipHtlcs(hs + [h]) == FlipHtlcs(hs) + [FlipHtlc(h)]
  {
  }

  lemma {:induction false} CompactFlip(hs: seq<Htlc>)
    ensures Compact(FlipHtlcs(hs)) == FlipHtlcs(Compact(hs))
  {
    hide FlipHtlcs;
    if hs != [] {
      var t, x := hs[..|hs| - 1], hs[|hs| - 1];
      CompactFlip(t);
      assert hs == t + [x];
      FlipAppend(t, x);
      FlipAppend(Compact(t), x);
      var f := FlipHtlcs(t) + [FlipHtlc(x)];
      assert f[..|f| - 1] == FlipHtlcs(t);
      assert Compact(t) + [] == Compact(t);
    }
  }

  lemma FlipUpdate(hs: seq<Htlc>, i: nat, h: Htlc)
    requires i < |hs|
    ensures FlipHtlcs(hs)[i := FlipHtlc(h)] == FlipHtlcs(hs[i := h])
  {
  }

  // ----- one matched operation -----

  lemma SettleMirror(a: Chan, b: Chan, i: nat, toLocal: bool, done: Htlc, ra: Rng, rb: Rng)
    requires IsMirror(a, b) && i < |a.htlcs|
    ensures IsMirror(Settle(a, i, toLocal, done, ra), Settle(b, i, !toLocal, FlipHtlc(done), rb))
  {
    hide Compact, Store, FlipPtlcs, Credit;
    FlipUpdate(a.htlcs, i, done);
    CompactFlip(a.htlcs[i := done]);
    var h := a.htlcs[i];
    CreditMirror(a, b, toLocal, h.amount);
    CreditMirror(Credit(a, toLocal, h.amount), Credit(b, !toLocal, h.amount), a.funderIsLocal, h.fee);
  }

  lemma CreditMirror(a: Chan, b: Chan, toLocal: bool, amount: nat)
    requires IsMirror(a, b)
    ensures var x, y := Credit(a, toLocal, amount), Credit(b, !toLocal, amount);
            IsMirror(x, y) && x == a.(local := x.local, remote := x.remote) && y == b.(local := y.local, remote := y.remote)
  {
    hide FlipHtlcs, FlipPtlcs;
  }

  lemma AddMirror(a: Chan, b: Chan, dir: Direction, amount: nat, hash: Digest, cltv: nat, ra: Rng, rb: Rng)
    requires IsMirror(a, b)
    ensures var x, y := AddHtlc(a, dir, amount, hash, cltv, ra), AddHtlc(b, Flip(dir), amount, hash, cltv, rb);
            (x.Some? <==> y.Some?) && (x.Some? ==> IsMirror(x.value, y.value) && |x.value.htlcs| == |a.htlcs| + 1)
  {
    hide HtlcFee, Store, FlipPtlcs;
    FlipAppend(a.htlcs, Htlc(dir, Active, amount, hash, [], cltv, a.nextId, HtlcFee(a.feeRate)));
  }

  /** The peer adds under the id the first end assigned: the same as a plain add of whole satoshi. */
  lemma WireAddIsAdd(c: Chan, dir: Direction, amount: nat, hash: Digest, cltv: nat, rng: Rng)
    ensures ClientAdd(c, dir, 1000 * amount, hash, cltv, c.nextId, rng) == AddHtlc(c, dir, amount, hash, cltv, rng)
  {
    hide HtlcFee, Store;
    assert 1000 * amount / 1000 == amount;
    var r := AddHtlc(c, dir, amount, hash, cltv, rng);
    if r.Some? {
      var hs := r.value.htlcs;
      var n := |hs| - 1;
      assert hs[n].id == c.nextId && hs[..n] + [hs[n]] == hs;
    }
  }

  /** One end adds, the other is told amount and id over the wire: they stay mirror images. */
  lemma AddOverWire(a: Chan, b: Chan, dir: Direction, amount: nat, hash: Digest, cltv: nat, ra: Rng, rb: Rng)
    requires IsMirror(a, b)
    ensures var over := AddFromWire(Flip(dir), 1000 * amount, hash, cltv, a.nextId);
            && Apply(b, over, rb) == Apply(b, FlipOp(Add(dir, amount, hash, cltv)), rb)
            && IsMirror(Apply(a, Add(dir, amount, hash, cltv), ra), Apply(b, over, rb))
  {
    hide Channel.AddHtlc, ClientAdd, FlipHtlcs, FlipPtlcs;
    WireAddIsAdd(b, Flip(dir), amount, hash, cltv, rb);
    AddMirror(a, b, dir, amount, hash, cltv, ra, rb);
  }

  lemma RenameMirror(a: Chan, b: Chan, wireId: nat)
    requires IsMirror(a, b) && |a.htlcs| > 0
    ensures |b.htlcs| == |a.htlcs|
    ensures var n := |a.htlcs| - 1;
            IsMirror(a.(htlcs := a.htlcs[..n] + [a.htlcs[n].(id := wireId)]),
                     b.(htlcs := b.htlcs[..n] + [b.htlcs[n].(id := wireId)]))
  {
    hide FlipPtlcs;
    var n := |a.htlcs| - 1;
    FlipAppend(a.htlcs[..n], a.htlcs[n].(id := wireId));
    assert FlipHtlcs(a.htlcs)[..n] == FlipHtlcs(a.htlcs[..n]);
  }

  lemma FailMirror(a: Chan, b: Chan, id: nat, ra: Rng, rb: Rng)
    requires IsMirror(a, b)
    ensures var x, y := FailHtlc(a, id, ra), FailHtlc(b, id, rb);
            (x.Some? <==> y.Some?) && (x.Some? ==> IsMirror(x.value, y.value))
  {
    hide Settle, Find, FlipPtlcs;
    FindFlip(a.htlcs, id);
    var i := Find(a.htlcs, id);
    if i < |a.htlcs| {
      SettleMirror(a, b, i, a.htlcs[i].direction == Offered, a.htlcs[i].(state := Failed), ra, rb);
    }
  }

  lemma FulfillMirror(a: Chan, b: Chan, id: nat, preimage: seq<byte>, ra: Rng, rb: Rng)
    requires IsMirror(a, b)
    ensures var x, y := FulfillHtlc(a, id, preimage, ra), FulfillHtlc(b, id, preimage, rb);
            (x.Some? <==> y.Some?) && (x.Some? ==> IsMirror(x.value, y.value))
  {
    hide Settle, Find, FlipPtlcs;
    FindFlip(a.htlcs, id);
    var i := Find(a.htlcs, id);
    if i < |a.htlcs| {
      SettleMirror(a, b, i, a.htlcs[i].direction == Received,
                   a.htlcs[i].(state := Fulfilled, preimage := preimage), ra, rb);
    }
  }

  lemma {:induction false} SweepMirror(a: Chan, b: Chan, i: nat, height: nat, ra: Rng, rb: Rng)
    requires IsMirror(a, b)
    ensures IsMirror(SweepFrom(a, i, height, ra).0, SweepFrom(b, i, height, rb).0)
    ensures SweepFrom(a, i, height, ra).1 == SweepFrom(b, i, height, rb).1
    decreases |a.htlcs| - i
  {
    hide FailHtlc, FlipPtlcs;
    if i < |a.htlcs| {
      assert b.htlcs[i] == FlipHtlc(a.htlcs[i]);
      if Expired(a.htlcs[i], height) {
        var id := a.htlcs[i].id;
        FindSome(a, i, ra);
        FindSome(b, i, rb);
        FailMirror(a, b, id, ra, rb);
        FailShrinks(a, id, ra);
        SweepMirror(FailHtlc(a, id, ra).value, FailHtlc(b, id, rb).value, i + 1, height, ra, rb);
      } else {
        SweepMirror(a, b, i + 1, height, ra, rb);
      }
    }
  }

  lemma FindSome(c: Chan, i: nat, rng: Rng)
    requires i < |c.htlcs| && c.htlcs[i].state == Active
    ensures FailHtlc(c, c.htlcs[i].id, rng).Some?
  {
    FindHits(c.htlcs, i);
  }

  /** Matched operations are accepted or refused together and leave mirror images. */
  lemma MirrorStep(a: Chan, b: Chan, op: Op, ra: Rng, rb: Rng)
    requires IsMirror(a, b)
    ensures Attempt(a, op, ra).Some? <==> Attempt(b, FlipOp(op), rb).Some?
    ensures IsMirror(Apply(a, op, ra), Apply(b, FlipOp(op), rb))
  {
    hide AddHtlc, FulfillHtlc, FailHtlc, Store, FlipHtlcs, FlipPtlcs, SweepFrom;
    match op
    case Add(dir, amount, hash, cltv) => AddMirror(a, b, dir, amount, hash, cltv, ra, rb);
    case AddFromWire(dir, msat, hash, cltv, wireId) =>
      AddMirror(a, b, dir, msat / 1000, hash, cltv, ra, rb);
      var x, y := AddHtlc(a, dir, msat / 1000, hash, cltv, ra), AddHtlc(b, Flip(dir), msat / 1000, hash, cltv, rb);
      if x.Some? { RenameMirror(x.value, y.value, wireId); }
    case Fulfill(id, preimage) => FulfillMirror(a, b, id, preimage, ra, rb);
    case Fail(id) => FailMirror(a, b, id, ra, rb);
    case Move(delta) =>
    case FeeRate(rate) =>
    case Freeze(on) =>
    case Timeouts(height) =>
      SweepMirror(a.(lastHeight := height), b.(lastHeight := height), 0, height, ra, rb);
  }

  // ----- the two views of the commitment transaction -----

  lemma {:induction false} HtlcOutputsSame(c: Chan, d: Chan, pcp: Point, hs: seq<Htlc>)
    requires c.mine.htlc == d.mine.htlc && c.theirs.htlc == d.theirs.htlc
    requires c.delay == d.delay && c.theirs.revocation == d.theirs.revocation
    ensures HtlcOutputs(c, pcp, hs) == HtlcOutputs(d, pcp, hs)
  {
    if hs != [] { HtlcOutputsSame(c, d, pcp, hs[..|hs| - 1]); }
  }

  lemma {:induction false} PtlcOutputsSame(c: Chan, d: Chan, pcp: Point, ps: seq<Ptlc>)
    requires c.mine.htlc == d.mine.htlc && c.theirs.htlc == d.theirs.htlc
    requires c.delay == d.delay && c.theirs.revocation == d.theirs.revocation
    ensures PtlcOutputs(c, pcp, ps) == PtlcOutputs(d, pcp, ps)
  {
    if ps != [] { PtlcOutputsSame(c, d, pcp, ps[..|ps| - 1]); }
  }

  /** The swapped copy builds, output by output and in order, what the other end builds. */
  lemma RemoteViewMirrors(a: Chan, b: Chan, pcp: Point)
    requires IsMirror(a, b)
    ensures Commitment(RemoteView(a), pcp) == Commitment(b, pcp)
  {
    hide HtlcOutputs, PtlcOutputs, FlipHtlcs, FlipPtlcs;
    HtlcOutputsSame(RemoteView(a), b, pcp, b.htlcs);
    PtlcOutputsSame(RemoteView(a), b, pcp, b.ptlcs);
  }

  // ----- the cache of the peer's points -----

  /** Slots hold the points of the current and the next commitment, secrets are stored for all before. */
  predicate CacheOk(c: Chan, peer: seq<Secret>) {
    var k := c.commitment;
    && k + 2 <= |peer|
    && c.slot0.Held? && c.slot1.Held?
    && ((c.slot0.num == k && c.slot1.num == k + 1) || (c.slot0.num == k + 1 && c.slot1.num == k))
    && c.slot0.point == PointOf(peer[c.slot0.num]) && c.slot1.point == PointOf(peer[c.slot1.num])
    && forall n | 0 <= n < k :: n in c.revoked && c.revoked[n] == peer[n]
  }

  /** Two slots and the stored secrets answer like a map of every point received so far, and of no other. */
  lemma CacheIsFullMap(c: Chan, peer: seq<Secret>, n: nat)
    requires CacheOk(c, peer)
    ensures GetRemotePcp(c, n) ==
              if n <= c.commitment + 1 then Some(PointOf(peer[n]))
              else None
  {
  }

  /** At set-up the points of commitments 0 and 1 arrive. */
  function Introduce(c: Chan, peer: seq<Secret>): (r: Chan)
    requires |peer| >= 2
  {
    SetRemotePcp(SetRemotePcp(c, 0, PointOf(peer[0])), 1, PointOf(peer[1]))
  }

  lemma CacheStarts(c: Chan, peer: seq<Secret>)
    requires c.commitment == 0 && c.slot0.Empty? && c.slot1.Empty? && |peer| >= 2
    ensures CacheOk(Introduce(c, peer), peer)
    ensures Introduce(c, peer) == c.(slot0 := Held(0, PointOf(peer[0])), slot1 := Held(1, PointOf(peer[1])))
  {
  }

  /** revoke_and_ack: the secret of the commitment just left, and the point of the next one. */
  function TakeRevocation(c: Chan, peer: seq<Secret>): (r: Chan)
    requires c.commitment > 0 && c.commitment + 1 < |peer|
  {
    SetRemotePcp(ReceiveRevocation(c, c.commitment - 1, peer[c.commitment - 1]),
                 c.commitment + 1, PointOf(peer[c.commitment + 1]))
  }

  lemma CacheAdvances(c: Chan, d: Chan, peer: seq<Secret>, more: seq<Secret>)
    requires CacheOk(c, peer) && peer <= more && c.commitment + 3 <= |more|
    requires d.commitment == c.commitment + 1
    requires d.slot0 == c.slot0 && d.slot1 == c.slot1 && d.revoked == c.revoked
    ensures CacheOk(TakeRevocation(d, more), more)
    ensures GetRemotePcp(d, d.commitment) == Some(PointOf(more[d.commitment]))
  {
    hide Store;
  }

  // ----- both ends together -----

  datatype Pair = Pair(a: Chan, b: Chan)

  predicate PairOk(p: Pair) {
    && IsMirror(p.a, p.b) && Shaped(p.a) && Shaped(p.b)
    && CacheOk(p.a, p.b.secrets) && CacheOk(p.b, p.a.secrets)
  }

  /** Two new mirror-image channels, once their first points are exchanged, are such a pair. */
  lemma PairStarts(a: Chan, b: Chan)
    requires IsMirror(a, b) && Shaped(a) && Shaped(b) && a.commitment == 0
    requires a.slot0.Empty? && a.slot1.Empty? && b.slot0.Empty? && b.slot1.Empty?
    ensures PairOk(Pair(Introduce(a, b.secrets), Introduce(b, a.secrets)))
  {
    hide Introduce, CacheOk;
    CacheStarts(a, b.secrets);
    CacheStarts(b, a.secrets);
  }

  /** How many entries a sweep will fail, from the list and the height alone. */
  function Failing(c: Chan, height: nat): (n: int) {
    if height < c.lastHeight then 0 else |c.htlcs| - |T.Survivors(c.htlcs, height)|
  }

  lemma FailingIs(c: Chan, height: nat, rng: Rng)
    requires Shaped(c)
    ensures CheckTimeouts(c, height, rng).1 == Failing(c, height)
  {
    hide CheckTimeouts, Shaped;
    T.SweepResult(c, height, rng);
  }

  lemma FailingMirror(a: Chan, b: Chan, height: nat, ra: Rng, rb: Rng)
    requires IsMirror(a, b) && Shaped(a) && Shaped(b)
    ensures Failing(b, height) == Failing(a, height)
  {
    hide SweepFrom, FlipHtlcs, FlipPtlcs, Failing, ShownActive;
    FailingIs(a, height, ra);
    FailingIs(b, height, rb);
    if height >= a.lastHeight {
      SweepMirror(a.(lastHeight := height), b.(lastHeight := height), 0, height, ra, rb);
    }
  }

  /** The operation makes at most one commitment: a sweep fails at most one entry. */
  predicate InStep(c: Chan, op: Op) {
    op.Timeouts? ==> Failing(c, op.height) <= 1
  }

  datatype PairStep = PairStep(op: Op, ra: Rng, rb: Rng)

  /** Both ends perform the matched operation; if it made a new commitment, they exchange revocations. */
  function Both(p: Pair, s: PairStep): (r: Pair)
    requires PairOk(p) && InStep(p.a, s.op)
  {
    var a, b := Apply(p.a, s.op, s.ra), Apply(p.b, FlipOp(s.op), s.rb);
    BothLearn(p, s);
    if a.commitment == p.a.commitment then Pair(a, b)
    else Pair(TakeRevocation(a, b.secrets), TakeRevocation(b, a.secrets))
  }

  predicate SameLearnt(c: Chan, d: Chan) {
    d.slot0 == c.slot0 && d.slot1 == c.slot1 && d.revoked == c.revoked
  }

  lemma AddLearnt(c: Chan, dir: Direction, amount: nat, hash: Digest, cltv: nat, rng: Rng)
    ensures var r := AddHtlc(c, dir, amount, hash, cltv, rng); r.Some? ==> SameLearnt(c, r.value)
  {
    hide Store, HtlcFee;
  }

  lemma SettleLearnt(c: Chan, i: nat, toLocal: bool, done: Htlc, rng: Rng)
    requires i < |c.htlcs|
    ensures var d := Settle(c, i, toLocal, done, rng);
            SameLearnt(c, d) && d.commitment == c.commitment + 1 && d.frozen == c.frozen
  {
    hide Store, Compact;
  }

  /** A sweep learns nothing and makes one commitment for each entry it fails. */
  lemma {:induction false} SweepLearnt(c: Chan, i: nat, height: nat, rng: Rng)
    ensures var r := SweepFrom(c, i, height, rng);
            SameLearnt(c, r.0) && r.0.commitment == c.commitment + r.1 && r.0.frozen == c.frozen
    decreases |c.htlcs| - i
  {
    hide Settle, Find;
    if i >= |c.htlcs| {
    } else if Expired(c.htlcs[i], height) {
      FindHits(c.htlcs, i);
      FailShrinks(c, c.htlcs[i].id, rng);
      var k := Find(c.htlcs, c.htlcs[i].id);
      SettleLearnt(c, k, c.htlcs[k].direction == Offered, c.htlcs[k].(state := Failed), rng);
      SweepLearnt(FailHtlc(c, c.htlcs[i].id, rng).value, i + 1, height, rng);
    } else {
      SweepLearnt(c, i + 1, height, rng);
    }
  }

  lemma LearntKept(c: Chan, op: Op, rng: Rng)
    ensures SameLearnt(c, Apply(c, op, rng))
  {
    hide AddHtlc, Settle, Store, SweepFrom;
    match op
    case Add(dir, amount, hash, cltv) => AddLearnt(c, dir, amount, hash, cltv, rng);
    case AddFromWire(dir, msat, hash, cltv, _) => AddLearnt(c, dir, msat / 1000, hash, cltv, rng);
    case Fulfill(id, preimage) =>
      var i := Find(c.htlcs, id);
      if i < |c.htlcs| {
        SettleLearnt(c, i, c.htlcs[i].direction == Received, c.htlcs[i].(state := Fulfilled, preimage := preimage), rng);
      }
    case Fail(id) =>
      var i := Find(c.htlcs, id);
      if i < |c.htlcs| { SettleLearnt(c, i, c.htlcs[i].direction == Offered, c.htlcs[i].(state := Failed), rng); }
    case Timeouts(height) => SweepLearnt(c.(lastHeight := height), 0, height, rng);
    case _ =>
  }

  lemma SweepCommitments(c: Chan, height: nat, rng: Rng)
    requires Shaped(c)
    ensures var d := Apply(c, Timeouts(height), rng);
            d.commitment == c.commitment + Failing(c, height) && d.frozen == c.frozen
  {
    hide SweepFrom, Failing, ShownActive;
    FailingIs(c, height, rng);
    SweepLearnt(c.(lastHeight := height), 0, height, rng);
  }

  lemma CommitmentBy1(c: Chan, op: Op, rng: Rng)
    requires Shaped(c) && InStep(c, op)
    ensures var d := Apply(c, op, rng);
            Shaped(d) && Extends(c, d) && (d.commitment == c.commitment || d.commitment == c.commitment + 1)
  {
    hide Settle, AddHtlc, Store, Compact, SweepFrom, ShownActive, Failing;
    ShapeStep(c, op, rng);
    if op.Timeouts? { SweepCommitments(c, op.height, rng); }
  }

  lemma BothLearn(p: Pair, s: PairStep)
    requires PairOk(p) && InStep(p.a, s.op)
    ensures var a, b := Apply(p.a, s.op, s.ra), Apply(p.b, FlipOp(s.op), s.rb);
            && IsMirror(a, b) && a.commitment == b.commitment && Shaped(a) && Shaped(b)
            && a.commitment + 1 < |a.secrets| && b.commitment + 1 < |b.secrets|
            && (a.commitment != p.a.commitment ==>
                  a.commitment > 0 && CacheOk(TakeRevocation(a, b.secrets), b.secrets)
                  && CacheOk(TakeRevocation(b, a.secrets), a.secrets))
            && (a.commitment == p.a.commitment ==> CacheOk(a, b.secrets) && CacheOk(b, a.secrets))
            && GetRemotePcp(a, a.commitment) == Some(PointOf(b.secrets[b.commitment]))
            && GetRemotePcp(b, b.commitment) == Some(PointOf(a.secrets[a.commitment]))
  {
    hide Apply, TakeRevocation, GetRemotePcp, Failing;
    var a, b := Apply(p.a, s.op, s.ra), Apply(p.b, FlipOp(s.op), s.rb);
    MirrorStep(p.a, p.b, s.op, s.ra, s.rb);
    CommitmentBy1(p.a, s.op, s.ra);
    if s.op.Timeouts? { FailingMirror(p.a, p.b, s.op.height, s.ra, s.rb); }
    CommitmentBy1(p.b, FlipOp(s.op), s.rb);
    LearntKept(p.a, s.op, s.ra);
    LearntKept(p.b, FlipOp(s.op), s.rb);
    if a.commitment == p.a.commitment {
      CacheIsFullMap(a, b.secrets, a.commitment);
      CacheIsFullMap(b, a.secrets, b.commitment);
    } else {
      CacheAdvances(p.a, a, p.b.secrets, b.secrets);
      CacheAdvances(p.b, b, p.a.secrets, a.secrets);
    }
  }

  lemma RevocationKeepsMirror(a: Chan, b: Chan)
    requires IsMirror(a, b) && a.commitment > 0 && a.commitment + 1 < |a.secrets| && b.commitment + 1 < |b.secrets|
    ensures b.commitment == a.commitment
    ensures var x, y := TakeRevocation(a, b.secrets), TakeRevocation(b, a.secrets);
            IsMirror(x, y) && (Shaped(a) ==> Shaped(x)) && (Shaped(b) ==> Shaped(y))
            && x.secrets == a.secrets && y.secrets == b.secrets
  {
    hide FlipHtlcs, FlipPtlcs, ShownActive;
  }

  /** In step, the ends agree on both commitment transactions, unless the funding is frozen. */
  predicate SameTransactions(a: Chan, b: Chan) {
    !a.frozen ==> Build(b).Some? && BuildForRemote(a) == Build(b) && Build(a).Some? && BuildForRemote(b) == Build(a)
  }

  lemma MirrorSymmetric(a: Chan, b: Chan)
    requires IsMirror(a, b)
    ensures IsMirror(b, a)
  {
    assert FlipHtlcs(FlipHtlcs(a.htlcs)) == a.htlcs;
    assert FlipPtlcs(FlipPtlcs(a.ptlcs)) == a.ptlcs;
  }

  lemma AgreeWhenKnown(a: Chan, b: Chan)
    requires IsMirror(a, b) && a.commitment < |a.secrets| && b.commitment < |b.secrets|
    requires GetRemotePcp(a, a.commitment) == Some(PointOf(b.secrets[b.commitment]))
    requires GetRemotePcp(b, b.commitment) == Some(PointOf(a.secrets[a.commitment]))
    ensures SameTransactions(a, b)
  {
    hide Commitment, RemoteView, GetRemotePcp, FlipHtlcs, FlipPtlcs;
    RemoteViewMirrors(a, b, PointOf(b.secrets[b.commitment]));
    MirrorSymmetric(a, b);
    RemoteViewMirrors(b, a, PointOf(a.secrets[a.commitment]));
  }

  /** After the operation and after the exchange alike, both ends would sign the same transactions. */
  lemma PairStepOk(p: Pair, s: PairStep)
    requires PairOk(p) && InStep(p.a, s.op)
    ensures PairOk(Both(p, s))
    ensures SameTransactions(Apply(p.a, s.op, s.ra), Apply(p.b, FlipOp(s.op), s.rb))
    ensures SameTransactions(Both(p, s).a, Both(p, s).b)
  {
    hide IsMirror, CacheOk, Shaped, SameTransactions, Apply, TakeRevocation, GetRemotePcp;
    BothLearn(p, s);
    var a, b := Apply(p.a, s.op, s.ra), Apply(p.b, FlipOp(s.op), s.rb);
    AgreeWhenKnown(a, b);
    if a.commitment != p.a.commitment {
      RevocationKeepsMirror(a, b);
    }
    PairAgrees(Both(p, s));
  }

  lemma PairAgrees(p: Pair)
    requires PairOk(p)
    ensures SameTransactions(p.a, p.b)
  {
    hide GetRemotePcp, SameTransactions, ShownActive, FlipHtlcs, FlipPtlcs;
    CacheIsFullMap(p.a, p.b.secrets, p.a.commitment);
    CacheIsFullMap(p.b, p.a.secrets, p.b.commitment);
    AgreeWhenKnown(p.a, p.b);
  }

  /** No sweep of the run fails two entries at once. */
  predicate StaysInStep(p: Pair, steps: seq<PairStep>)
    requires PairOk(p)
    decreases |steps|
  {
    steps == [] ||
    (InStep(p.a, steps[0].op) &&
     (PairStepOk(p, steps[0]); StaysInStep(Both(p, steps[0]), steps[1..])))
  }

  function RunBoth(p: Pair, steps: seq<PairStep>): (r: Pair)
    requires PairOk(p) && StaysInStep(p, steps)
    decreases |steps|
  {
    if steps == [] then p
    else
      PairStepOk(p, steps[0]);
      RunBoth(Both(p, steps[0]), steps[1..])
  }

  /**
  Over every run of matched operations with their exchanges the ends stay mirror images,
  each knows every point the other has announced, and both build the same transactions.
  */
  lemma {:induction false} PairRun(p: Pair, steps: seq<PairStep>)
    requires PairOk(p) && StaysInStep(p, steps)
    ensures var q := RunBoth(p, steps);
            && IsMirror(q.a, q.b) && SameTransactions(q.a, q.b)
            && KnowsPoints(q.a, q.b.secrets) && KnowsPoints(q.b, q.a.secrets)
    decreases |steps|
  {
    hide PairOk, SameTransactions, Both, KnowsPoints, InStep;
    if steps == [] {
      PairKnows(p);
    } else {
      PairStepOk(p, steps[0]);
      PairRun(Both(p, steps[0]), steps[1..]);
    }
  }

  lemma PairKnows(p: Pair)
    requires PairOk(p)
    ensures IsMirror(p.a, p.b) && SameTransactions(p.a, p.b)
    ensures KnowsPoints(p.a, p.b.secrets) && KnowsPoints(p.b, p.a.secrets)
  {
    hide IsMirror, CacheOk, Shaped, SameTransactions, KnowsPoints;
    PairAgrees(p);
    CacheKnows(p.a, p.b.secrets);
    CacheKnows(p.b, p.a.secrets);
  }

  /**
  After a matched sweep, before any exchange, the ends still agree on both transactions
  exactly when the sweep fails at most one entry: past two, neither has the other's point.
  */
  lemma SweepAgreesExactly(p: Pair, height: nat, ra: Rng, rb: Rng)
    requires PairOk(p) && !p.a.frozen
    ensures SameTransactions(Apply(p.a, Timeouts(height), ra), Apply(p.b, Timeouts(height), rb)) <==>
            Failing(p.a, height) <= 1
  {
    hide Apply, Failing, ShownActive, FlipHtlcs, FlipPtlcs;
    if Failing(p.a, height) <= 1 {
      PairStepOk(p, PairStep(Timeouts(height), ra, rb));
    } else {
      var d := Apply(p.a, Timeouts(height), ra);
      SweepCommitments(p.a, height, ra);
      LearntKept(p.a, Timeouts(height), ra);
      assert GetRemotePcp(d, d.commitment) == None;
    }
  }

  /** Every point announced so far is answered, current and next commitment included. */
  ghost predicate KnowsPoints(c: Chan, peer: seq<Secret>) {
    && c.commitment + 1 < |peer|
    && forall n: nat :: n <= c.commitment + 1 ==> GetRemotePcp(c, n) == Some(PointOf(peer[n]))
  }

  lemma CacheKnows(c: Chan, peer: seq<Secret>)
    requires CacheOk(c, peer)
    ensures KnowsPoints(c, peer)
  {
    hide GetRemotePcp;
    forall n: nat | n <= c.commitment + 1
      ensures GetRemotePcp(c, n) == Some(PointOf(peer[n]))
    {
      CacheIsFullMap(c, peer, n);
    }
  }
}
