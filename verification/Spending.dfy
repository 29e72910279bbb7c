/**
Who can spend the outputs of a commitment transaction, and when (src/channel.c:602-847
with src/tapscript.c): what a party takes from it, before and after it is revoked.
*/
module Spending {
  import opened Bits
  import opened Wrappers
  import opened Channel
  import opened ChannelLaws
  import opened Tapscript
  import Mirror = ChannelMirror

  // ----- the chain -----

  /** The tip's height and median time, and how long the output has been confirmed: in blocks and in units of 512 seconds. */
  datatype Moment = Moment(height: nat, time: nat, age: nat, elapsed: nat)

  /** The next block may hold the transaction: its lock time has come, and its input is old enough. */
  predicate Final(tx: Spend, m: Moment) {
    tx.sequence == SEQUENCE_FINAL || (if tx.lockTime < LOCKTIME_THRESHOLD then tx.lockTime <= m.height else tx.lockTime < m.time)
  }

  predicate Aged(tx: Spend, m: Moment) {
    tx.version < 2 || Bit(tx.sequence, DISABLE) ||
    tx.sequence % U16 <= (if Bit(tx.sequence, BY_TIME) then m.elapsed else m.age)
  }

  predicate Ripe(n: nat, m: Moment) {
    if n < LOCKTIME_THRESHOLD then n <= m.height else n < m.time
  }

  predicate Rested(n: nat, m: Moment) {
    Bit(n, DISABLE) || n % U16 <= (if Bit(n, BY_TIME) then m.elapsed else m.age)
  }

  /** What a lock of either kind comes to, in blocks, for heights and delays within range. */
  lemma LocksInBlocks(cltv: nat, delay: nat, m: Moment)
    requires cltv < LOCKTIME_THRESHOLD && delay < U16
    ensures Ripe(cltv, m) <==> m.height >= cltv
    ensures Rested(delay, m) <==> m.age >= delay
  {
  }

  /** A delay means that many blocks at every moment exactly when it is below 2^16. */
  lemma DelayExactly(delay: u32)
    ensures (forall m: Moment :: Rested(delay, m) <==> m.age >= delay) <==> delay < U16
  {
    if delay >= U16 {
      var m := Moment(0, 0, delay % U16, delay % U16);
      assert Rested(delay, m) && m.age < delay;
    }
  }

  // ----- parties -----

  /** Secret keys of basepoints, per-commitment secrets and payment preimages that a party knows. */
  datatype Party = Party(bases: set<nat>, secrets: set<Secret>, preimages: set<seq<byte>>)

  /** A derived key takes the basepoint's secret; a revocation key takes that and the per-commitment secret. */
  predicate Controls(p: Party, key: Point) {
    match key
    case Basepoint(id) => id in p.bases
    case PointOf(secret) => secret in p.secrets
    case DerivedKey(base, _) => Controls(p, base)
    case RevocationKey(base, pcp) => Controls(p, base) && Controls(p, pcp)
  }

  /** A witness the party can make. */
  predicate CanMake(p: Party, w: seq<Item>) {
    forall i | 0 <= i < |w| :: match w[i] case Sig(k) => Controls(p, k) case Data(b) => b in p.preimages case _ => false
  }

  ghost predicate CanOpen(p: Party, leaf: Leaf, m: Moment) {
    exists w: seq<Item>, tx: Spend :: CanMake(p, w) && Opens(leaf, w, tx) && Final(tx, m) && Aged(tx, m)
  }

  /** By the output key, or through one of the leaves. */
  ghost predicate CanSpend(p: Party, s: Script, m: Moment) {
    match s
    case KeyPath(key) => Controls(p, key)
    case Taptree(internal, leaves) => Controls(p, internal) || exists i | 0 <= i < |leaves| :: CanOpen(p, leaves[i], m)
  }

  predicate Knows(p: Party, hash: LeafHash) {
    exists b | b in p.preimages :: |b| == 32 && OfDigest(Sha256(b)) == hash
  }

  // ----- one leaf -----

  /** The leaf's locks are over. */
  predicate Over(leaf: Leaf, m: Moment) {
    match leaf
    case CsvDelay(delay, _) => Rested(delay, m)
    case RevocationCheck(_) => true
    case OfferedSuccess(_, _) => true
    case OfferedTimeout(cltv, delay, _) => Ripe(cltv, m) && Rested(delay, m)
    case ReceivedSuccess(_, delay, _) => Rested(delay, m)
    case ReceivedTimeout(cltv, _) => Ripe(cltv, m)
  }

  /** A transaction that meets a height or time and a delay. */
  function Meeting(cltv: u32, delay: u32): (tx: Spend) {
    Spend(2, cltv, if Bit(delay, DISABLE) then DISABLE else delay)
  }

  lemma BitOfDisable()
    ensures Bit(DISABLE, DISABLE)
  {
  }

  lemma MeetingMeets(cltv: u32, delay: u32, m: Moment)
    requires Ripe(cltv, m) && Rested(delay, m)
    ensures var tx := Meeting(cltv, delay); CltvHolds(cltv, tx) && CsvHolds(delay, tx) && Final(tx, m) && Aged(tx, m)
  {
    BitOfDisable();
    assert Bit(SEQUENCE_FINAL, DISABLE);
  }

  /** And no transaction that may be mined meets them sooner. */
  lemma NotSooner(n: nat, tx: Spend, m: Moment)
    requires Final(tx, m) && Aged(tx, m)
    ensures CltvHolds(n, tx) ==> Ripe(n, m)
    ensures CsvHolds(n, tx) ==> Rested(n, m)
  {
    hide Bit;
  }

  /** A party opens a leaf exactly when it controls the key, knows the preimage if there is a hash, and the locks are over. */
  lemma CanOpenExactly(p: Party, leaf: Leaf, m: Moment)
    requires Narrow(leaf)
    ensures CanOpen(p, leaf, m) <==> Controls(p, leaf.key) && (Hashed(leaf) ==> Knows(p, leaf.hash)) && Over(leaf, m)
  {
    hide Opens, Final, Aged, Ripe, Rested, CltvHolds, CsvHolds, Controls;
    if CanOpen(p, leaf, m) {
      var w: seq<Item>, tx: Spend :| CanMake(p, w) && Opens(leaf, w, tx) && Final(tx, m) && Aged(tx, m);
      OpensExactly(leaf, w, tx);
      OverSooner(leaf, tx, m);
      assert w[0] == Sig(leaf.key);
      if Hashed(leaf) { assert w[1].bytes in p.preimages; }
    }
    if Controls(p, leaf.key) && (Hashed(leaf) ==> Knows(p, leaf.hash)) && Over(leaf, m) {
      var tx := OverMeets(leaf, m);
      if Hashed(leaf) {
        var b :| b in p.preimages && |b| == 32 && OfDigest(Sha256(b)) == leaf.hash;
        var w := [Sig(leaf.key), Data(b)];
        OpensExactly(leaf, w, tx);
        assert CanMake(p, w) && Opens(leaf, w, tx);
      } else {
        var w := [Sig(leaf.key)];
        OpensExactly(leaf, w, tx);
        assert CanMake(p, w) && Opens(leaf, w, tx);
      }
    }
  }

  lemma OverSooner(leaf: Leaf, tx: Spend, m: Moment)
    requires LocksHold(leaf, tx) && Final(tx, m) && Aged(tx, m)
    ensures Over(leaf, m)
  {
    hide Final, Aged, Ripe, Rested, CltvHolds, CsvHolds;
    match leaf
    case CsvDelay(delay, _) => NotSooner(delay, tx, m);
    case OfferedTimeout(cltv, delay, _) => NotSooner(cltv, tx, m); NotSooner(delay, tx, m);
    case ReceivedSuccess(_, delay, _) => NotSooner(delay, tx, m);
    case ReceivedTimeout(cltv, _) => NotSooner(cltv, tx, m);
    case _ =>
  }

  lemma OverMeets(leaf: Leaf, m: Moment) returns (tx: Spend)
    requires Narrow(leaf) && Over(leaf, m)
    ensures LocksHold(leaf, tx) && Final(tx, m) && Aged(tx, m)
  {
    assert Ripe(0, m) && Rested(0, m);
    hide Final, Aged, Ripe, Rested, CltvHolds, CsvHolds;
    var cltv := if leaf.OfferedTimeout? || leaf.ReceivedTimeout? then leaf.cltv else 0;
    var delay := if leaf.CsvDelay? || leaf.OfferedTimeout? || leaf.ReceivedSuccess? then leaf.delay else 0;
    tx := Meeting(cltv, delay);
    MeetingMeets(cltv, delay, m);
  }

  // ----- the outputs -----

  predicate NarrowChan(c: Chan) {
    && c.delay < U32
    && (forall i | 0 <= i < |c.htlcs| :: c.htlcs[i].cltv < U32)
    && (forall i | 0 <= i < |c.ptlcs| :: c.ptlcs[i].cltv < U32)
  }

  lemma TwoLeaves(p: Party, internal: Point, a: Leaf, b: Leaf, m: Moment)
    ensures CanSpend(p, Taptree(internal, [a, b]), m) <==> Controls(p, internal) || CanOpen(p, a, m) || CanOpen(p, b, m)
  {
    hide CanOpen, Controls;
    var leaves := [a, b];
    assert leaves[0] == a && leaves[1] == b;
  }

  /**
  An HTLC this side offered: the peer takes it with the preimage, the owner of the
  transaction takes it back after expiry and delay, the holder of the revocation key at once.
  */
  lemma OfferedExactly(c: Chan, pcp: Point, h: Htlc, p: Party, m: Moment)
    requires h.direction == Offered && h.cltv < U32 && c.delay < U32
    ensures CanSpend(p, HtlcOutput(c, pcp, h).script, m) <==>
            || Controls(p, RevocationKey(c.theirs.revocation, pcp))
            || (Controls(p, c.theirs.htlc) && Knows(p, OfDigest(h.hash)))
            || (Controls(p, c.mine.htlc) && Ripe(h.cltv, m) && Rested(c.delay, m))
    ensures HtlcOutput(c, pcp, h).amount == h.amount
  {
    hide CanSpend, CanOpen, Knows, Ripe, Rested;
    var leaves := HtlcOutput(c, pcp, h).script.leaves;
    assert leaves == [leaves[0], leaves[1]];
    TwoLeaves(p, RevocationKey(c.theirs.revocation, pcp), leaves[0], leaves[1], m);
    CanOpenExactly(p, leaves[0], m);
    CanOpenExactly(p, leaves[1], m);
  }

  /** An HTLC it was offered: the owner takes it with the preimage after the delay, the peer takes it back after expiry. */
  lemma ReceivedExactly(c: Chan, pcp: Point, h: Htlc, p: Party, m: Moment)
    requires h.direction == Received && h.cltv < U32 && c.delay < U32
    ensures CanSpend(p, HtlcOutput(c, pcp, h).script, m) <==>
            || Controls(p, RevocationKey(c.theirs.revocation, pcp))
            || (Controls(p, c.mine.htlc) && Knows(p, OfDigest(h.hash)) && Rested(c.delay, m))
            || (Controls(p, c.theirs.htlc) && Ripe(h.cltv, m))
    ensures HtlcOutput(c, pcp, h).amount == h.amount
  {
    hide CanSpend, CanOpen, Knows, Ripe, Rested;
    var leaves := HtlcOutput(c, pcp, h).script.leaves;
    assert leaves == [leaves[0], leaves[1]];
    TwoLeaves(p, RevocationKey(c.theirs.revocation, pcp), leaves[0], leaves[1], m);
    CanOpenExactly(p, leaves[0], m);
    CanOpenExactly(p, leaves[1], m);
  }

  /**
  A PTLC's success leaf asks for a preimage of the payment point's own encoding, which the
  holder of the point's secret does not have: only the timeout and the revocation key are left.
  */
  lemma PtlcExactly(c: Chan, pcp: Point, t: Ptlc, p: Party, m: Moment)
    requires t.cltv < U32 && c.delay < U32
    ensures CanSpend(p, PtlcOutput(c, pcp, t).script, m) <==>
            || Controls(p, RevocationKey(c.theirs.revocation, pcp))
            || (t.direction == Offered && Controls(p, c.mine.htlc) && Ripe(t.cltv, m) && Rested(c.delay, m))
            || (t.direction == Received && Controls(p, c.theirs.htlc) && Ripe(t.cltv, m))
    ensures PtlcOutput(c, pcp, t).amount == t.amount
  {
    hide CanSpend, CanOpen, Ripe, Rested;
    var leaves := PtlcOutput(c, pcp, t).script.leaves;
    assert leaves == [leaves[0], leaves[1]];
    TwoLeaves(p, RevocationKey(c.theirs.revocation, pcp), leaves[0], leaves[1], m);
    CanOpenExactly(p, leaves[0], m);
    CanOpenExactly(p, leaves[1], m);
    assert !Knows(p, OfPoint(t.point));
  }

  /** The claim that channel_build_ptlc_success_tx signs, a signature and no preimage, opens no success leaf of a PTLC. */
  lemma PtlcClaimFails(c: Chan, pcp: Point, t: Ptlc, tx: Spend)
    requires t.cltv < U32 && c.delay < U32
    ensures var leaf := PtlcOutput(c, pcp, t).script.leaves[0];
            Hashed(leaf) && !Opens(leaf, [Sig(leaf.key)], tx)
  {
    hide Opens, LocksHold;
    var leaf := PtlcOutput(c, pcp, t).script.leaves[0];
    OpensExactly(leaf, [Sig(leaf.key)], tx);
  }

  /** The owner's own balance: after the delay, or by the revocation key at once. */
  lemma ToLocalExactly(c: Chan, pcp: Point, p: Party, m: Moment)
    requires c.delay < U32
    ensures CanSpend(p, ToLocal(c, pcp).script, m) <==>
            || Controls(p, RevocationKey(c.theirs.revocation, pcp))
            || (Controls(p, c.mine.delayed) && Rested(c.delay, m))
    ensures ToLocal(c, pcp).amount == c.local
  {
    hide CanOpen, Rested;
    var leaves := ToLocal(c, pcp).script.leaves;
    CanOpenExactly(p, leaves[0], m);
    if c.revocationLeaf { CanOpenExactly(p, leaves[1], m); }
  }

  /** The peer's balance: by the peer's payment key, at once. */
  lemma ToRemoteExactly(c: Chan, pcp: Point, p: Party, m: Moment)
    ensures CanSpend(p, ToRemote(c, pcp).script, m) <==> Controls(p, c.theirs.payment)
    ensures ToRemote(c, pcp).amount == c.remote
  {
  }

  // ----- what a party takes -----

  ghost function Takes(p: Party, outs: seq<Output>, m: Moment): (n: nat) {
    if outs == [] then 0
    else Takes(p, outs[..|outs| - 1], m) + if CanSpend(p, outs[|outs| - 1].script, m) then outs[|outs| - 1].amount else 0
  }

  lemma {:induction false} TakesJoin(p: Party, a: seq<Output>, b: seq<Output>, m: Moment)
    ensures Takes(p, a + b, m) == Takes(p, a, m) + Takes(p, b, m)
    decreases |b|
  {
    hide CanSpend;
    if b == [] {
      assert a + b == a;
    } else {
      var n := |b| - 1;
      TakesJoin(p, a, b[..n], m);
      assert (a + b)[..|a + b| - 1] == a + b[..n];
    }
  }

  /** The owner of the transaction: its own keys, none of the peer's. */
  predicate Owner(p: Party, c: Chan) {
    && Controls(p, c.mine.delayed) && Controls(p, c.mine.htlc)
    && !Controls(p, c.theirs.revocation) && !Controls(p, c.theirs.payment) && !Controls(p, c.theirs.htlc)
  }

  /** The peer: its own keys, none of the owner's, and not the secret of this commitment. */
  predicate Peer(p: Party, c: Chan, pcp: Point) {
    && Controls(p, c.theirs.revocation) && Controls(p, c.theirs.payment) && Controls(p, c.theirs.htlc)
    && !Controls(p, c.mine.delayed) && !Controls(p, c.mine.htlc) && !Controls(p, pcp)
  }

  /** What the owner is due of one HTLC at a moment: its own offer back, or one it can claim. */
  predicate OwnerDue(p: Party, c: Chan, h: Htlc, m: Moment) {
    Rested(c.delay, m) && if h.direction == Offered then Ripe(h.cltv, m) else Knows(p, OfDigest(h.hash))
  }

  predicate PeerDue(p: Party, h: Htlc, m: Moment) {
    if h.direction == Offered then Knows(p, OfDigest(h.hash)) else Ripe(h.cltv, m)
  }

  function OwnerHtlcs(p: Party, c: Chan, hs: seq<Htlc>, m: Moment): (n: nat) {
    if hs == [] then 0
    else
      var h := hs[|hs| - 1];
      OwnerHtlcs(p, c, hs[..|hs| - 1], m) + if HtlcShown(h) && OwnerDue(p, c, h, m) then h.amount else 0
  }

  function PeerHtlcs(p: Party, hs: seq<Htlc>, m: Moment): (n: nat) {
    if hs == [] then 0
    else
      var h := hs[|hs| - 1];
      PeerHtlcs(p, hs[..|hs| - 1], m) + if HtlcShown(h) && PeerDue(p, h, m) then h.amount else 0
  }

  /** PTLCs go back to the side that offered them. */
  predicate OwnerPtlcDue(c: Chan, t: Ptlc, m: Moment) {
    t.direction == Offered && Ripe(t.cltv, m) && Rested(c.delay, m)
  }

  predicate PeerPtlcDue(t: Ptlc, m: Moment) {
    t.direction == Received && Ripe(t.cltv, m)
  }

  function OwnerPtlcs(c: Chan, ps: seq<Ptlc>, m: Moment): (n: nat) {
    if ps == [] then 0
    else
      var t := ps[|ps| - 1];
      OwnerPtlcs(c, ps[..|ps| - 1], m) + if PtlcShown(t) && OwnerPtlcDue(c, t, m) then t.amount else 0
  }

  function PeerPtlcs(ps: seq<Ptlc>, m: Moment): (n: nat) {
    if ps == [] then 0
    else
      var t := ps[|ps| - 1];
      PeerPtlcs(ps[..|ps| - 1], m) + if PtlcShown(t) && PeerPtlcDue(t, m) then t.amount else 0
  }

  lemma OwnerEntry(c: Chan, pcp: Point, h: Htlc, p: Party, m: Moment)
    requires Owner(p, c) && c.delay < U32 && h.cltv < U32
    ensures var o := HtlcOutput(c, pcp, h); o.amount == h.amount && (CanSpend(p, o.script, m) <==> OwnerDue(p, c, h, m))
  {
    hide CanSpend, Knows, Ripe, Rested, HtlcOutput;
    if h.direction == Offered { OfferedExactly(c, pcp, h, p, m); } else { ReceivedExactly(c, pcp, h, p, m); }
  }

  lemma PeerEntry(c: Chan, pcp: Point, h: Htlc, p: Party, m: Moment)
    requires Peer(p, c, pcp) && c.delay < U32 && h.cltv < U32
    ensures var o := HtlcOutput(c, pcp, h); o.amount == h.amount && (CanSpend(p, o.script, m) <==> PeerDue(p, h, m))
  {
    hide CanSpend, Knows, Ripe, Rested, HtlcOutput;
    if h.direction == Offered { OfferedExactly(c, pcp, h, p, m); } else { ReceivedExactly(c, pcp, h, p, m); }
  }

  lemma LastTaken(p: Party, outs: seq<Output>, o: Output, m: Moment)
    ensures Takes(p, outs + [o], m) == Takes(p, outs, m) + if CanSpend(p, o.script, m) then o.amount else 0
  {
    hide CanSpend;
    assert (outs + [o])[..|outs|] == outs;
  }

  lemma HtlcsStep(c: Chan, pcp: Point, hs: seq<Htlc>, p: Party, m: Moment)
    requires hs != []
    ensures var h, t := hs[|hs| - 1], Takes(p, HtlcOutputs(c, pcp, hs[..|hs| - 1]), m);
            Takes(p, HtlcOutputs(c, pcp, hs), m) ==
            t + if HtlcShown(h) && CanSpend(p, HtlcOutput(c, pcp, h).script, m) then HtlcOutput(c, pcp, h).amount else 0
  {
    var h, outs := hs[|hs| - 1], HtlcOutputs(c, pcp, hs[..|hs| - 1]);
    assert HtlcOutputs(c, pcp, hs) == outs + if HtlcShown(h) then [HtlcOutput(c, pcp, h)] else [];
    hide CanSpend, HtlcOutput, Takes, HtlcOutputs;
    LastTaken(p, outs, HtlcOutput(c, pcp, h), m);
    assert outs + [] == outs;
  }

  lemma PtlcsStep(c: Chan, pcp: Point, ps: seq<Ptlc>, p: Party, m: Moment)
    requires ps != []
    ensures var x, t := ps[|ps| - 1], Takes(p, PtlcOutputs(c, pcp, ps[..|ps| - 1]), m);
            Takes(p, PtlcOutputs(c, pcp, ps), m) ==
            t + if PtlcShown(x) && CanSpend(p, PtlcOutput(c, pcp, x).script, m) then PtlcOutput(c, pcp, x).amount else 0
  {
    var x, outs := ps[|ps| - 1], PtlcOutputs(c, pcp, ps[..|ps| - 1]);
    assert PtlcOutputs(c, pcp, ps) == outs + if PtlcShown(x) then [PtlcOutput(c, pcp, x)] else [];
    hide CanSpend, PtlcOutput, Takes, PtlcOutputs;
    LastTaken(p, outs, PtlcOutput(c, pcp, x), m);
    assert outs + [] == outs;
  }

  lemma {:induction false} OwnerTakesHtlcs(c: Chan, pcp: Point, hs: seq<Htlc>, p: Party, m: Moment)
    requires Owner(p, c) && c.delay < U32 && forall i | 0 <= i < |hs| :: hs[i].cltv < U32
    ensures Takes(p, HtlcOutputs(c, pcp, hs), m) == OwnerHtlcs(p, c, hs, m)
  {
    if hs != [] {
      hide Owner, OwnerDue, CanSpend, HtlcOutput, HtlcShown, HtlcOutputs, Takes;
      OwnerTakesHtlcs(c, pcp, hs[..|hs| - 1], p, m);
      HtlcsStep(c, pcp, hs, p, m);
      OwnerEntry(c, pcp, hs[|hs| - 1], p, m);
    }
  }

  lemma {:induction false} PeerTakesHtlcs(c: Chan, pcp: Point, hs: seq<Htlc>, p: Party, m: Moment)
    requires Peer(p, c, pcp) && c.delay < U32 && forall i | 0 <= i < |hs| :: hs[i].cltv < U32
    ensures Takes(p, HtlcOutputs(c, pcp, hs), m) == PeerHtlcs(p, hs, m)
  {
    if hs != [] {
      hide Peer, PeerDue, CanSpend, HtlcOutput, HtlcShown, HtlcOutputs, Takes;
      PeerTakesHtlcs(c, pcp, hs[..|hs| - 1], p, m);
      HtlcsStep(c, pcp, hs, p, m);
      PeerEntry(c, pcp, hs[|hs| - 1], p, m);
    }
  }

  lemma OwnerPtlcEntry(c: Chan, pcp: Point, t: Ptlc, p: Party, m: Moment)
    requires Owner(p, c) && c.delay < U32 && t.cltv < U32
    ensures var o := PtlcOutput(c, pcp, t); o.amount == t.amount && (CanSpend(p, o.script, m) <==> OwnerPtlcDue(c, t, m))
  {
    hide CanSpend, Ripe, Rested, PtlcOutput;
    PtlcExactly(c, pcp, t, p, m);
  }

  lemma {:induction false} OwnerTakesPtlcs(c: Chan, pcp: Point, ps: seq<Ptlc>, p: Party, m: Moment)
    requires Owner(p, c) && c.delay < U32 && forall i | 0 <= i < |ps| :: ps[i].cltv < U32
    ensures Takes(p, PtlcOutputs(c, pcp, ps), m) == OwnerPtlcs(c, ps, m)
  {
    if ps != [] {
      hide Owner, OwnerPtlcDue, CanSpend, PtlcOutput, PtlcShown, PtlcOutputs, Takes;
      OwnerTakesPtlcs(c, pcp, ps[..|ps| - 1], p, m);
      PtlcsStep(c, pcp, ps, p, m);
      OwnerPtlcEntry(c, pcp, ps[|ps| - 1], p, m);
    }
  }

  lemma PeerPtlcEntry(c: Chan, pcp: Point, t: Ptlc, p: Party, m: Moment)
    requires Peer(p, c, pcp) && c.delay < U32 && t.cltv < U32
    ensures var o := PtlcOutput(c, pcp, t); o.amount == t.amount && (CanSpend(p, o.script, m) <==> PeerPtlcDue(t, m))
  {
    hide CanSpend, Ripe, Rested, PtlcOutput;
    PtlcExactly(c, pcp, t, p, m);
  }

  lemma {:induction false} PeerTakesPtlcs(c: Chan, pcp: Point, ps: seq<Ptlc>, p: Party, m: Moment)
    requires Peer(p, c, pcp) && c.delay < U32 && forall i | 0 <= i < |ps| :: ps[i].cltv < U32
    ensures Takes(p, PtlcOutputs(c, pcp, ps), m) == PeerPtlcs(ps, m)
  {
    if ps != [] {
      hide Peer, PeerPtlcDue, CanSpend, PtlcOutput, PtlcShown, PtlcOutputs, Takes;
      PeerTakesPtlcs(c, pcp, ps[..|ps| - 1], p, m);
      PtlcsStep(c, pcp, ps, p, m);
      PeerPtlcEntry(c, pcp, ps[|ps| - 1], p, m);
    }
  }

  lemma FirstTwoTaken(c: Chan, pcp: Point, p: Party, m: Moment)
    ensures Takes(p, [ToLocal(c, pcp), ToRemote(c, pcp)], m) ==
            (if CanSpend(p, ToLocal(c, pcp).script, m) then ToLocal(c, pcp).amount else 0)
            + (if CanSpend(p, ToRemote(c, pcp).script, m) then ToRemote(c, pcp).amount else 0)
  {
    hide CanSpend, ToLocal, ToRemote;
    LastTaken(p, [], ToLocal(c, pcp), m);
    LastTaken(p, [ToLocal(c, pcp)], ToRemote(c, pcp), m);
    assert [] + [ToLocal(c, pcp)] == [ToLocal(c, pcp)];
    assert [ToLocal(c, pcp)] + [ToRemote(c, pcp)] == [ToLocal(c, pcp), ToRemote(c, pcp)];
  }

  lemma TakesParts(c: Chan, pcp: Point, p: Party, m: Moment)
    ensures Takes(p, Commitment(c, pcp).outputs, m) ==
            Takes(p, [ToLocal(c, pcp), ToRemote(c, pcp)], m)
            + Takes(p, HtlcOutputs(c, pcp, c.htlcs), m) + Takes(p, PtlcOutputs(c, pcp, c.ptlcs), m)
  {
    hide CanSpend, HtlcOutputs, PtlcOutputs, Takes, ToLocal, ToRemote;
    var first, hs, ps := [ToLocal(c, pcp), ToRemote(c, pcp)], HtlcOutputs(c, pcp, c.htlcs), PtlcOutputs(c, pcp, c.ptlcs);
    TakesJoin(p, first + hs, ps, m);
    TakesJoin(p, first, hs, m);
  }

  /**
  What the owner of a commitment can take from it: its balance after the delay, its own
  expired offers, and the HTLCs offered to it whose preimage it knows.
  */
  lemma OwnerTakes(c: Chan, pcp: Point, p: Party, m: Moment)
    requires Owner(p, c) && NarrowChan(c)
    ensures Takes(p, Commitment(c, pcp).outputs, m) ==
            (if Rested(c.delay, m) then c.local else 0) + OwnerHtlcs(p, c, c.htlcs, m) + OwnerPtlcs(c, c.ptlcs, m)
  {
    hide CanSpend, Rested, HtlcOutputs, PtlcOutputs, OwnerHtlcs, OwnerPtlcs, Takes, ToLocal, ToRemote, Commitment;
    TakesParts(c, pcp, p, m);
    OwnerTakesHtlcs(c, pcp, c.htlcs, p, m);
    OwnerTakesPtlcs(c, pcp, c.ptlcs, p, m);
    ToLocalExactly(c, pcp, p, m);
    ToRemoteExactly(c, pcp, p, m);
    FirstTwoTaken(c, pcp, p, m);
  }

  /**
  What the peer can take from it while it is not revoked: the peer's balance at once, HTLCs
  offered to the peer whose preimage it knows, and the peer's own expired offers.
  */
  lemma PeerTakes(c: Chan, pcp: Point, p: Party, m: Moment)
    requires Peer(p, c, pcp) && NarrowChan(c)
    ensures Takes(p, Commitment(c, pcp).outputs, m) == c.remote + PeerHtlcs(p, c.htlcs, m) + PeerPtlcs(c.ptlcs, m)
  {
    hide CanSpend, Rested, HtlcOutputs, PtlcOutputs, PeerHtlcs, PeerPtlcs, Takes, ToLocal, ToRemote, Commitment;
    TakesParts(c, pcp, p, m);
    PeerTakesHtlcs(c, pcp, c.htlcs, p, m);
    PeerTakesPtlcs(c, pcp, c.ptlcs, p, m);
    ToLocalExactly(c, pcp, p, m);
    ToRemoteExactly(c, pcp, p, m);
    FirstTwoTaken(c, pcp, p, m);
  }

  // ----- the transaction -----

  function ShownHtlcs(hs: seq<Htlc>): (n: nat) {
    if hs == [] then 0 else ShownHtlcs(hs[..|hs| - 1]) + if hs[|hs| - 1].state == Active && hs[|hs| - 1].amount >= 546 then 1 else 0
  }

  function ShownPtlcs(ps: seq<Ptlc>): (n: nat) {
    if ps == [] then 0 else ShownPtlcs(ps[..|ps| - 1]) + if ps[|ps| - 1].active && ps[|ps| - 1].amount >= 546 then 1 else 0
  }

  lemma {:induction false} HtlcCount(c: Chan, pcp: Point, hs: seq<Htlc>)
    ensures |HtlcOutputs(c, pcp, hs)| == ShownHtlcs(hs)
  {
    hide HtlcOutput;
    if hs != [] { HtlcCount(c, pcp, hs[..|hs| - 1]); }
  }

  lemma {:induction false} PtlcCount(c: Chan, pcp: Point, ps: seq<Ptlc>)
    ensures |PtlcOutputs(c, pcp, ps)| == ShownPtlcs(ps)
  {
    hide PtlcOutput;
    if ps != [] { PtlcCount(c, pcp, ps[..|ps| - 1]); }
  }

  /** It spends the funding output into the two balances, then one output for each live HTLC and PTLC of 546 satoshi or more. */
  lemma Outputs(c: Chan, pcp: Point)
    ensures var tx := Commitment(c, pcp);
            && tx.txid == c.fundingTxid && tx.vout == c.fundingVout
            && |tx.outputs| == 2 + ShownHtlcs(c.htlcs) + ShownPtlcs(c.ptlcs)
            && tx.outputs[0].amount == c.local && tx.outputs[1].amount == c.remote
  {
    hide HtlcOutputs, PtlcOutputs, ShownHtlcs, ShownPtlcs;
    HtlcCount(c, pcp, c.htlcs);
    PtlcCount(c, pcp, c.ptlcs);
  }

  /** Over every run an end can build its own commitment exactly when its funding is not frozen. */
  lemma BuildsExactly(c: Chan, steps: seq<Step>)
    requires Shaped(c)
    ensures Build(Run(c, steps)).Some? <==> !Run(c, steps).frozen
    ensures Build(Run(c, steps)).Some? ==>
              var d := Run(c, steps); Build(d).value == Commitment(d, PointOf(d.secrets[d.commitment]))
  {
    hide Run, ShownActive, Commitment;
    RunShape(c, steps);
  }

  // ----- revocation -----

  function Amounts(outs: seq<Output>): (n: nat) {
    if outs == [] then 0 else Amounts(outs[..|outs| - 1]) + outs[|outs| - 1].amount
  }

  /** The outputs that the revocation key of `pcp` opens. */
  predicate Forfeit(c: Chan, pcp: Point, outs: seq<Output>) {
    forall i | 0 <= i < |outs| :: outs[i].script.Taptree? && outs[i].script.internal == RevocationKey(c.theirs.revocation, pcp)
  }

  lemma {:induction false} ForfeitOutputs(c: Chan, pcp: Point, hs: seq<Htlc>, ps: seq<Ptlc>)
    ensures Forfeit(c, pcp, HtlcOutputs(c, pcp, hs)) && Forfeit(c, pcp, PtlcOutputs(c, pcp, ps))
    decreases |hs|, |ps|
  {
    if hs != [] {
      ForfeitOutputs(c, pcp, hs[..|hs| - 1], ps);
    } else if ps != [] {
      ForfeitOutputs(c, pcp, hs, ps[..|ps| - 1]);
    }
  }

  lemma {:induction false} AllTaken(p: Party, outs: seq<Output>, m: Moment)
    requires forall i | 0 <= i < |outs| :: CanSpend(p, outs[i].script, m)
    ensures Takes(p, outs, m) == Amounts(outs)
  {
    hide CanSpend;
    if outs != [] { AllTaken(p, outs[..|outs| - 1], m); }
  }

  /** Once the peer has the secret of a commitment, it can take every output of it, at any moment. */
  lemma RevokedForfeits(c: Chan, s: Secret, p: Party, m: Moment)
    requires Controls(p, c.theirs.revocation) && Controls(p, c.theirs.payment) && s in p.secrets
    ensures Takes(p, Commitment(c, PointOf(s)).outputs, m) == Amounts(Commitment(c, PointOf(s)).outputs)
  {
    hide HtlcOutputs, PtlcOutputs, Takes, Amounts;
    var pcp := PointOf(s);
    ForfeitOutputs(c, pcp, c.htlcs, c.ptlcs);
    assert Controls(p, RevocationKey(c.theirs.revocation, pcp));
    AllTaken(p, Commitment(c, pcp).outputs, m);
  }

  lemma BothExtends(p: Mirror.Pair, s: Mirror.PairStep)
    requires Mirror.PairOk(p) && Mirror.InStep(p.a, s.op)
    ensures Extends(p.a, Mirror.Both(p, s).a)
  {
    hide Apply, Mirror.Failing, ShownActive, Mirror.IsMirror, Mirror.CacheOk, SetRemotePcp;
    Mirror.BothLearn(p, s);
    Mirror.CommitmentBy1(p.a, s.op, s.ra);
    var a, b := Apply(p.a, s.op, s.ra), Apply(p.b, Mirror.FlipOp(s.op), s.rb);
    if a.commitment != p.a.commitment { Mirror.RevocationKeepsMirror(a, b); TakesNoCommitment(a, b.secrets); }
  }

  lemma TakesNoCommitment(c: Chan, peer: seq<Secret>)
    requires c.commitment > 0 && c.commitment + 1 < |peer|
    ensures Mirror.TakeRevocation(c, peer).commitment == c.commitment
  {
  }

  lemma {:induction false} RunExtends(p: Mirror.Pair, steps: seq<Mirror.PairStep>)
    requires Mirror.PairOk(p) && Mirror.StaysInStep(p, steps)
    ensures Mirror.PairOk(Mirror.RunBoth(p, steps)) && Extends(p.a, Mirror.RunBoth(p, steps).a)
    decreases |steps|
  {
    hide Mirror.PairOk, Mirror.Both, Mirror.InStep;
    if steps != [] {
      Mirror.PairStepOk(p, steps[0]);
      BothExtends(p, steps[0]);
      RunExtends(Mirror.Both(p, steps[0]), steps[1..]);
    }
  }

  /**
  Over every matched run: as soon as an end has moved on from a commitment, the other end,
  with the secrets it was sent, can take every output of the transaction left behind.
  */
  lemma OldCommitmentsForfeit(p: Mirror.Pair, steps: seq<Mirror.PairStep>, peer: Party, m: Moment)
    requires Mirror.PairOk(p) && Mirror.StaysInStep(p, steps) && !p.a.frozen
    requires var q := Mirror.RunBoth(p, steps);
             q.a.commitment > p.a.commitment && forall n | n in q.b.revoked :: q.b.revoked[n] in peer.secrets
    requires Controls(peer, p.b.mine.revocation) && Controls(peer, p.b.mine.payment)
    ensures Build(p.a).Some?
    ensures Takes(peer, Build(p.a).value.outputs, m) == Amounts(Build(p.a).value.outputs)
  {
    hide Takes, Amounts, Commitment, Mirror.RunBoth, Mirror.StaysInStep, ShownActive, Controls;
    RunExtends(p, steps);
    var q, n := Mirror.RunBoth(p, steps), p.a.commitment;
    assert q.b.revoked[n] == q.a.secrets[n] == p.a.secrets[n];
    RevokedForfeits(p.a, p.a.secrets[n], peer, m);
  }
}
