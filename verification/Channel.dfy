/**
The payment channel as a value: HTLC operations, per-commitment secrets and the cache
of the peer's points, after src/channel.c.  Points and hashes are symbolic; `rng` stands
for the random source that supplies the secret of each commitment number.
*/
module Channel {
  import opened Bits
  import opened Wrappers

  const DUST := 546
  const RESERVE := 5000
  const MAX_HTLCS := 483

  type Secret = nat
  type Rng = nat -> Secret

  datatype Point =
    | Basepoint(id: nat)
    | PointOf(secret: Secret)
    | DerivedKey(base: Point, pcp: Point)
    | RevocationKey(base: Point, pcp: Point)

  datatype Digest = Sha256(data: seq<byte>) | Unknown(id: nat)

  datatype Direction = Offered | Received

  function Flip(d: Direction): (r: Direction) {
    if d == Offered then Received else Offered
  }

  datatype Status = Active | Fulfilled | Failed

  datatype Htlc = Htlc(direction: Direction, state: Status, amount: nat, hash: Digest, preimage: seq<byte>,
                       cltv: nat, id: nat, fee: nat)

  datatype Ptlc = Ptlc(direction: Direction, active: bool, amount: nat, point: Point, cltv: nat)

  datatype Basepoints = Basepoints(payment: Point, delayed: Point, revocation: Point, htlc: Point)

  datatype Slot = Empty | Held(num: nat, point: Point)

  datatype Chan = Chan(
    local: nat, remote: nat, htlcs: seq<Htlc>, ptlcs: seq<Ptlc>, nextId: nat,
    feeRate: nat, funderIsLocal: bool, delay: nat, revocationLeaf: bool, frozen: bool,
    commitment: nat, lastHeight: nat,
    mine: Basepoints, theirs: Basepoints, fundingTxid: nat, fundingVout: nat,
    secrets: seq<Secret>, slot0: Slot, slot1: Slot, revoked: map<nat, Secret>)

  // ----- per-commitment secrets -----

  /** channel_generate_local_pcs: the array is zero-filled beyond what was stored. */
  function Store(secrets: seq<Secret>, n: nat, s: Secret): (r: seq<Secret>) {
    if n < |secrets| then secrets[n := s] else secrets + seq(n - |secrets|, _ => 0) + [s]
  }

  /** The tail of every accepted operation: next commitment number, one more secret. */
  function Advance(c: Chan, rng: Rng): (r: Chan) {
    c.(commitment := c.commitment + 1,
       secrets := Store(c.secrets, c.commitment + 2, rng(c.commitment + 2)))
  }

  // ----- HTLCs -----

  /** Each HTLC adds 43 virtual bytes to the commitment transaction. */
  function HtlcFee(rate: nat): (f: nat) {
    (rate * 43 + 999) % U64 / 1000
  }

  function Credit(c: Chan, toLocal: bool, amount: nat): (r: Chan) {
    if toLocal then c.(local := (c.local + amount) % U64) else c.(remote := (c.remote + amount) % U64)
  }

  /** channel_add_htlc; nothing when it refuses. */
  function AddHtlc(c: Chan, dir: Direction, amount: nat, hash: Digest, cltv: nat, rng: Rng): (r: Option<Chan>) {
    var payer := if dir == Offered then c.local else c.remote;
    if c.frozen || |c.htlcs| >= MAX_HTLCS || amount < DUST || amount > payer || payer - amount < RESERVE then None
    else
      var paid := if dir == Offered then c.(local := c.local - amount) else c.(remote := c.remote - amount);
      var fee := HtlcFee(c.feeRate);
      var funder := if c.funderIsLocal then paid.local else paid.remote;
      if funder < fee then None
      else
        var charged := if c.funderIsLocal then paid.(local := paid.local - fee) else paid.(remote := paid.remote - fee);
        var h := Htlc(dir, Active, amount, hash, [], cltv, c.nextId, fee);
        Some(Advance(charged.(htlcs := c.htlcs + [h], nextId := (c.nextId + 1) % U64), rng))
  }

  /** client_handle_add_htlc: the new entry takes the id from the wire. */
  function ClientAdd(c: Chan, dir: Direction, msat: nat, hash: Digest, cltv: nat, wireId: nat, rng: Rng): (r: Option<Chan>) {
    match AddHtlc(c, dir, msat / 1000, hash, cltv, rng)
    case None => None
    case Some(d) => Some(d.(htlcs := d.htlcs[..|d.htlcs| - 1] + [d.htlcs[|d.htlcs| - 1].(id := wireId)]))
  }

  function Find(hs: seq<Htlc>, id: nat): (i: nat)
    ensures i <= |hs|
    ensures i < |hs| ==> hs[i].id == id && hs[i].state == Active
    ensures forall j | 0 <= j < i :: !(hs[j].id == id && hs[j].state == Active)
  {
    if hs == [] then 0 else if hs[0].id == id && hs[0].state == Active then 0 else 1 + Find(hs[1..], id)
  }

  /** channel_compact_htlcs. */
  function Compact(hs: seq<Htlc>): (r: seq<Htlc>) {
    if hs == [] then []
    else Compact(hs[..|hs| - 1]) + if hs[|hs| - 1].state == Active then [hs[|hs| - 1]] else []
  }

  /** What fulfil and fail share: pay out, return the fee to the funder, mark, compact. */
  function Settle(c: Chan, i: nat, toLocal: bool, done: Htlc, rng: Rng): (r: Chan)
    requires i < |c.htlcs|
  {
    var paid := Credit(Credit(c, toLocal, c.htlcs[i].amount), c.funderIsLocal, c.htlcs[i].fee);
    Advance(paid, rng).(htlcs := Compact(c.htlcs[i := done]))
  }

  /** channel_fulfill_htlc. */
  function FulfillHtlc(c: Chan, id: nat, preimage: seq<byte>, rng: Rng): (r: Option<Chan>) {
    var i := Find(c.htlcs, id);
    if i == |c.htlcs| || Sha256(preimage) != c.htlcs[i].hash then None
    else Some(Settle(c, i, c.htlcs[i].direction == Received, c.htlcs[i].(state := Fulfilled, preimage := preimage), rng))
  }

  /** channel_fail_htlc. */
  function FailHtlc(c: Chan, id: nat, rng: Rng): (r: Option<Chan>) {
    var i := Find(c.htlcs, id);
    if i == |c.htlcs| then None
    else Some(Settle(c, i, c.htlcs[i].direction == Offered, c.htlcs[i].(state := Failed), rng))
  }

  /** channel_update: a positive delta moves money to the peer. */
  function Update(c: Chan, delta: int, rng: Rng): (r: Option<Chan>) {
    if delta > c.local || -delta > c.remote then None
    else Some(Advance(c.(local := (c.local - delta) % U64, remote := (c.remote + delta) % U64), rng))
  }

  predicate Expired(h: Htlc, height: nat) {
    h.state == Active && 0 < h.cltv <= height
  }

  /** The loop of channel_check_htlc_timeouts from index `i`, over the array that shrinks under it. */
  function SweepFrom(c: Chan, i: nat, height: nat, rng: Rng): (r: (Chan, nat))
    decreases |c.htlcs| - i
  {
    if i >= |c.htlcs| then (c, 0)
    else if Expired(c.htlcs[i], height) then
      FindHits(c.htlcs, i);
      FailShrinks(c, c.htlcs[i].id, rng);
      var (d, n) := SweepFrom(FailHtlc(c, c.htlcs[i].id, rng).value, i + 1, height, rng);
      (d, n + 1)
    else SweepFrom(c, i + 1, height, rng)
  }

  lemma FindHits(hs: seq<Htlc>, i: nat)
    requires i < |hs| && hs[i].state == Active
    ensures Find(hs, hs[i].id) <= i
  {
  }

  /** channel_check_htlc_timeouts. */
  function CheckTimeouts(c: Chan, height: nat, rng: Rng): (r: (Chan, nat)) {
    if height < c.lastHeight then (c, 0) else SweepFrom(c.(lastHeight := height), 0, height, rng)
  }

  lemma {:induction false} CompactShorter(hs: seq<Htlc>)
    ensures |Compact(hs)| <= |hs|
    ensures (exists i | 0 <= i < |hs| :: hs[i].state != Active) ==> |Compact(hs)| < |hs|
  {
    if hs != [] {
      var t := hs[..|hs| - 1];
      CompactShorter(t);
      forall i | 0 <= i < |hs| && hs[i].state != Active
        ensures |Compact(hs)| < |hs|
      {
        if i < |t| { assert t[i].state != Active; }
      }
    }
  }

  lemma FailShrinks(c: Chan, id: nat, rng: Rng)
    requires FailHtlc(c, id, rng).Some?
    ensures |FailHtlc(c, id, rng).value.htlcs| < |c.htlcs|
  {
    var i := Find(c.htlcs, id);
    var hs := c.htlcs[i := c.htlcs[i].(state := Failed)];
    assert hs[i].state != Active;
    CompactShorter(hs);
  }

  // ----- the peer's points -----

  /** channel_set_remote_pcp: same number, empty slot, or evict the smaller number. */
  function SetRemotePcp(c: Chan, n: nat, p: Point): (r: Chan) {
    if c.slot0.Held? && c.slot0.num == n then c.(slot0 := Held(n, p))
    else if c.slot1.Held? && c.slot1.num == n then c.(slot1 := Held(n, p))
    else if c.slot0.Empty? then c.(slot0 := Held(n, p))
    else if c.slot1.Empty? then c.(slot1 := Held(n, p))
    else if c.slot0.num <= c.slot1.num then c.(slot0 := Held(n, p))
    else c.(slot1 := Held(n, p))
  }

  /** channel_get_remote_pcp: a stored point, or one derived from a revealed secret. */
  function GetRemotePcp(c: Chan, n: nat): (r: Option<Point>) {
    var held := (s: Slot) => if s.Held? then s.num else 0;
    var newest := if held(c.slot0) >= held(c.slot1) then held(c.slot0) else held(c.slot1);
    if c.slot0.Held? && c.slot0.num == n then Some(c.slot0.point)
    else if c.slot1.Held? && c.slot1.num == n then Some(c.slot1.point)
    else if n < newest && n in c.revoked then Some(PointOf(c.revoked[n]))
    else None
  }

  /** channel_receive_revocation_flat. */
  function ReceiveRevocation(c: Chan, n: nat, s: Secret): (r: Chan) {
    c.(revoked := c.revoked[n := s])
  }

  // ----- the commitment transaction -----

  datatype Leaf =
    | CsvDelay(delay: nat, key: Point)
    | RevocationCheck(key: Point)
    | OfferedSuccess(hash: LeafHash, key: Point)
    | OfferedTimeout(cltv: nat, delay: nat, key: Point)
    | ReceivedSuccess(hash: LeafHash, delay: nat, key: Point)
    | ReceivedTimeout(cltv: nat, key: Point)

  datatype LeafHash = OfDigest(digest: Digest) | OfPoint(point: Point)

  datatype Script = Taptree(internal: Point, leaves: seq<Leaf>) | KeyPath(key: Point)

  datatype Output = Output(script: Script, amount: nat)

  datatype Tx = Tx(txid: nat, vout: nat, outputs: seq<Output>)

  /** The two leaves of an HTLC or PTLC output, seen from the owner of the transaction. */
  function Leaves(c: Chan, pcp: Point, dir: Direction, hash: LeafHash, cltv: nat): (r: seq<Leaf>) {
    var local, remote := DerivedKey(c.mine.htlc, pcp), DerivedKey(c.theirs.htlc, pcp);
    if dir == Offered then [OfferedSuccess(hash, remote), OfferedTimeout(cltv, c.delay, local)]
    else [ReceivedSuccess(hash, c.delay, local), ReceivedTimeout(cltv, remote)]
  }

  predicate HtlcShown(h: Htlc) {
    h.state == Active && h.amount >= DUST
  }

  predicate PtlcShown(p: Ptlc) {
    p.active && p.amount >= DUST
  }

  function HtlcOutput(c: Chan, pcp: Point, h: Htlc): (r: Output) {
    Output(Taptree(RevocationKey(c.theirs.revocation, pcp), Leaves(c, pcp, h.direction, OfDigest(h.hash), h.cltv)), h.amount)
  }

  function PtlcOutput(c: Chan, pcp: Point, p: Ptlc): (r: Output) {
    Output(Taptree(RevocationKey(c.theirs.revocation, pcp), Leaves(c, pcp, p.direction, OfPoint(p.point), p.cltv)), p.amount)
  }

  function HtlcOutputs(c: Chan, pcp: Point, hs: seq<Htlc>): (r: seq<Output>) {
    if hs == [] then []
    else HtlcOutputs(c, pcp, hs[..|hs| - 1])
         + if HtlcShown(hs[|hs| - 1]) then [HtlcOutput(c, pcp, hs[|hs| - 1])] else []
  }

  function PtlcOutputs(c: Chan, pcp: Point, ps: seq<Ptlc>): (r: seq<Output>) {
    if ps == [] then []
    else PtlcOutputs(c, pcp, ps[..|ps| - 1])
         + if PtlcShown(ps[|ps| - 1]) then [PtlcOutput(c, pcp, ps[|ps| - 1])] else []
  }

  function ToLocal(c: Chan, pcp: Point): (r: Output) {
    var rev, csv := RevocationKey(c.theirs.revocation, pcp), CsvDelay(c.delay, DerivedKey(c.mine.delayed, pcp));
    Output(Taptree(rev, if c.revocationLeaf then [csv, RevocationCheck(rev)] else [csv]), c.local)
  }

  function ToRemote(c: Chan, pcp: Point): (r: Output) {
    Output(KeyPath(DerivedKey(c.theirs.payment, pcp)), c.remote)
  }

  /** channel_build_commitment_tx_impl: to-local, to-remote, HTLCs and PTLCs in array order. */
  function Commitment(c: Chan, pcp: Point): (r: Tx) {
    Tx(c.fundingTxid, c.fundingVout,
       [ToLocal(c, pcp), ToRemote(c, pcp)] + HtlcOutputs(c, pcp, c.htlcs) + PtlcOutputs(c, pcp, c.ptlcs))
  }

  /** channel_build_commitment_tx. */
  function Build(c: Chan): (r: Option<Tx>) {
    if c.frozen || c.commitment >= |c.secrets| then None
    else Some(Commitment(c, PointOf(c.secrets[c.commitment])))
  }

  function FlipHtlcs(hs: seq<Htlc>): (r: seq<Htlc>)
    ensures |r| == |hs| && forall i | 0 <= i < |hs| :: r[i] == hs[i].(direction := Flip(hs[i].direction))
  {
    seq(|hs|, i requires 0 <= i < |hs| => hs[i].(direction := Flip(hs[i].direction)))
  }

  function FlipPtlcs(ps: seq<Ptlc>): (r: seq<Ptlc>)
    ensures |r| == |ps| && forall i | 0 <= i < |ps| :: r[i] == ps[i].(direction := Flip(ps[i].direction))
  {
    seq(|ps|, i requires 0 <= i < |ps| => ps[i].(direction := Flip(ps[i].direction)))
  }

  /** The copy that channel_build_commitment_tx_for_remote hands to the builder. */
  function RemoteView(c: Chan): (r: Chan) {
    c.(local := c.remote, remote := c.local,
       mine := c.mine.(delayed := c.theirs.delayed, htlc := c.theirs.htlc),
       theirs := c.theirs.(revocation := c.mine.revocation, payment := c.mine.payment, htlc := c.mine.htlc),
       htlcs := FlipHtlcs(c.htlcs), ptlcs := FlipPtlcs(c.ptlcs))
  }

  /** channel_build_commitment_tx_for_remote. */
  function BuildForRemote(c: Chan): (r: Option<Tx>) {
    match GetRemotePcp(c, c.commitment)
    case None => None
    case Some(pcp) => Some(Commitment(RemoteView(c), pcp))
  }

  // ----- runs -----

  datatype Op =
    | Add(dir: Direction, amount: nat, hash: Digest, cltv: nat)
    | AddFromWire(dir: Direction, msat: nat, hash: Digest, cltv: nat, wireId: nat)
    | Fulfill(id: nat, preimage: seq<byte>)
    | Fail(id: nat)
    | Move(delta: int)
    | FeeRate(rate: nat)
    | Freeze(on: bool)
    | Timeouts(height: nat)

  /** The operation's result, or nothing when it refuses. */
  function Attempt(c: Chan, op: Op, rng: Rng): (r: Option<Chan>) {
    match op
    case Add(dir, amount, hash, cltv) => AddHtlc(c, dir, amount, hash, cltv, rng)
    case AddFromWire(dir, msat, hash, cltv, wireId) => ClientAdd(c, dir, msat, hash, cltv, wireId, rng)
    case Fulfill(id, preimage) => FulfillHtlc(c, id, preimage, rng)
    case Fail(id) => FailHtlc(c, id, rng)
    case Move(delta) => Update(c, delta, rng)
    case FeeRate(rate) => Some(c.(feeRate := rate))
    case Freeze(on) => Some(c.(frozen := on))
    case Timeouts(height) => Some(CheckTimeouts(c, height, rng).0)
  }

  function Apply(c: Chan, op: Op, rng: Rng): (r: Chan) {
    var t := Attempt(c, op, rng);
    if t.Some? then t.value else c
  }

  datatype Step = Step(op: Op, rng: Rng)

  function Run(c: Chan, steps: seq<Step>): (r: Chan)
    decreases |steps|
  {
    if steps == [] then c else Run(Apply(c, steps[0].op, steps[0].rng), steps[1..])
  }
}
