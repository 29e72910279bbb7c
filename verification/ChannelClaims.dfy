/**
When HTLCs are settled (src/channel.c:1761-1833), and what is paid over whole runs: only
amounts that were offered, each against a preimage of its own hash.
*/
module ChannelClaims {
  import opened Bits
  import opened Wrappers
  import opened Channel
  import opened ChannelLaws

  /** The first live entry with this id. */
  predicate IsFirst(hs: seq<Htlc>, id: nat, i: nat) {
    && i < |hs| && hs[i].id == id && hs[i].state == Active
    && forall j | 0 <= j < i :: !(hs[j].id == id && hs[j].state == Active)
  }

  lemma FirstIsFind(hs: seq<Htlc>, id: nat, i: nat)
    requires IsFirst(hs, id, i)
    ensures Find(hs, id) == i
  {
    hide Find;
    assert Find(hs, id) <= i by { FindHits(hs, i); }
  }

  /** A fulfil is accepted exactly when the preimage hashes to the hash of the first live entry with the id. */
  lemma FulfillExactly(c: Chan, id: nat, preimage: seq<byte>, rng: Rng)
    ensures FulfillHtlc(c, id, preimage, rng).Some? <==>
            exists i: nat :: IsFirst(c.htlcs, id, i) && c.htlcs[i].hash == Sha256(preimage)
  {
    hide Settle, Find;
    var k := Find(c.htlcs, id);
    if k < |c.htlcs| { assert IsFirst(c.htlcs, id, k); }
    forall i: nat | IsFirst(c.htlcs, id, i)
      ensures k == i
    {
      FirstIsFind(c.htlcs, id, i);
    }
  }

  /** A fail is accepted exactly when some live entry carries the id. */
  lemma FailExactly(c: Chan, id: nat, rng: Rng)
    ensures FailHtlc(c, id, rng).Some? <==> exists i :: 0 <= i < |c.htlcs| && c.htlcs[i].id == id && c.htlcs[i].state == Active
  {
    hide Settle, Find;
    forall i | 0 <= i < |c.htlcs| && c.htlcs[i].id == id && c.htlcs[i].state == Active
      ensures Find(c.htlcs, id) < |c.htlcs|
    {
      FindHits(c.htlcs, i);
    }
    assert Find(c.htlcs, id) < |c.htlcs| ==> c.htlcs[Find(c.htlcs, id)].id == id;
  }

  // ----- what is paid over a run -----

  datatype Offer = Offer(direction: Direction, amount: nat, hash: Digest)

  datatype Claim = Claim(offer: Offer, preimage: seq<byte>)

  function OfferOf(h: Htlc): (o: Offer) {
    Offer(h.direction, h.amount, h.hash)
  }

  function Offers(hs: seq<Htlc>): (r: set<Offer>) {
    set h | h in hs :: OfferOf(h)
  }

  /** What an operation puts up. */
  function NewOffers(op: Op): (r: set<Offer>) {
    match op
    case Add(dir, amount, hash, _) => {Offer(dir, amount, hash)}
    case AddFromWire(dir, msat, hash, _, _) => {Offer(dir, msat / 1000, hash)}
    case _ => {}
  }

  function AllOffers(steps: seq<Step>): (r: set<Offer>) {
    if steps == [] then {} else NewOffers(steps[0].op) + AllOffers(steps[1..])
  }

  function AllPreimages(steps: seq<Step>): (r: set<seq<byte>>) {
    if steps == [] then {} else (if steps[0].op.Fulfill? then {steps[0].op.preimage} else {}) + AllPreimages(steps[1..])
  }

  /** The claim an operation settles, if it does. */
  function ClaimOf(c: Chan, op: Op, rng: Rng): (r: seq<Claim>) {
    if op.Fulfill? && Attempt(c, op, rng).Some? then [Claim(OfferOf(c.htlcs[Find(c.htlcs, op.id)]), op.preimage)] else []
  }

  function Claims(c: Chan, steps: seq<Step>): (r: seq<Claim>)
    decreases |steps|
  {
    if steps == [] then []
    else ClaimOf(c, steps[0].op, steps[0].rng) + Claims(Apply(c, steps[0].op, steps[0].rng), steps[1..])
  }

  /** Claims on the peer's offers, less the peer's claims on this side's. */
  function Gain(cs: seq<Claim>): (n: int) {
    if cs == [] then 0
    else (if cs[0].offer.direction == Received then cs[0].offer.amount else 0 - cs[0].offer.amount) + Gain(cs[1..])
  }

  /** Direct moves to the peer that were accepted. */
  function Moved(c: Chan, steps: seq<Step>): (n: int)
    decreases |steps|
  {
    if steps == [] then 0
    else
      var op, rng := steps[0].op, steps[0].rng;
      (if op.Move? && Attempt(c, op, rng).Some? then op.delta else 0) + Moved(Apply(c, op, rng), steps[1..])
  }

  lemma GainStep(c: Chan, op: Op, rng: Rng, rest: seq<Claim>)
    ensures Gain(ClaimOf(c, op, rng) + rest) ==
            Effect(c, op, rng) + (if op.Move? && Attempt(c, op, rng).Some? then op.delta else 0) + Gain(rest)
  {
    hide Attempt;
    var cs := ClaimOf(c, op, rng);
    if cs == [] {
      assert cs + rest == rest;
    } else {
      assert (cs + rest)[1..] == rest;
    }
  }

  lemma {:induction false} NetEffectIsGain(c: Chan, steps: seq<Step>)
    ensures NetEffect(c, steps) == Gain(Claims(c, steps)) - Moved(c, steps)
    decreases |steps|
  {
    hide Apply, Attempt, Effect, ClaimOf, Gain;
    if steps == [] {
      assert Gain([]) == 0 by { GainNone(); }
    } else {
      var op, rng := steps[0].op, steps[0].rng;
      NetEffectIsGain(Apply(c, op, rng), steps[1..]);
      GainStep(c, op, rng, Claims(Apply(c, op, rng), steps[1..]));
    }
  }

  lemma GainNone()
    ensures Gain([]) == 0
  {
  }

  // ----- where the entries come from -----

  lemma SettleOffers(c: Chan, i: nat, toLocal: bool, done: Htlc, rng: Rng)
    requires i < |c.htlcs| && done.state != Active
    ensures Offers(Settle(c, i, toLocal, done, rng).htlcs) <= Offers(c.htlcs)
  {
    hide Store, Compact;
    var hs := c.htlcs[i := done];
    CompactMembers(hs);
    forall h | h in Compact(hs)
      ensures h in c.htlcs
    {
      var j :| 0 <= j < |hs| && hs[j] == h;
      assert j != i;
    }
  }

  lemma {:induction false} SweepOffers(c: Chan, i: nat, height: nat, rng: Rng)
    ensures Offers(SweepFrom(c, i, height, rng).0.htlcs) <= Offers(c.htlcs)
    decreases |c.htlcs| - i
  {
    hide Settle, Find, Offers;
    if i >= |c.htlcs| {
    } else if Expired(c.htlcs[i], height) {
      var id := c.htlcs[i].id;
      FindHits(c.htlcs, i);
      FailShrinks(c, id, rng);
      var k := Find(c.htlcs, id);
      SettleOffers(c, k, c.htlcs[k].direction == Offered, c.htlcs[k].(state := Failed), rng);
      SweepOffers(FailHtlc(c, id, rng).value, i + 1, height, rng);
    } else {
      SweepOffers(c, i + 1, height, rng);
    }
  }

  lemma AddOffers(c: Chan, dir: Direction, amount: nat, hash: Digest, cltv: nat, rng: Rng)
    requires AddHtlc(c, dir, amount, hash, cltv, rng).Some?
    ensures var d := AddHtlc(c, dir, amount, hash, cltv, rng).value;
            |d.htlcs| > 0 && OfferOf(d.htlcs[|d.htlcs| - 1]) == Offer(dir, amount, hash) && d.htlcs[..|d.htlcs| - 1] == c.htlcs
  {
    hide Store, HtlcFee;
  }

  lemma JoinOffers(hs: seq<Htlc>, h: Htlc)
    ensures Offers(hs + [h]) == Offers(hs) + {OfferOf(h)}
  {
  }

  /** No operation changes an entry's direction, amount or hash. */
  lemma OffersStep(c: Chan, op: Op, rng: Rng)
    ensures Offers(Apply(c, op, rng).htlcs) <= Offers(c.htlcs) + NewOffers(op)
  {
    hide Settle, Find, Offers, SweepFrom, Store, Channel.AddHtlc;
    if Attempt(c, op, rng).Some? {
      match op
      case Add(dir, amount, hash, cltv) =>
        AddOffers(c, dir, amount, hash, cltv, rng);
        var hs := Apply(c, op, rng).htlcs;
        assert hs == hs[..|hs| - 1] + [hs[|hs| - 1]];
        JoinOffers(c.htlcs, hs[|hs| - 1]);
      case AddFromWire(dir, msat, hash, cltv, _) =>
        AddOffers(c, dir, msat / 1000, hash, cltv, rng);
        var hs := Apply(c, op, rng).htlcs;
        JoinOffers(c.htlcs, hs[|hs| - 1]);
      case Fulfill(id, preimage) =>
        var i := Find(c.htlcs, id);
        SettleOffers(c, i, c.htlcs[i].direction == Received, c.htlcs[i].(state := Fulfilled, preimage := preimage), rng);
      case Fail(id) =>
        var i := Find(c.htlcs, id);
        SettleOffers(c, i, c.htlcs[i].direction == Offered, c.htlcs[i].(state := Failed), rng);
      case Timeouts(height) => SweepOffers(c.(lastHeight := height), 0, height, rng);
      case _ =>
    }
  }

  /** Paid fairly: against a preimage of its hash that the run presented, and on an offer that was made. */
  predicate Fair(cl: Claim, offers: set<Offer>, preimages: set<seq<byte>>) {
    cl.offer.hash == Sha256(cl.preimage) && cl.offer in offers && cl.preimage in preimages
  }

  lemma ClaimFair(c: Chan, op: Op, rng: Rng)
    requires ClaimOf(c, op, rng) != []
    ensures op.Fulfill? && ClaimOf(c, op, rng) == [ClaimOf(c, op, rng)[0]]
    ensures Fair(ClaimOf(c, op, rng)[0], Offers(c.htlcs), {op.preimage})
  {
    hide Find, Settle;
    assert c.htlcs[Find(c.htlcs, op.id)] in c.htlcs;
  }

  /** Every claim of every run is fair. */
  lemma {:induction false} ClaimsFair(c: Chan, steps: seq<Step>, k: nat)
    requires k < |Claims(c, steps)|
    ensures Fair(Claims(c, steps)[k], Offers(c.htlcs) + AllOffers(steps), AllPreimages(steps))
    decreases |steps|
  {
    hide Apply, ClaimOf, Offers, NewOffers;
    var op, rng := steps[0].op, steps[0].rng;
    var first, d := ClaimOf(c, op, rng), Apply(c, op, rng);
    if first != [] { ClaimFair(c, op, rng); }
    if k >= |first| {
      ClaimsFair(d, steps[1..], k - |first|);
      OffersStep(c, op, rng);
    }
  }

  /**
  Over every run the local side gains exactly what it claims of the peer's offers, less
  what the peer claims of its own and what is moved; and every claim is fair.
  */
  lemma RunClaims(c: Chan, steps: seq<Step>)
    requires Bounded(c)
    ensures LocalStake(Run(c, steps)) == LocalStake(c) + Gain(Claims(c, steps)) - Moved(c, steps)
    ensures RemoteStake(Run(c, steps)) == RemoteStake(c) - Gain(Claims(c, steps)) + Moved(c, steps)
    ensures forall k | 0 <= k < |Claims(c, steps)| ::
              Fair(Claims(c, steps)[k], Offers(c.htlcs) + AllOffers(steps), AllPreimages(steps))
  {
    hide LocalStake, RemoteStake, Run, Claims, Moved, Gain, Fair, NetEffect, AllOffers, AllPreimages;
    RunStakes(c, steps);
    NetEffectIsGain(c, steps);
    forall k | 0 <= k < |Claims(c, steps)|
      ensures Fair(Claims(c, steps)[k], Offers(c.htlcs) + AllOffers(steps), AllPreimages(steps))
    {
      ClaimsFair(c, steps, k);
    }
  }

  lemma {:induction false} GainBelow(cs: seq<Claim>)
    requires forall k | 0 <= k < |cs| :: cs[k].offer.direction == Offered
    ensures Gain(cs) <= 0
  {
    if cs != [] { GainBelow(cs[1..]); }
  }

  /** A side that never presents a preimage of a hash it was offered gains nothing but what is moved to it. */
  lemma NoPreimageNoGain(c: Chan, steps: seq<Step>)
    requires Bounded(c)
    requires forall o, b | o in Offers(c.htlcs) + AllOffers(steps) && b in AllPreimages(steps) ::
               o.direction == Received ==> o.hash != Sha256(b)
    ensures LocalStake(Run(c, steps)) <= LocalStake(c) - Moved(c, steps)
  {
    hide LocalStake, RemoteStake, Run, Claims, Moved, Gain, AllOffers, AllPreimages, Offers;
    RunClaims(c, steps);
    GainBelow(Claims(c, steps));
  }
}
