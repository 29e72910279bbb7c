/**
The channel reserve (src/channel.c:1699-1741).  The reserve is checked before the fee is
taken, so it is kept for the side that does not fund the channel, and not for the other.
*/
module ChannelReserve {
  import opened Bits
  import opened Channel
  import opened ChannelLaws

  function NonFunder(c: Chan): (n: nat) {
    if c.funderIsLocal then c.remote else c.local
  }

  predicate KeepsReserve(c: Chan) {
    NonFunder(c) >= RESERVE
  }

  /** An accepted add leaves its payer the reserve, less the fee if the payer funds the channel; the other side pays at most that fee. */
  lemma AddReserve(c: Chan, dir: Direction, amount: nat, hash: Digest, cltv: nat, rng: Rng)
    requires AddHtlc(c, dir, amount, hash, cltv, rng).Some?
    ensures var d, fee := AddHtlc(c, dir, amount, hash, cltv, rng).value, HtlcFee(c.feeRate);
            && d.funderIsLocal == c.funderIsLocal
            && d.local + (if dir == Offered then amount else 0) + (if c.funderIsLocal then fee else 0) == c.local
            && d.remote + (if dir == Offered then 0 else amount) + (if c.funderIsLocal then 0 else fee) == c.remote
            && (dir == Offered ==> d.local + (if c.funderIsLocal then fee else 0) >= RESERVE)
            && (dir == Received ==> d.remote + (if c.funderIsLocal then 0 else fee) >= RESERVE)
  {
    hide HtlcFee, Store;
  }

  /** The payer of an accepted add keeps the reserve exactly when it is not the funder or can spare the fee too. */
  lemma AddReserveExactly(c: Chan, dir: Direction, amount: nat, hash: Digest, cltv: nat, rng: Rng)
    requires AddHtlc(c, dir, amount, hash, cltv, rng).Some?
    ensures var d := AddHtlc(c, dir, amount, hash, cltv, rng).value;
            var before, after := if dir == Offered then c.local else c.remote, if dir == Offered then d.local else d.remote;
            after >= RESERVE <==>
            c.funderIsLocal != (dir == Offered) || before >= amount + HtlcFee(c.feeRate) + RESERVE
  {
    hide HtlcFee, Channel.AddHtlc;
    AddReserve(c, dir, amount, hash, cltv, rng);
  }

  function Funder(c: Chan): (n: nat) {
    if c.funderIsLocal then c.local else c.remote
  }

  /**
  The funder holds the reserve after an accepted add exactly when it can spare the fee
  beside it, and the amount too if it is also the payer.
  */
  lemma FunderReserveExactly(c: Chan, dir: Direction, amount: nat, hash: Digest, cltv: nat, rng: Rng)
    requires AddHtlc(c, dir, amount, hash, cltv, rng).Some?
    ensures var d := AddHtlc(c, dir, amount, hash, cltv, rng).value;
            Funder(d) >= RESERVE <==>
            Funder(c) >= (if c.funderIsLocal == (dir == Offered) then amount else 0) + HtlcFee(c.feeRate) + RESERVE
  {
    hide HtlcFee, Channel.AddHtlc;
    AddReserve(c, dir, amount, hash, cltv, rng);
  }

  /** A funder left with less than the reserve by an HTLC the peer offers: by the fee, and down to nothing. */
  lemma FunderPaysForPeer(c: Chan, hash: Digest, rng: Rng)
    requires c.funderIsLocal && !c.frozen && |c.htlcs| < MAX_HTLCS && c.remote == 1000 + RESERVE && c.feeRate == 1000
    ensures c.local >= 43 ==>
              var r := AddHtlc(c, Received, 1000, hash, 500, rng); r.Some? && r.value.local == c.local - 43
  {
    hide Store;
    assert HtlcFee(1000) == 43;
  }

  /** A funder left with 43 satoshi less than the reserve by one add. */
  lemma FunderBelowReserve(c: Chan, hash: Digest, rng: Rng)
    requires c.funderIsLocal && !c.frozen && |c.htlcs| < MAX_HTLCS && c.local == 1000 + RESERVE && c.feeRate == 1000
    ensures var r := AddHtlc(c, Offered, 1000, hash, 500, rng); r.Some? && r.value.local == RESERVE - 43
  {
    hide Store;
    assert HtlcFee(1000) == 43;
  }

  /** Neither balance shrinks. */
  predicate Grows(c: Chan, d: Chan) {
    d.local >= c.local && d.remote >= c.remote && d.funderIsLocal == c.funderIsLocal
  }

  lemma SettleGrows(c: Chan, i: nat, toLocal: bool, done: Htlc, rng: Rng)
    requires Bounded(c) && i < |c.htlcs| && c.htlcs[i].state == Active
    ensures Grows(c, Settle(c, i, toLocal, done, rng))
  {
    hide Compact, Store, Credit, Bounded;
    PaidExactly(c, i, toLocal);
  }

  lemma FailGrows(c: Chan, id: nat, rng: Rng)
    requires Bounded(c) && FailHtlc(c, id, rng).Some?
    ensures Grows(c, FailHtlc(c, id, rng).value)
  {
    hide Settle, Grows, Bounded;
    var i := Find(c.htlcs, id);
    SettleGrows(c, i, c.htlcs[i].direction == Offered, c.htlcs[i].(state := Failed), rng);
  }

  lemma {:induction false} SweepGrows(c: Chan, i: nat, height: nat, rng: Rng)
    requires Bounded(c)
    ensures Grows(c, SweepFrom(c, i, height, rng).0)
    decreases |c.htlcs| - i
  {
    hide Settle, Find, LocalStake, RemoteStake;
    if i >= |c.htlcs| {
    } else if Expired(c.htlcs[i], height) {
      var id := c.htlcs[i].id;
      FindHits(c.htlcs, i);
      FailShrinks(c, id, rng);
      FailStakes(c, id, rng);
      FailGrows(c, id, rng);
      SweepGrows(FailHtlc(c, id, rng).value, i + 1, height, rng);
    } else {
      SweepGrows(c, i + 1, height, rng);
    }
  }

  /** Every operation that neither adds nor moves leaves both balances at least what they were. */
  lemma OthersGrow(c: Chan, op: Op, rng: Rng)
    requires Bounded(c) && !op.Add? && !op.AddFromWire? && !op.Move?
    ensures Grows(c, Apply(c, op, rng))
  {
    hide Settle, SweepFrom, Find, LocalStake, RemoteStake;
    if Attempt(c, op, rng).Some? {
      match op
      case Fulfill(id, preimage) =>
        var i := Find(c.htlcs, id);
        SettleGrows(c, i, c.htlcs[i].direction == Received, c.htlcs[i].(state := Fulfilled, preimage := preimage), rng);
      case Fail(id) => FailGrows(c, id, rng);
      case FeeRate(rate) =>
      case Freeze(on) =>
      case Timeouts(height) =>
        var d := c.(lastHeight := height);
        assert Bounded(d) by { HeightBounded(c, height); }
        if height >= c.lastHeight { SweepGrows(d, 0, height, rng); }
    }
  }

  /** A direct move is refused or leaves the side that does not fund the channel its reserve; other operations always do. */
  predicate Spares(c: Chan, op: Op) {
    op.Move? ==>
      || op.delta > c.local || -op.delta > c.remote
      || (if c.funderIsLocal then c.remote + op.delta else c.local - op.delta) >= RESERVE
  }

  /** One operation keeps that reserve exactly when it is not a move that takes it. */
  lemma ReserveStepExactly(c: Chan, op: Op, rng: Rng)
    requires Bounded(c) && KeepsReserve(c)
    ensures KeepsReserve(Apply(c, op, rng)) <==> Spares(c, op)
  {
    hide HtlcFee, Channel.AddHtlc, LocalStake, RemoteStake, Channel.Update;
    match op
    case Move(delta) => MoveIs(c, delta, rng);
    case Add(dir, amount, hash, cltv) =>
      if Attempt(c, op, rng).Some? { AddReserve(c, dir, amount, hash, cltv, rng); }
    case AddFromWire(dir, msat, hash, cltv, _) =>
      if Attempt(c, op, rng).Some? { AddReserve(c, dir, msat / 1000, hash, cltv, rng); }
    case _ => OthersGrow(c, op, rng);
  }

  lemma MoveIs(c: Chan, delta: int, rng: Rng)
    requires Bounded(c)
    ensures var r := Channel.Update(c, delta, rng);
            && (r.None? <==> delta > c.local || -delta > c.remote)
            && (r.Some? ==> r.value.local == c.local - delta && r.value.remote == c.remote + delta
                            && r.value.funderIsLocal == c.funderIsLocal)
  {
    hide Store, HeldBack;
  }

  lemma HeightBounded(c: Chan, height: nat)
    requires Bounded(c)
    ensures Bounded(c.(lastHeight := height))
  {
  }

  predicate SparesAll(c: Chan, steps: seq<Step>)
    decreases |steps|
  {
    steps == [] || (Spares(c, steps[0].op) && SparesAll(Apply(c, steps[0].op, steps[0].rng), steps[1..]))
  }

  /** Over every run whose moves spare it, the side that does not fund the channel keeps its reserve. */
  lemma {:induction false} ReserveKept(c: Chan, steps: seq<Step>)
    requires Total(c) < U64 && KeepsReserve(c) && SparesAll(c, steps)
    ensures KeepsReserve(Run(c, steps))
    decreases |steps|
  {
    hide KeepsReserve, Apply, LocalStake, RemoteStake, Total, Spares;
    TotalIsStakes(c);
    if steps != [] {
      StakeStep(c, steps[0].op, steps[0].rng);
      ReserveStepExactly(c, steps[0].op, steps[0].rng);
      TotalIsStakes(Apply(c, steps[0].op, steps[0].rng));
      ReserveKept(Apply(c, steps[0].op, steps[0].rng), steps[1..]);
    }
  }

  // ----- the funder -----

  /** channel_add_htlc accepts: the checks it makes, the last of them that the funder can pay the fee. */
  predicate Accepts(c: Chan, dir: Direction, amount: nat) {
    var payer := if dir == Offered then c.local else c.remote;
    && !c.frozen && |c.htlcs| < MAX_HTLCS && DUST <= amount && amount + RESERVE <= payer
    && Funder(c) >= (if c.funderIsLocal == (dir == Offered) then amount else 0) + HtlcFee(c.feeRate)
  }

  /** The same with the limits written out: 546 satoshi of dust, 5000 of reserve, 483 HTLCs, 43 virtual bytes of fee. */
  lemma AddExactly(c: Chan, dir: Direction, amount: nat, hash: Digest, cltv: nat, rng: Rng)
    requires c.feeRate * 43 + 999 < U64
    ensures AddHtlc(c, dir, amount, hash, cltv, rng).Some? <==>
            var payer, funder := if dir == Offered then c.local else c.remote, if c.funderIsLocal then c.local else c.remote;
            && !c.frozen && |c.htlcs| < 483 && 546 <= amount && amount + 5000 <= payer
            && 1000 * (funder - if c.funderIsLocal == (dir == Offered) then amount else 0) >= 43 * c.feeRate
  {
    hide Channel.AddHtlc;
    AcceptsExactly(c, dir, amount, hash, cltv, rng);
  }

  lemma AcceptsExactly(c: Chan, dir: Direction, amount: nat, hash: Digest, cltv: nat, rng: Rng)
    ensures AddHtlc(c, dir, amount, hash, cltv, rng).Some? <==> Accepts(c, dir, amount)
  {
    hide HtlcFee, Store;
  }

  /** An add is refused or leaves the funder its reserve after the fee; so is a direct move. */
  predicate FunderSpares(c: Chan, op: Op) {
    match op
    case Add(dir, amount, _, _) => AddSpares(c, dir, amount)
    case AddFromWire(dir, msat, _, _, _) => AddSpares(c, dir, msat / 1000)
    case Move(delta) =>
      || delta > c.local || -delta > c.remote
      || (if c.funderIsLocal then c.local - delta else c.remote + delta) >= RESERVE
    case _ => true
  }

  predicate AddSpares(c: Chan, dir: Direction, amount: nat) {
    Accepts(c, dir, amount) ==>
      Funder(c) >= (if c.funderIsLocal == (dir == Offered) then amount else 0) + HtlcFee(c.feeRate) + RESERVE
  }

  /** One operation keeps the funder's reserve exactly when it is no add or move that takes it. */
  lemma FunderStepExactly(c: Chan, op: Op, rng: Rng)
    requires Bounded(c) && Funder(c) >= RESERVE
    ensures Funder(Apply(c, op, rng)) >= RESERVE <==> FunderSpares(c, op)
  {
    hide HtlcFee, Channel.AddHtlc, LocalStake, RemoteStake, Channel.Update, Accepts;
    match op
    case Move(delta) => MoveIs(c, delta, rng);
    case Add(dir, amount, hash, cltv) =>
      AcceptsExactly(c, dir, amount, hash, cltv, rng);
      if Attempt(c, op, rng).Some? { FunderReserveExactly(c, dir, amount, hash, cltv, rng); }
    case AddFromWire(dir, msat, hash, cltv, _) =>
      AcceptsExactly(c, dir, msat / 1000, hash, cltv, rng);
      if Attempt(c, op, rng).Some? {
        AddReserve(c, dir, msat / 1000, hash, cltv, rng);
        FunderReserveExactly(c, dir, msat / 1000, hash, cltv, rng);
      }
    case _ => OthersGrow(c, op, rng);
  }

  predicate FunderSparesAll(c: Chan, steps: seq<Step>)
    decreases |steps|
  {
    steps == [] || (FunderSpares(c, steps[0].op) && FunderSparesAll(Apply(c, steps[0].op, steps[0].rng), steps[1..]))
  }

  /** The funder holds the reserve before and after every step. */
  predicate FunderHolds(c: Chan, steps: seq<Step>)
    decreases |steps|
  {
    Funder(c) >= RESERVE && (steps == [] || FunderHolds(Apply(c, steps[0].op, steps[0].rng), steps[1..]))
  }

  /** Over every run the funder holds the reserve throughout exactly when every step spares it. */
  lemma {:induction false} FunderHoldsExactly(c: Chan, steps: seq<Step>)
    requires Total(c) < U64 && Funder(c) >= RESERVE
    ensures FunderHolds(c, steps) <==> FunderSparesAll(c, steps)
    decreases |steps|
  {
    hide Apply, LocalStake, RemoteStake, Total, FunderSpares, Funder;
    TotalIsStakes(c);
    if steps != [] {
      var d := Apply(c, steps[0].op, steps[0].rng);
      StakeStep(c, steps[0].op, steps[0].rng);
      FunderStepExactly(c, steps[0].op, steps[0].rng);
      TotalIsStakes(d);
      if Funder(d) >= RESERVE { FunderHoldsExactly(d, steps[1..]); }
    }
  }
}
