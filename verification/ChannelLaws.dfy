/**
What every run of channel operations keeps: the money, the shape of the HTLC list, the
per-commitment secrets, and the totals of the commitment transaction.
*/
module ChannelLaws {
  import opened Bits
  import opened Wrappers
  import opened Channel

  // ----- who holds what -----

  /** What an active HTLC holds back from the side that offers in direction `dir` (and pays the fee if `payer`). */
  function Weight(h: Htlc, dir: Direction, payer: bool): (n: nat) {
    if h.state != Active then 0
    else (if h.direction == dir then h.amount else 0) + (if payer then h.fee else 0)
  }

  function HeldBack(hs: seq<Htlc>, dir: Direction, payer: bool): (n: nat) {
    if hs == [] then 0 else HeldBack(hs[..|hs| - 1], dir, payer) + Weight(hs[|hs| - 1], dir, payer)
  }

  /** A side's balance plus what its open HTLCs and reserved fees hold back. */
  function LocalStake(c: Chan): (n: nat) {
    c.local + HeldBack(c.htlcs, Offered, c.funderIsLocal)
  }

  function RemoteStake(c: Chan): (n: nat) {
    c.remote + HeldBack(c.htlcs, Received, !c.funderIsLocal)
  }

  /** Sum over active HTLCs of amount and fee, as client_check_conservation adds them. */
  function Pending(hs: seq<Htlc>): (n: nat) {
    if hs == [] then 0
    else Pending(hs[..|hs| - 1]) + if hs[|hs| - 1].state == Active then hs[|hs| - 1].amount + hs[|hs| - 1].fee else 0
  }

  function Total(c: Chan): (n: nat) {
    c.local + c.remote + Pending(c.htlcs)
  }

  lemma {:induction false} PendingSplit(hs: seq<Htlc>, funderIsLocal: bool)
    ensures Pending(hs) == HeldBack(hs, Offered, funderIsLocal) + HeldBack(hs, Received, !funderIsLocal)
  {
    if hs != [] { PendingSplit(hs[..|hs| - 1], funderIsLocal); }
  }

  lemma TotalIsStakes(c: Chan)
    ensures Total(c) == LocalStake(c) + RemoteStake(c)
  {
    PendingSplit(c.htlcs, c.funderIsLocal);
  }

  lemma {:induction false} HeldCompact(hs: seq<Htlc>, dir: Direction, payer: bool)
    ensures HeldBack(Compact(hs), dir, payer) == HeldBack(hs, dir, payer)
  {
    if hs != [] {
      var t, x := hs[..|hs| - 1], hs[|hs| - 1];
      HeldCompact(t, dir, payer);
      assert (Compact(t) + [x])[..|Compact(t)|] == Compact(t);
      assert Compact(t) + [] == Compact(t);
    }
  }

  lemma {:induction false} HeldUpdate(hs: seq<Htlc>, i: nat, h: Htlc, dir: Direction, payer: bool)
    requires i < |hs|
    ensures HeldBack(hs[i := h], dir, payer) == HeldBack(hs, dir, payer) - Weight(hs[i], dir, payer) + Weight(h, dir, payer)
  {
    hide Weight;
    var n := |hs| - 1;
    var t := hs[..n];
    if i < n {
      HeldUpdate(t, i, h, dir, payer);
      assert hs[i := h][..n] == t[i := h];
    } else {
      assert hs[i := h][..n] == t;
    }
  }

  lemma HeldAppend(hs: seq<Htlc>, h: Htlc, dir: Direction, payer: bool)
    ensures HeldBack(hs + [h], dir, payer) == HeldBack(hs, dir, payer) + Weight(h, dir, payer)
  {
    assert (hs + [h])[..|hs|] == hs;
  }

  lemma {:induction false} HeldMember(hs: seq<Htlc>, i: nat, dir: Direction, payer: bool)
    requires i < |hs|
    ensures Weight(hs[i], dir, payer) <= HeldBack(hs, dir, payer)
  {
    if i < |hs| - 1 { HeldMember(hs[..|hs| - 1], i, dir, payer); }
  }

  // ----- one operation -----

  /** The 64-bit balances never wrap as long as the channel holds less than 2^64. */
  predicate Bounded(c: Chan) {
    LocalStake(c) + RemoteStake(c) < U64
  }

  lemma SettleStakes(c: Chan, i: nat, toLocal: bool, done: Htlc, rng: Rng)
    requires Bounded(c) && i < |c.htlcs| && c.htlcs[i].state == Active && done.state != Active
    ensures var d, h := Settle(c, i, toLocal, done, rng), c.htlcs[i];
            var out := (if toLocal then h.amount else 0) - (if h.direction == Offered then h.amount else 0);
            LocalStake(d) == LocalStake(c) + out && RemoteStake(d) == RemoteStake(c) - out
  {
    hide HeldBack, Compact, Store, Credit;
    var hs := c.htlcs[i := done];
    PaidExactly(c, i, toLocal);
    HeldUpdate(c.htlcs, i, done, Offered, c.funderIsLocal);
    HeldUpdate(c.htlcs, i, done, Received, !c.funderIsLocal);
    HeldCompact(hs, Offered, c.funderIsLocal);
    HeldCompact(hs, Received, !c.funderIsLocal);
  }

  /** Paying out what an active HTLC held never wraps a balance. */
  lemma PaidExactly(c: Chan, i: nat, toLocal: bool)
    requires Bounded(c) && i < |c.htlcs| && c.htlcs[i].state == Active
    ensures var h := c.htlcs[i];
            var d := Credit(Credit(c, toLocal, h.amount), c.funderIsLocal, h.fee);
            && d.local == c.local + (if toLocal then h.amount else 0) + (if c.funderIsLocal then h.fee else 0)
            && d.remote == c.remote + (if toLocal then 0 else h.amount) + (if c.funderIsLocal then 0 else h.fee)
            && d == c.(local := d.local, remote := d.remote)
  {
    hide HeldBack, Credit;
    HeldMember(c.htlcs, i, Offered, c.funderIsLocal);
    HeldMember(c.htlcs, i, Received, !c.funderIsLocal);
    CreditTwice(c, toLocal, c.htlcs[i].amount, c.htlcs[i].fee);
  }

  lemma CreditTwice(c: Chan, toLocal: bool, a: nat, f: nat)
    requires c.local + c.remote + a + f < U64
    ensures var d := Credit(Credit(c, toLocal, a), c.funderIsLocal, f);
            d == c.(local := c.local + (if toLocal then a else 0) + (if c.funderIsLocal then f else 0),
                    remote := c.remote + (if toLocal then 0 else a) + (if c.funderIsLocal then 0 else f))
  {
    NoWrap(c.local + a);
    NoWrap(c.remote + a);
    NoWrap(c.local + f);
    NoWrap(c.remote + f);
    NoWrap(c.local + a + f);
    NoWrap(c.remote + a + f);
  }

  lemma NoWrap(n: nat)
    ensures n < U64 ==> n % U64 == n
  {
  }

  /** What an operation moves to the local side for good: fulfilled amounts and direct moves, nothing else. */
  function Effect(c: Chan, op: Op, rng: Rng): (n: int) {
    if Attempt(c, op, rng).None? then 0
    else match op
      case Fulfill(id, _) =>
        var h := c.htlcs[Find(c.htlcs, id)];
        if h.direction == Offered then 0 - h.amount else h.amount
      case Move(delta) => -delta
      case _ => 0
  }

  lemma AddStakes(c: Chan, dir: Direction, amount: nat, hash: Digest, cltv: nat, rng: Rng)
    requires AddHtlc(c, dir, amount, hash, cltv, rng).Some?
    ensures var d := AddHtlc(c, dir, amount, hash, cltv, rng).value;
            LocalStake(d) == LocalStake(c) && RemoteStake(d) == RemoteStake(c)
  {
    hide HeldBack, HtlcFee, Store;
    var h := Htlc(dir, Active, amount, hash, [], cltv, c.nextId, HtlcFee(c.feeRate));
    HeldAppend(c.htlcs, h, Offered, c.funderIsLocal);
    HeldAppend(c.htlcs, h, Received, !c.funderIsLocal);
  }

  lemma RenameStakes(c: Chan, wireId: nat)
    requires |c.htlcs| > 0
    ensures var d := c.(htlcs := c.htlcs[..|c.htlcs| - 1] + [c.htlcs[|c.htlcs| - 1].(id := wireId)]);
            LocalStake(d) == LocalStake(c) && RemoteStake(d) == RemoteStake(c)
  {
    var n := |c.htlcs| - 1;
    var t, x := c.htlcs[..n], c.htlcs[n];
    HeldAppend(t, x.(id := wireId), Offered, c.funderIsLocal);
    HeldAppend(t, x.(id := wireId), Received, !c.funderIsLocal);
  }

  lemma {:induction false} SweepStakes(c: Chan, i: nat, height: nat, rng: Rng)
    requires Bounded(c)
    ensures var d := SweepFrom(c, i, height, rng).0;
            LocalStake(d) == LocalStake(c) && RemoteStake(d) == RemoteStake(c)
    decreases |c.htlcs| - i
  {
    hide Settle, Find, LocalStake, RemoteStake;
    if i >= |c.htlcs| {
    } else if Expired(c.htlcs[i], height) {
      FindHits(c.htlcs, i);
      FailShrinks(c, c.htlcs[i].id, rng);
      FailStakes(c, c.htlcs[i].id, rng);
      SweepStakes(FailHtlc(c, c.htlcs[i].id, rng).value, i + 1, height, rng);
    } else {
      SweepStakes(c, i + 1, height, rng);
    }
  }

  lemma FailStakes(c: Chan, id: nat, rng: Rng)
    requires Bounded(c) && FailHtlc(c, id, rng).Some?
    ensures var d := FailHtlc(c, id, rng).value;
            LocalStake(d) == LocalStake(c) && RemoteStake(d) == RemoteStake(c)
  {
    hide Settle, LocalStake, RemoteStake;
    var i := Find(c.htlcs, id);
    SettleStakes(c, i, c.htlcs[i].direction == Offered, c.htlcs[i].(state := Failed), rng);
  }

  /** One operation, accepted or refused, changes the two stakes by exactly its effect. */
  lemma StakeStep(c: Chan, op: Op, rng: Rng)
    requires Bounded(c)
    ensures LocalStake(Apply(c, op, rng)) == LocalStake(c) + Effect(c, op, rng)
    ensures RemoteStake(Apply(c, op, rng)) == RemoteStake(c) - Effect(c, op, rng)
    ensures Bounded(Apply(c, op, rng))
  {
    hide Settle, HtlcFee, Store, Find, SweepFrom, Channel.AddHtlc, Channel.Update, LocalStake, RemoteStake;
    if Attempt(c, op, rng).Some? {
      match op
      case Add(dir, amount, hash, cltv) => AddStakes(c, dir, amount, hash, cltv, rng);
      case AddFromWire(dir, msat, hash, cltv, wireId) =>
        AddStakes(c, dir, msat / 1000, hash, cltv, rng);
        AddRate(c, dir, msat / 1000, hash, cltv, rng);
        RenameStakes(AddHtlc(c, dir, msat / 1000, hash, cltv, rng).value, wireId);
      case Fulfill(id, preimage) =>
        var i := Find(c.htlcs, id);
        SettleStakes(c, i, c.htlcs[i].direction == Received, c.htlcs[i].(state := Fulfilled, preimage := preimage), rng);
      case Fail(id) => FailStakes(c, id, rng);
      case Move(delta) => MoveStakes(c, delta, rng);
      case FeeRate(rate) => SameStakes(c, c.(feeRate := rate));
      case Freeze(on) => SameStakes(c, c.(frozen := on));
      case Timeouts(height) =>
        SameStakes(c, c.(lastHeight := height));
        if height >= c.lastHeight { SweepStakes(c.(lastHeight := height), 0, height, rng); }
    }
  }

  lemma SameStakes(c: Chan, d: Chan)
    requires d.local == c.local && d.remote == c.remote && d.htlcs == c.htlcs && d.funderIsLocal == c.funderIsLocal
    ensures LocalStake(d) == LocalStake(c) && RemoteStake(d) == RemoteStake(c)
  {
  }

  lemma MoveStakes(c: Chan, delta: int, rng: Rng)
    requires Bounded(c) && Channel.Update(c, delta, rng).Some?
    ensures var d := Channel.Update(c, delta, rng).value;
            LocalStake(d) == LocalStake(c) - delta && RemoteStake(d) == RemoteStake(c) + delta
  {
    hide Store, HeldBack;
  }

  // ----- whole runs -----

  function NetEffect(c: Chan, steps: seq<Step>): (n: int)
    decreases |steps|
  {
    if steps == [] then 0
    else Effect(c, steps[0].op, steps[0].rng) + NetEffect(Apply(c, steps[0].op, steps[0].rng), steps[1..])
  }

  /** Over every run the stakes move by exactly the fulfilled amounts and direct moves. */
  lemma {:induction false} RunStakes(c: Chan, steps: seq<Step>)
    requires Bounded(c)
    ensures LocalStake(Run(c, steps)) == LocalStake(c) + NetEffect(c, steps)
    ensures RemoteStake(Run(c, steps)) == RemoteStake(c) - NetEffect(c, steps)
    decreases |steps|
  {
    hide LocalStake, RemoteStake, Effect, Apply;
    if steps != [] {
      StakeStep(c, steps[0].op, steps[0].rng);
      RunStakes(Apply(c, steps[0].op, steps[0].rng), steps[1..]);
    }
  }

  /** local + remote + sum of active (amount + fee) never changes. */
  lemma Conservation(c: Chan, steps: seq<Step>)
    requires Total(c) < U64
    ensures Total(Run(c, steps)) == Total(c)
  {
    hide LocalStake, RemoteStake, Total;
    TotalIsStakes(c);
    RunStakes(c, steps);
    TotalIsStakes(Run(c, steps));
  }

  predicate NoActive(hs: seq<Htlc>) {
    forall i | 0 <= i < |hs| :: hs[i].state != Active
  }

  lemma {:induction false} NoActiveHoldsNothing(hs: seq<Htlc>, dir: Direction, payer: bool)
    requires NoActive(hs)
    ensures HeldBack(hs, dir, payer) == 0
  {
    if hs != [] { NoActiveHoldsNothing(hs[..|hs| - 1], dir, payer); }
  }

  /** Between payments each balance is the opening balance plus or minus exactly what was fulfilled or moved. */
  lemma SettledBalances(c: Chan, steps: seq<Step>)
    requires Total(c) < U64 && NoActive(c.htlcs) && NoActive(Run(c, steps).htlcs)
    ensures Run(c, steps).local == c.local + NetEffect(c, steps)
    ensures Run(c, steps).remote == c.remote - NetEffect(c, steps)
  {
    TotalIsStakes(c);
    RunStakes(c, steps);
    FunderKept(c, steps);
    hide Run, NetEffect, HeldBack;
    var d := Run(c, steps);
    NoActiveHoldsNothing(c.htlcs, Offered, c.funderIsLocal);
    NoActiveHoldsNothing(c.htlcs, Received, !c.funderIsLocal);
    NoActiveHoldsNothing(d.htlcs, Offered, d.funderIsLocal);
    NoActiveHoldsNothing(d.htlcs, Received, !d.funderIsLocal);
  }

  lemma {:induction false} FunderKept(c: Chan, steps: seq<Step>)
    ensures Run(c, steps).funderIsLocal == c.funderIsLocal
    decreases |steps|
  {
    hide Apply;
    if steps != [] {
      RateStep(c, steps[0].op, steps[0].rng);
      FunderKept(Apply(c, steps[0].op, steps[0].rng), steps[1..]);
    }
  }

  // ----- shape of the list and of the secrets -----

  predicate ShownActive(hs: seq<Htlc>) {
    forall i | 0 <= i < |hs| :: hs[i].state == Active && hs[i].amount >= DUST
  }

  /** Reachable states: only live, non-dust entries; secrets for 0 .. commitment + 1. */
  predicate Shaped(c: Chan) {
    ShownActive(c.htlcs) && |c.htlcs| <= MAX_HTLCS && |c.secrets| == c.commitment + 2
  }

  /** `d` follows `c`: one new secret per commitment, all earlier ones untouched. */
  predicate Extends(c: Chan, d: Chan) {
    c.secrets <= d.secrets && |d.secrets| - |c.secrets| == d.commitment - c.commitment
  }

  lemma {:induction false} CompactMembers(hs: seq<Htlc>)
    ensures forall i | 0 <= i < |Compact(hs)| :: Compact(hs)[i].state == Active && Compact(hs)[i] in hs
  {
    if hs != [] { CompactMembers(hs[..|hs| - 1]); }
  }

  lemma AdvanceExtends(c: Chan, rng: Rng)
    requires |c.secrets| == c.commitment + 2
    ensures Extends(c, Advance(c, rng)) && Advance(c, rng).commitment == c.commitment + 1
    ensures Advance(c, rng).secrets == c.secrets + [rng(c.commitment + 2)]
  {
  }

  lemma SettleShape(c: Chan, i: nat, toLocal: bool, done: Htlc, rng: Rng)
    requires Shaped(c) && i < |c.htlcs| && done.state != Active
    ensures var d := Settle(c, i, toLocal, done, rng);
            Shaped(d) && Extends(c, d) && d.commitment == c.commitment + 1
  {
    hide Compact, Store;
    var hs := c.htlcs[i := done];
    CompactMembers(hs);
    CompactShorter(hs);
    var paid := Credit(Credit(c, toLocal, c.htlcs[i].amount), c.funderIsLocal, c.htlcs[i].fee);
    AdvanceExtends(paid, rng);
    forall k | 0 <= k < |Compact(hs)|
      ensures Compact(hs)[k].amount >= DUST
    {
      var h := Compact(hs)[k];
      assert h in hs && h.state == Active;
      assert h in c.htlcs;
    }
  }

  lemma {:induction false} SweepShape(c: Chan, i: nat, height: nat, rng: Rng)
    requires Shaped(c)
    ensures var d := SweepFrom(c, i, height, rng).0; Shaped(d) && Extends(c, d)
    decreases |c.htlcs| - i
  {
    hide Settle, Shaped;
    if i >= |c.htlcs| {
    } else if Expired(c.htlcs[i], height) {
      FindHits(c.htlcs, i);
      FailShrinks(c, c.htlcs[i].id, rng);
      var k := Find(c.htlcs, c.htlcs[i].id);
      SettleShape(c, k, c.htlcs[k].direction == Offered, c.htlcs[k].(state := Failed), rng);
      SweepShape(FailHtlc(c, c.htlcs[i].id, rng).value, i + 1, height, rng);
    } else {
      SweepShape(c, i + 1, height, rng);
    }
  }

  lemma AddShape(c: Chan, dir: Direction, amount: nat, hash: Digest, cltv: nat, rng: Rng)
    requires Shaped(c) && AddHtlc(c, dir, amount, hash, cltv, rng).Some?
    ensures var d := AddHtlc(c, dir, amount, hash, cltv, rng).value;
            Shaped(d) && Extends(c, d) && d.commitment == c.commitment + 1 && |d.htlcs| == |c.htlcs| + 1
  {
    hide Store, HtlcFee;
    AdvanceExtends(c, rng);
  }

  /** Every operation keeps the shape; each of the four that change the commitment adds exactly one secret. */
  lemma ShapeStep(c: Chan, op: Op, rng: Rng)
    requires Shaped(c)
    ensures Shaped(Apply(c, op, rng)) && Extends(c, Apply(c, op, rng))
    ensures Attempt(c, op, rng).Some? && !op.FeeRate? && !op.Freeze? && !op.Timeouts? ==>
              Apply(c, op, rng).commitment == c.commitment + 1
  {
    hide Settle, AddHtlc, Compact, Store;
    if Attempt(c, op, rng).Some? {
      match op
      case Add(dir, amount, hash, cltv) => AddShape(c, dir, amount, hash, cltv, rng);
      case AddFromWire(dir, msat, hash, cltv, wireId) => AddShape(c, dir, msat / 1000, hash, cltv, rng);
      case Fulfill(id, preimage) =>
        var i := Find(c.htlcs, id);
        SettleShape(c, i, c.htlcs[i].direction == Received, c.htlcs[i].(state := Fulfilled, preimage := preimage), rng);
      case Fail(id) =>
        var i := Find(c.htlcs, id);
        SettleShape(c, i, c.htlcs[i].direction == Offered, c.htlcs[i].(state := Failed), rng);
      case Move(delta) => AdvanceExtends(c.(local := (c.local - delta) % U64, remote := (c.remote + delta) % U64), rng);
      case FeeRate(rate) =>
      case Freeze(on) =>
      case Timeouts(height) =>
        if height >= c.lastHeight { SweepShape(c.(lastHeight := height), 0, height, rng); }
    }
  }

  /** Over every run secrets exist for 0 .. commitment + 1 and no stored secret ever changes. */
  lemma {:induction false} RunShape(c: Chan, steps: seq<Step>)
    requires Shaped(c)
    ensures Shaped(Run(c, steps)) && Extends(c, Run(c, steps))
    decreases |steps|
  {
    hide Shaped, Apply;
    if steps != [] {
      ShapeStep(c, steps[0].op, steps[0].rng);
      RunShape(Apply(c, steps[0].op, steps[0].rng), steps[1..]);
    }
  }

  // ----- the commitment transaction's totals -----

  function Paid(outs: seq<Output>): (n: nat) {
    if outs == [] then 0 else Paid(outs[..|outs| - 1]) + outs[|outs| - 1].amount
  }

  function Fees(hs: seq<Htlc>): (n: nat) {
    if hs == [] then 0 else Fees(hs[..|hs| - 1]) + if hs[|hs| - 1].state == Active then hs[|hs| - 1].fee else 0
  }

  function PtlcValue(ps: seq<Ptlc>): (n: nat) {
    if ps == [] then 0 else PtlcValue(ps[..|ps| - 1]) + if PtlcShown(ps[|ps| - 1]) then ps[|ps| - 1].amount else 0
  }

  lemma {:induction false} PaidConcat(a: seq<Output>, b: seq<Output>)
    ensures Paid(a + b) == Paid(a) + Paid(b)
  {
    if b == [] {
      assert a + b == a;
    } else {
      PaidConcat(a, b[..|b| - 1]);
      assert (a + b)[..|a + b| - 1] == a + b[..|b| - 1];
    }
  }

  lemma {:induction false} HtlcsPaid(c: Chan, pcp: Point, hs: seq<Htlc>)
    requires ShownActive(hs)
    ensures |HtlcOutputs(c, pcp, hs)| == |hs| && Paid(HtlcOutputs(c, pcp, hs)) + Fees(hs) == Pending(hs)
  {
    hide HtlcOutput;
    if hs != [] {
      var t, x := hs[..|hs| - 1], hs[|hs| - 1];
      HtlcsPaid(c, pcp, t);
      OneOutput(HtlcOutputs(c, pcp, t), HtlcOutput(c, pcp, x));
      HtlcAmount(c, pcp, x);
    }
  }

  lemma HtlcAmount(c: Chan, pcp: Point, h: Htlc)
    ensures HtlcOutput(c, pcp, h).amount == h.amount
  {
  }

  lemma OneOutput(a: seq<Output>, x: Output)
    ensures Paid(a + [x]) == Paid(a) + x.amount
  {
    assert (a + [x])[..|a|] == a;
  }

  lemma {:induction false} PtlcsPaid(c: Chan, pcp: Point, ps: seq<Ptlc>)
    ensures Paid(PtlcOutputs(c, pcp, ps)) == PtlcValue(ps)
  {
    hide PtlcOutput;
    if ps != [] {
      var t, x := ps[..|ps| - 1], ps[|ps| - 1];
      PtlcsPaid(c, pcp, t);
      OneOutput(PtlcOutputs(c, pcp, t), PtlcOutput(c, pcp, x));
      assert PtlcOutputs(c, pcp, t) + [] == PtlcOutputs(c, pcp, t);
      PtlcAmount(c, pcp, x);
    }
  }

  lemma PtlcAmount(c: Chan, pcp: Point, p: Ptlc)
    ensures PtlcOutput(c, pcp, p).amount == p.amount
  {
  }

  /** No HTLC is trimmed, and the outputs pay out exactly the channel's total minus the reserved fees. */
  lemma CommitmentTotals(c: Chan, pcp: Point)
    requires Shaped(c)
    ensures |HtlcOutputs(c, pcp, c.htlcs)| == |c.htlcs|
    ensures Paid(Commitment(c, pcp).outputs) + Fees(c.htlcs) == Total(c) + PtlcValue(c.ptlcs)
  {
    hide HtlcOutputs, PtlcOutputs, Fees, PtlcValue, Pending;
    var a, b, d := [ToLocal(c, pcp), ToRemote(c, pcp)], HtlcOutputs(c, pcp, c.htlcs), PtlcOutputs(c, pcp, c.ptlcs);
    HtlcsPaid(c, pcp, c.htlcs);
    PtlcsPaid(c, pcp, c.ptlcs);
    PaidConcat(a + b, d);
    PaidConcat(a, b);
    assert a == ([] + [ToLocal(c, pcp)]) + [ToRemote(c, pcp)];
    OneOutput([], ToLocal(c, pcp));
    OneOutput([] + [ToLocal(c, pcp)], ToRemote(c, pcp));
  }

  // ----- the client's own check -----

  /** What client_check_conservation expects the sum to be: funding minus the base fee at the current rate. */
  function Expected(funding: nat, rate: nat): (n: nat) {
    var base := (rate * 154 + 999) % U64 / 1000;
    if funding > base then funding - base else 0
  }

  /** client_check_conservation passes. */
  predicate CheckPasses(c: Chan, funding: nat) {
    funding == 0 || Total(c) % U64 == Expected(funding, c.feeRate)
  }

  /** The fee rate after a run, from its steps alone: the last one set. */
  function RateAfter(rate: nat, steps: seq<Step>): (r: nat)
    decreases |steps|
  {
    if steps == [] then rate
    else RateAfter(if steps[0].op.FeeRate? then steps[0].op.rate else rate, steps[1..])
  }

  lemma SettleRate(c: Chan, i: nat, toLocal: bool, done: Htlc, rng: Rng)
    requires i < |c.htlcs|
    ensures var d := Settle(c, i, toLocal, done, rng); d.feeRate == c.feeRate && d.funderIsLocal == c.funderIsLocal
  {
    hide Store, Compact;
  }

  lemma {:induction false} SweepRate(c: Chan, i: nat, height: nat, rng: Rng)
    ensures var d := SweepFrom(c, i, height, rng).0; d.feeRate == c.feeRate && d.funderIsLocal == c.funderIsLocal
    decreases |c.htlcs| - i
  {
    hide Settle, Find;
    if i >= |c.htlcs| {
    } else if Expired(c.htlcs[i], height) {
      FindHits(c.htlcs, i);
      FailShrinks(c, c.htlcs[i].id, rng);
      var k := Find(c.htlcs, c.htlcs[i].id);
      SettleRate(c, k, c.htlcs[k].direction == Offered, c.htlcs[k].(state := Failed), rng);
      SweepRate(FailHtlc(c, c.htlcs[i].id, rng).value, i + 1, height, rng);
    } else {
      SweepRate(c, i + 1, height, rng);
    }
  }

  lemma AddRate(c: Chan, dir: Direction, amount: nat, hash: Digest, cltv: nat, rng: Rng)
    ensures var r := AddHtlc(c, dir, amount, hash, cltv, rng);
            r.Some? ==> r.value.feeRate == c.feeRate && r.value.funderIsLocal == c.funderIsLocal && |r.value.htlcs| > 0
  {
    hide Store, HtlcFee;
  }

  lemma RateStep(c: Chan, op: Op, rng: Rng)
    ensures Apply(c, op, rng).feeRate == if op.FeeRate? then op.rate else c.feeRate
    ensures Apply(c, op, rng).funderIsLocal == c.funderIsLocal
  {
    hide Store, Settle, Channel.AddHtlc, SweepFrom, Find;
    match op
    case Add(dir, amount, hash, cltv) => AddRate(c, dir, amount, hash, cltv, rng);
    case AddFromWire(dir, msat, hash, cltv, wireId) => AddRate(c, dir, msat / 1000, hash, cltv, rng);
    case Fulfill(id, preimage) =>
      var i := Find(c.htlcs, id);
      if i < |c.htlcs| {
        SettleRate(c, i, c.htlcs[i].direction == Received, c.htlcs[i].(state := Fulfilled, preimage := preimage), rng);
      }
    case Fail(id) =>
      var i := Find(c.htlcs, id);
      if i < |c.htlcs| { SettleRate(c, i, c.htlcs[i].direction == Offered, c.htlcs[i].(state := Failed), rng); }
    case Timeouts(height) => SweepRate(c.(lastHeight := height), 0, height, rng);
    case _ =>
  }

  /** The rate after every run is the last one set. */
  lemma {:induction false} RunRate(c: Chan, steps: seq<Step>)
    ensures Run(c, steps).feeRate == RateAfter(c.feeRate, steps)
    decreases |steps|
  {
    hide Apply;
    if steps != [] {
      RateStep(c, steps[0].op, steps[0].rng);
      RunRate(Apply(c, steps[0].op, steps[0].rng), steps[1..]);
    }
  }

  /** The check keeps passing over every run whose last fee rate is the one it started with. */
  lemma CheckStays(c: Chan, funding: nat, steps: seq<Step>)
    requires Total(c) < U64 && CheckPasses(c, funding) && RateAfter(c.feeRate, steps) == c.feeRate
    ensures CheckPasses(Run(c, steps), funding)
  {
    hide Total, Run, RateAfter;
    Conservation(c, steps);
    RunRate(c, steps);
  }

  /**
  Before a run it is known whether the check will pass after it: exactly when the money at
  the start is what the last rate set makes it expect.  A channel that passes now will pass
  exactly when that rate leaves the same expected sum.
  */
  lemma CheckExactly(c: Chan, funding: nat, steps: seq<Step>)
    requires Total(c) < U64 && funding > 0
    ensures CheckPasses(Run(c, steps), funding) <==> Total(c) == Expected(funding, RateAfter(c.feeRate, steps))
    ensures CheckPasses(c, funding) ==>
              (CheckPasses(Run(c, steps), funding) <==>
               Expected(funding, RateAfter(c.feeRate, steps)) == Expected(funding, c.feeRate))
  {
    hide Total, Run, Expected, RateAfter;
    Conservation(c, steps);
    RunRate(c, steps);
  }

  /** A balanced channel fails the check as soon as the fee rate moves: 1000 to 2000 sat/kvB. */
  lemma CheckTripsOnFeeChange(c: Chan, rng: Rng)
    requires Total(c) == 100000 - 154 && c.feeRate == 1000
    ensures CheckPasses(c, 100000) && !CheckPasses(Run(c, [Step(FeeRate(2000), rng)]), 100000)
  {
    hide Pending;
    var s := [Step(FeeRate(2000), rng)];
    assert s[1..] == [];
    assert Run(c, s) == c.(feeRate := 2000);
  }
}
