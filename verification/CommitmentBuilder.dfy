/**
The commitment-transaction builder as the loops that fill its output array
(src/channel.c:602-939), and the expiry watchdog (src/cltv_watchdog.c).
*/
module CommitmentBuilder {
  import opened Bits
  import opened Wrappers
  import opened Channel
  import opened ChannelLaws
  import opened ChannelTimeouts
  import opened ChannelObject

  method CountHtlcs(c: Chan, pcp: Point) returns (n: nat)
    ensures n == |HtlcOutputs(c, pcp, c.htlcs)|
  {
    hide HtlcOutput;
    n := 0;
    for i := 0 to |c.htlcs|
      invariant n == |HtlcOutputs(c, pcp, c.htlcs[..i])|
    {
      assert c.htlcs[..i + 1][..i] == c.htlcs[..i];
      if c.htlcs[i].state == Active && c.htlcs[i].amount >= DUST {
        n := n + 1;
      }
    }
    assert c.htlcs[..|c.htlcs|] == c.htlcs;
  }

  method CountPtlcs(c: Chan, pcp: Point) returns (n: nat)
    ensures n == |PtlcOutputs(c, pcp, c.ptlcs)|
  {
    hide PtlcOutput;
    n := 0;
    for i := 0 to |c.ptlcs|
      invariant n == |PtlcOutputs(c, pcp, c.ptlcs[..i])|
    {
      assert c.ptlcs[..i + 1][..i] == c.ptlcs[..i];
      if c.ptlcs[i].active && c.ptlcs[i].amount >= DUST {
        n := n + 1;
      }
    }
    assert c.ptlcs[..|c.ptlcs|] == c.ptlcs;
  }

  lemma {:induction false} HtlcOutputsPrefix(c: Chan, pcp: Point, i: nat, n: nat)
    requires i <= n <= |c.htlcs|
    ensures |HtlcOutputs(c, pcp, c.htlcs[..i])| <= |HtlcOutputs(c, pcp, c.htlcs[..n])|
    decreases n
  {
    hide HtlcOutput;
    if i < n {
      HtlcOutputsPrefix(c, pcp, i, n - 1);
      assert c.htlcs[..n][..n - 1] == c.htlcs[..n - 1];
    }
  }

  lemma {:induction false} PtlcOutputsPrefix(c: Chan, pcp: Point, i: nat, n: nat)
    requires i <= n <= |c.ptlcs|
    ensures |PtlcOutputs(c, pcp, c.ptlcs[..i])| <= |PtlcOutputs(c, pcp, c.ptlcs[..n])|
    decreases n
  {
    hide PtlcOutput;
    if i < n {
      PtlcOutputsPrefix(c, pcp, i, n - 1);
      assert c.ptlcs[..n][..n - 1] == c.ptlcs[..n - 1];
    }
  }

  /** The HTLC loop: writes from index `at`, never past the room that was counted. */
  method FillHtlcs(c: Chan, pcp: Point, out: array<Output>, at: nat) returns (next: nat)
    requires at + |HtlcOutputs(c, pcp, c.htlcs)| <= out.Length
    modifies out
    ensures next == at + |HtlcOutputs(c, pcp, c.htlcs)|
    ensures out[..next] == old(out[..at]) + HtlcOutputs(c, pcp, c.htlcs)
  {
    hide HtlcOutput;
    next := at;
    assert c.htlcs[..|c.htlcs|] == c.htlcs;
    for i := 0 to |c.htlcs|
      invariant at <= next <= out.Length && next == at + |HtlcOutputs(c, pcp, c.htlcs[..i])|
      invariant out[..next] == old(out[..at]) + HtlcOutputs(c, pcp, c.htlcs[..i])
    {
      assert c.htlcs[..i + 1][..i] == c.htlcs[..i];
      HtlcOutputsPrefix(c, pcp, i + 1, |c.htlcs|);
      if c.htlcs[i].state == Active && !(c.htlcs[i].amount < DUST) {
        out[next] := HtlcOutput(c, pcp, c.htlcs[i]);
        next := next + 1;
      }
    }
  }

  method FillPtlcs(c: Chan, pcp: Point, out: array<Output>, at: nat) returns (next: nat)
    requires at + |PtlcOutputs(c, pcp, c.ptlcs)| <= out.Length
    modifies out
    ensures next == at + |PtlcOutputs(c, pcp, c.ptlcs)|
    ensures out[..next] == old(out[..at]) + PtlcOutputs(c, pcp, c.ptlcs)
  {
    hide PtlcOutput;
    next := at;
    assert c.ptlcs[..|c.ptlcs|] == c.ptlcs;
    for i := 0 to |c.ptlcs|
      invariant at <= next <= out.Length && next == at + |PtlcOutputs(c, pcp, c.ptlcs[..i])|
      invariant out[..next] == old(out[..at]) + PtlcOutputs(c, pcp, c.ptlcs[..i])
    {
      assert c.ptlcs[..i + 1][..i] == c.ptlcs[..i];
      PtlcOutputsPrefix(c, pcp, i + 1, |c.ptlcs|);
      if c.ptlcs[i].active && !(c.ptlcs[i].amount < DUST) {
        out[next] := PtlcOutput(c, pcp, c.ptlcs[i]);
        next := next + 1;
      }
    }
  }

  /** channel_build_commitment_tx_impl: count, allocate, fill; exactly the counted slots are used. */
  method BuildImpl(c: Chan, pcp: Point) returns (tx: Tx)
    ensures tx == Commitment(c, pcp)
  {
    hide HtlcOutputs, PtlcOutputs, ToLocal, ToRemote;
    var nHtlcs := CountHtlcs(c, pcp);
    var nPtlcs := CountPtlcs(c, pcp);
    var out := new Output[2 + nHtlcs + nPtlcs];
    out[0] := ToLocal(c, pcp);
    out[1] := ToRemote(c, pcp);
    assert out[..2] == [ToLocal(c, pcp), ToRemote(c, pcp)];
    var next := FillHtlcs(c, pcp, out, 2);
    next := FillPtlcs(c, pcp, out, next);
    tx := Tx(c.fundingTxid, c.fundingVout, out[..next]);
  }

  /** channel_build_commitment_tx. */
  method BuildOwn(c: Chan) returns (r: Option<Tx>)
    ensures r == Build(c)
  {
    hide Commitment;
    if c.frozen || c.commitment >= |c.secrets| { return None; }
    var tx := BuildImpl(c, PointOf(c.secrets[c.commitment]));
    r := Some(tx);
  }

  method CopyFlippedHtlcs(hs: seq<Htlc>) returns (r: seq<Htlc>)
    ensures r == FlipHtlcs(hs)
  {
    var copy := new Htlc[|hs|](i requires 0 <= i < |hs| => hs[i]);
    for i := 0 to |hs|
      invariant forall j | 0 <= j < i :: copy[j] == hs[j].(direction := Flip(hs[j].direction))
      invariant forall j | i <= j < |hs| :: copy[j] == hs[j]
    {
      copy[i] := copy[i].(direction := if copy[i].direction == Offered then Received else Offered);
    }
    r := copy[..];
  }

  method CopyFlippedPtlcs(ps: seq<Ptlc>) returns (r: seq<Ptlc>)
    ensures r == FlipPtlcs(ps)
  {
    var copy := new Ptlc[|ps|](i requires 0 <= i < |ps| => ps[i]);
    for i := 0 to |ps|
      invariant forall j | 0 <= j < i :: copy[j] == ps[j].(direction := Flip(ps[j].direction))
      invariant forall j | i <= j < |ps| :: copy[j] == ps[j]
    {
      copy[i] := copy[i].(direction := if copy[i].direction == Offered then Received else Offered);
    }
    r := copy[..];
  }

  /** channel_build_commitment_tx_for_remote: directions are flipped in copies of the two lists. */
  method BuildRemote(c: Chan) returns (r: Option<Tx>)
    ensures r == BuildForRemote(c)
  {
    hide Commitment;
    var pcp := Channel.GetRemotePcp(c, c.commitment);
    if pcp.None? { return None; }
    var htlcs := CopyFlippedHtlcs(c.htlcs);
    var ptlcs := CopyFlippedPtlcs(c.ptlcs);
    var view := c.(local := c.remote, remote := c.local,
                   mine := c.mine.(delayed := c.theirs.delayed, htlc := c.theirs.htlc),
                   theirs := c.theirs.(revocation := c.mine.revocation, payment := c.mine.payment, htlc := c.mine.htlc),
                   htlcs := htlcs, ptlcs := ptlcs);
    var tx := BuildImpl(view, pcp.value);
    r := Some(tx);
  }

  // ----- the watchdog -----

  class Watchdog {
    const ch: ChannelObject
    const expiryDelta: nat
    var triggered: bool

    /** cltv_watchdog_init. */
    constructor (ch: ChannelObject, expiryDelta: nat, default: nat)
      ensures this.ch == ch && !triggered
      ensures this.expiryDelta == if expiryDelta > 0 then expiryDelta else default
    {
      this.ch := ch;
      this.expiryDelta := if expiryDelta > 0 then expiryDelta else default;
      triggered := false;
    }

    /** cltv_watchdog_check; the threshold is a 32-bit sum. */
    method Check(height: nat) returns (count: nat)
      requires ch.Valid()
      modifies this
      ensures count == DueCount(ch.View().htlcs, (height + expiryDelta) % U32)
      ensures triggered == (old(triggered) || count > 0)
    {
      var threshold := (height + expiryDelta) % U32;
      count := 0;
      ghost var hs := ch.View().htlcs;
      for i := 0 to ch.nHtlcs
        invariant count == DueCount(hs[..i], threshold)
        invariant ch.Valid() && ch.View().htlcs == hs && triggered == old(triggered)
      {
        assert hs[..i + 1][..i] == hs[..i];
        var h := ch.htlcs[i];
        if h.state == Active && h.direction == Received && h.cltv != 0 && h.cltv <= threshold {
          count := count + 1;
        }
      }
      assert hs[..ch.nHtlcs] == hs;
      if count > 0 { triggered := true; }
    }

    /** cltv_watchdog_expire. */
    method Expire(height: nat, rng: Rng) returns (failed: nat)
      requires ch.Valid()
      modifies ch.Repr()
      ensures ch.Valid() && (ch.View(), failed) == Channel.CheckTimeouts(old(ch.View()), height, rng)
    {
      failed := ch.CheckTimeouts(height, rng);
    }

    /** cltv_watchdog_earliest_expiry. */
    method EarliestExpiry() returns (e: nat)
      requires ch.Valid()
      ensures e == Earliest(ch.View().htlcs)
    {
      e := U32 - 1;
      ghost var hs := ch.View().htlcs;
      for i := 0 to ch.nHtlcs
        invariant e == Earliest(hs[..i])
      {
        assert hs[..i + 1][..i] == hs[..i];
        var h := ch.htlcs[i];
        if h.state == Active && h.direction == Received && h.cltv != 0 && h.cltv < e {
          e := h.cltv;
        }
      }
      assert hs[..ch.nHtlcs] == hs;
    }
  }
}
