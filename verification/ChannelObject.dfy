/**
channel_t as an object with its growing buffers (src/channel.c).  Every method is tied to
the function of the same name in module Channel through `View`, the value the object
stands for.
*/
module ChannelObject {
  import opened Bits
  import opened Wrappers
  import opened Channel
  import opened ChannelLaws
  import opened ChannelTimeouts
  import Mirror = ChannelMirror

  const HTLCS_CAP := 64
  const PCS_CAP := 512

  datatype Config = Config(ptlcs: seq<Ptlc>, delay: nat, revocationLeaf: bool, mine: Basepoints, theirs: Basepoints,
                           fundingTxid: nat, fundingVout: nat)

  /** The value a new channel stands for; it has the shape every operation keeps. */
  function Opening(config: Config, local: nat, remote: nat, rng: Rng): (c: Chan)
    ensures Shaped(c) && NoActive(c.htlcs) && Total(c) == local + remote
  {
    Chan(local, remote, [], config.ptlcs, 0, 1000, false, config.delay, config.revocationLeaf, false, 0, 0,
         config.mine, config.theirs, config.fundingTxid, config.fundingVout, [rng(0), rng(1)], Empty, Empty, map[])
  }

  /** The peer's configuration: basepoints crossed, PTLCs seen from the other side. */
  function Crossed(config: Config): (r: Config) {
    config.(ptlcs := FlipPtlcs(config.ptlcs), mine := config.theirs, theirs := config.mine)
  }

  /** Two channels opened with crossed configurations, one of them made the funder, are in step once their first points are exchanged. */
  lemma OpeningsInStep(config: Config, local: nat, remote: nat, ra: Rng, rb: Rng)
    ensures var a := Opening(config, local, remote, ra).(funderIsLocal := true);
            var b := Opening(Crossed(config), remote, local, rb);
            Mirror.PairOk(Mirror.Pair(Mirror.Introduce(a, b.secrets), Mirror.Introduce(b, a.secrets)))
  {
    hide Mirror.PairOk, Mirror.Introduce;
    var a := Opening(config, local, remote, ra).(funderIsLocal := true);
    var b := Opening(Crossed(config), remote, local, rb);
    assert FlipHtlcs([]) == [];
    assert Mirror.IsMirror(a, b);
    Mirror.PairStarts(a, b);
  }

  /**
  A shared id is reached: two HTLCs come off the wire under one id, the second expires at
  height 5, and the check at that height fails the first, which never expires.
  */
  lemma SharedIdReached(config: Config, hash: Digest, rng: Rng)
    ensures var c := Opening(config, 100000, 100000, rng);
            var d := Run(c, [Step(AddFromWire(Received, 1000000, hash, 0, 7), rng), Step(AddFromWire(Received, 1000000, hash, 5, 7), rng)]);
            && |d.htlcs| == 2 && !Expired(d.htlcs[0], 5) && Expired(d.htlcs[1], 5)
            && CheckTimeouts(d, 5, rng).1 == 1 && CheckTimeouts(d, 5, rng).0.htlcs == [d.htlcs[1]]
  {
    hide Apply, CheckTimeouts, SweepList, Survivors, DistinctIds;
    var c := Opening(config, 100000, 100000, rng);
    var one, two := Step(AddFromWire(Received, 1000000, hash, 0, 7), rng), Step(AddFromWire(Received, 1000000, hash, 5, 7), rng);
    WireAddIs(c, 0, 7, hash, rng);
    var x := Apply(c, one.op, rng);
    WireAddIs(x, 5, 7, hash, rng);
    var d := Apply(x, two.op, rng);
    assert [one, two][1..] == [two] && [two][1..] == [];
    assert Run(c, [one, two]) == Run(x, [two]) && Run(x, [two]) == Run(d, []);
    RunShape(c, [one, two]);
    SweepResult(d, 5, rng);
    SharedIdMisfires(d.htlcs[0], d.htlcs[1]);
    assert d.htlcs == [d.htlcs[0], d.htlcs[1]];
  }

  lemma WireAddIs(c: Chan, cltv: nat, id: nat, hash: Digest, rng: Rng)
    requires !c.frozen && |c.htlcs| < MAX_HTLCS && c.remote >= 6043 && c.feeRate == 1000 && !c.funderIsLocal
    ensures var d := Apply(c, AddFromWire(Received, 1000000, hash, cltv, id), rng);
            && d.htlcs == c.htlcs + [Htlc(Received, Active, 1000, hash, [], cltv, id, 43)] && d.remote == c.remote - 1043
            && d.lastHeight == c.lastHeight && !d.frozen && d.feeRate == 1000 && !d.funderIsLocal
  {
    hide Store;
    assert HtlcFee(1000) == 43;
  }

  lemma FirstTwo(a: Secret, b: Secret)
    ensures Store(Store([], 0, a), 1, b) == [a, b]
  {
    assert Store([], 0, a) == [a];
  }

  /** The live entries among the first `n`, moved to the front in order. */
  method CompactArray(a: array<Htlc>, n: nat) returns (write: nat)
    requires n <= a.Length
    modifies a
    ensures write <= n && a[..write] == Compact(old(a[..n]))
  {
    write := 0;
    ghost var was := a[..n];
    for read := 0 to n
      invariant write <= read
      invariant a[..write] == Compact(was[..read]) && a[read..n] == was[read..]
    {
      assert was[..read + 1][..read] == was[..read];
      ghost var rest := a[read..n];
      assert a[read] == rest[0] && rest[1..] == was[read + 1..];
      if a[read].state == Active {
        if write != read {
          a[write] := a[read];
        }
        write := write + 1;
      }
      assert a[read + 1..n] == rest[1..];
    }
    assert was[..n] == was;
  }

  /** Larger copies of the two revocation arrays, zero-filled behind the old contents. */
  method GrowBoth(was: array<Secret>, wasValid: array<bool>, cap: nat) returns (secrets: array<Secret>, valid: array<bool>)
    requires was.Length == wasValid.Length <= cap
    ensures fresh(secrets) && fresh(valid) && secrets.Length == valid.Length == cap
    ensures forall j | 0 <= j < was.Length :: secrets[j] == was[j] && valid[j] == wasValid[j]
    ensures forall j | was.Length <= j < cap :: !valid[j]
  {
    secrets, valid := new nat[cap](_ => 0), new bool[cap](_ => false);
    for i := 0 to was.Length
      invariant forall j | 0 <= j < i :: secrets[j] == was[j] && valid[j] == wasValid[j]
      invariant forall j | was.Length <= j < cap :: !valid[j]
    {
      secrets[i], valid[i] := was[i], wasValid[i];
    }
  }

  class ChannelObject {
    const config: Config
    var local: nat
    var remote: nat
    var htlcs: array<Htlc>
    var nHtlcs: nat
    var nextId: nat
    var feeRate: nat
    var funderIsLocal: bool
    var frozen: bool
    var commitment: nat
    var lastHeight: nat
    var localPcs: array<Secret>
    var nPcs: nat
    const remotePcps: array<Slot>
    var revocations: array<Secret>
    var revocationValid: array<bool>

    ghost function Repr(): (r: set<object>)
      reads this
    {
      {this, htlcs, localPcs, remotePcps, revocations, revocationValid}
    }

    /** Counts stay within their buffers, unused secrets are zero, no buffer serves two purposes. */
    ghost predicate Valid()
      reads this, Repr()
    {
      && nHtlcs <= htlcs.Length && nPcs <= localPcs.Length
      && (forall i | nPcs <= i < localPcs.Length :: localPcs[i] == 0)
      && localPcs != revocations && revocations.Length == revocationValid.Length
      && remotePcps.Length == 2
    }

    ghost function Revoked(): (m: map<nat, Secret>)
      reads `revocations, `revocationValid, revocations, revocationValid
      requires revocations.Length == revocationValid.Length
    {
      map n: nat | 0 <= n < revocations.Length && revocationValid[n] :: revocations[n]
    }

    ghost function View(): (c: Chan)
      reads this, Repr()
      requires Valid()
      ensures c.local == local && c.remote == remote && |c.htlcs| == nHtlcs && c.frozen == frozen && c.nextId == nextId && c.feeRate == feeRate
      ensures c.funderIsLocal == funderIsLocal && c.commitment == commitment && c.lastHeight == lastHeight
    {
      Chan(local, remote, htlcs[..nHtlcs], config.ptlcs, nextId, feeRate, funderIsLocal, config.delay,
           config.revocationLeaf, frozen, commitment, lastHeight, config.mine, config.theirs,
           config.fundingTxid, config.fundingVout, localPcs[..nPcs], remotePcps[0], remotePcps[1], Revoked())
    }

    /** channel_init: balances as given, secrets for commitments 0 and 1. */
    constructor (config: Config, localAmount: nat, remoteAmount: nat, rng: Rng)
      ensures Valid() && fresh(htlcs) && fresh(localPcs) && fresh(remotePcps) && fresh(revocations) && fresh(revocationValid)
      ensures View() == Opening(config, localAmount, remoteAmount, rng)
    {
      this.config := config;
      local, remote := localAmount, remoteAmount;
      htlcs := new Htlc[HTLCS_CAP];
      nHtlcs, nextId, feeRate, funderIsLocal, frozen, commitment, lastHeight := 0, 0, 1000, false, false, 0, 0;
      localPcs := new nat[PCS_CAP](_ => 0);
      nPcs := 0;
      remotePcps := new Slot[] [Empty, Empty];
      revocations := new nat[PCS_CAP](_ => 0);
      revocationValid := new bool[PCS_CAP](_ => false);
      new;
      assert Revoked() == map[];
      assert View() == Opening(config, localAmount, remoteAmount, rng).(secrets := []);
      hide Revoked, View, Valid;
      GenerateFirstPcs(rng);
    }

    /** The secrets a new channel starts with. */
    method GenerateFirstPcs(rng: Rng)
      requires Valid() && View().secrets == []
      modifies `localPcs, `nPcs, localPcs
      ensures Valid() && View() == old(View()).(secrets := [rng(0), rng(1)])
      ensures localPcs == old(localPcs) || fresh(localPcs)
    {
      hide Store, Revoked;
      FirstTwo(rng(0), rng(1));
      GenerateLocalPcs(0, rng(0));
      GenerateLocalPcs(1, rng(1));
    }

    // ----- per-commitment secrets -----

    /** channel_ensure_pcs_cap: doubling keeps every stored secret. */
    method EnsurePcsCap(needed: nat)
      requires Valid()
      modifies `localPcs
      ensures Valid() && View() == old(View()) && needed <= localPcs.Length
      ensures localPcs == old(localPcs) || fresh(localPcs)
    {
      hide Revoked;
      if needed <= localPcs.Length {
        return;
      }
      var cap := if localPcs.Length > 0 then localPcs.Length * 2 else PCS_CAP;
      while cap < needed
        invariant cap > localPcs.Length
        decreases needed - cap
      {
        cap := cap * 2;
      }
      var was := localPcs;
      var grown := new nat[cap](i requires 0 <= i => 0);
      for i := 0 to was.Length
        invariant grown[..i] == was[..i] && forall j | was.Length <= j < cap :: grown[j] == 0
      {
        grown[i] := was[i];
      }
      assert grown[..nPcs] == was[..nPcs];
      localPcs := grown;
    }

    /** channel_generate_local_pcs, with the random secret given. */
    method GenerateLocalPcs(n: nat, s: Secret)
      requires Valid()
      modifies `localPcs, `nPcs, localPcs
      ensures Valid() && View() == old(View()).(secrets := Store(old(View()).secrets, n, s))
      ensures localPcs == old(localPcs) || fresh(localPcs)
    {
      hide Revoked;
      EnsurePcsCap(n + 1);
      localPcs[n] := s;
      if n + 1 > nPcs {
        nPcs := n + 1;
      }
      assert localPcs[..nPcs] == Store(old(View()).secrets, n, s);
    }

    /** channel_get_local_pcs. */
    method GetLocalPcs(n: nat) returns (r: Option<Secret>)
      requires Valid()
      ensures r == if n < |View().secrets| then Some(View().secrets[n]) else None
    {
      if n >= localPcs.Length || n >= nPcs {
        return None;
      }
      r := Some(localPcs[n]);
    }

    // ----- the peer's points -----

    /** channel_set_remote_pcp. */
    method SetRemotePcp(n: nat, p: Point)
      requires Valid()
      modifies remotePcps
      ensures Valid() && View() == Channel.SetRemotePcp(old(View()), n, p)
    {
      for i := 0 to 2
        invariant View() == old(View()) && Valid()
        invariant forall j | 0 <= j < i :: !(remotePcps[j].Held? && remotePcps[j].num == n)
      {
        if remotePcps[i].Held? && remotePcps[i].num == n {
          remotePcps[i] := Held(n, p);
          return;
        }
      }
      for i := 0 to 2
        invariant View() == old(View()) && Valid()
        invariant forall j | 0 <= j < i :: remotePcps[j].Held?
      {
        if remotePcps[i].Empty? {
          remotePcps[i] := Held(n, p);
          return;
        }
      }
      var evict := if remotePcps[0].num <= remotePcps[1].num then 0 else 1;
      remotePcps[evict] := Held(n, p);
    }

    /** channel_get_received_revocation. */
    method GetRevocation(n: nat) returns (r: Option<Secret>)
      requires Valid()
      ensures r == if n in View().revoked then Some(View().revoked[n]) else None
    {
      if n >= revocations.Length || !revocationValid[n] {
        return None;
      }
      r := Some(revocations[n]);
    }

    /** channel_get_remote_pcp. */
    method GetRemotePcp(n: nat) returns (r: Option<Point>)
      requires Valid()
      ensures r == Channel.GetRemotePcp(View(), n)
    {
      var newest := 0;
      for i := 0 to 2
        invariant forall j | 0 <= j < i :: !(remotePcps[j].Held? && remotePcps[j].num == n)
        invariant i == 0 ==> newest == 0
        invariant i == 1 ==> newest == (if remotePcps[0].Held? then remotePcps[0].num else 0)
        invariant i == 2 ==> newest == var a := if remotePcps[0].Held? then remotePcps[0].num else 0;
                                       var b := if remotePcps[1].Held? then remotePcps[1].num else 0;
                                       if a >= b then a else b
      {
        if remotePcps[i].Held? && remotePcps[i].num == n {
          return Some(remotePcps[i].point);
        }
        if remotePcps[i].Held? && remotePcps[i].num > newest {
          newest := remotePcps[i].num;
        }
      }
      if n >= newest {
        return None;
      }
      var s := GetRevocation(n);
      r := if s.Some? then Some(PointOf(s.value)) else None;
    }

    /** channel_ensure_revocations_cap: both arrays grow together and keep their contents. */
    method EnsureRevocationsCap(needed: nat)
      requires Valid()
      modifies `revocations, `revocationValid
      ensures Valid() && View() == old(View()) && needed <= revocations.Length
      ensures revocations == old(revocations) || fresh(revocations)
      ensures revocationValid == old(revocationValid) || fresh(revocationValid)
    {
      if needed <= revocations.Length {
        return;
      }
      var was, wasValid := revocations, revocationValid;
      var cap := if was.Length > 0 then was.Length * 2 else PCS_CAP;
      while cap < needed
        invariant cap > was.Length && revocations == was && revocationValid == wasValid
        decreases needed - cap
      {
        cap := cap * 2;
      }
      var secrets, valid := GrowBoth(was, wasValid, cap);
      ghost var before := Revoked();
      revocations, revocationValid := secrets, valid;
      assert Revoked() == before;
      hide Revoked;
    }

    /** channel_receive_revocation_flat. */
    method ReceiveRevocation(n: nat, s: Secret)
      requires Valid()
      modifies `revocations, `revocationValid, revocations, revocationValid
      ensures Valid() && View() == Channel.ReceiveRevocation(old(View()), n, s)
      ensures fresh(Repr() - old(Repr()))
    {
      EnsureRevocationsCap(n + 1);
      ghost var was := Revoked();
      revocations[n] := s;
      revocationValid[n] := true;
      assert Revoked() == was[n := s];
    }

    // ----- HTLCs -----

    /** channel_compact_htlcs, in place. */
    method CompactHtlcs()
      requires Valid()
      modifies `nHtlcs, htlcs
      ensures Valid() && View() == old(View()).(htlcs := Compact(old(View()).htlcs))
    {
      hide Revoked;
      nHtlcs := CompactArray(htlcs, nHtlcs);
    }

    /** The search at the head of fulfil and fail. */
    method FindActive(id: nat) returns (i: nat)
      requires Valid()
      ensures i == Find(View().htlcs, id)
    {
      hide Find;
      i := 0;
      while i < nHtlcs
        invariant i <= nHtlcs
        invariant forall j | 0 <= j < i :: !(htlcs[j].id == id && htlcs[j].state == Active)
      {
        if htlcs[i].id == id && htlcs[i].state == Active {
          break;
        }
        i := i + 1;
      }
      FindIs(View().htlcs, id, i);
    }

    /** Room for one more entry, doubling from 64 up to the maximum. */
    method EnsureHtlcRoom()
      requires Valid() && nHtlcs < MAX_HTLCS
      modifies `htlcs
      ensures Valid() && View() == old(View()) && nHtlcs < htlcs.Length
      ensures htlcs == old(htlcs) || fresh(htlcs)
    {
      if nHtlcs < htlcs.Length {
        return;
      }
      var cap := if htlcs.Length < HTLCS_CAP then HTLCS_CAP else htlcs.Length * 2;
      if cap > MAX_HTLCS { cap := MAX_HTLCS; }
      var was := htlcs;
      var grown := new Htlc[cap];
      for i := 0 to nHtlcs
        invariant htlcs == was && grown[..i] == was[..i]
      {
        grown[i] := was[i];
      }
      htlcs := grown;
    }

    /** The tail of every accepted operation. */
    method NextCommitment(rng: Rng)
      requires Valid()
      modifies `commitment, `localPcs, `nPcs, localPcs
      ensures Valid() && View() == Advance(old(View()), rng)
      ensures localPcs == old(localPcs) || fresh(localPcs)
    {
      hide Store, Revoked;
      commitment := commitment + 1;
      GenerateLocalPcs(commitment + 1, rng(commitment + 1));
    }

    /** Amount first, then the fee from the funder; rolled back if the funder cannot pay. */
    method Reserve(dir: Direction, amount: nat, fee: nat) returns (ok: bool)
      requires Valid()
      modifies `local, `remote
      ensures Valid() && View() == Reserved(old(View()), dir, amount, fee).0 && ok == Reserved(old(View()), dir, amount, fee).1
    {
      hide View, Valid;
      ghost var c := View();
      if dir == Offered {
        if amount > local || local - amount < RESERVE { return false; }
        SetBalances(local - amount, remote);
      } else {
        if amount > remote || remote - amount < RESERVE { return false; }
        SetBalances(local, remote - amount);
      }
      if (if funderIsLocal then local else remote) < fee {
        if dir == Offered { SetBalances(local + amount, remote); } else { SetBalances(local, remote + amount); }
        assert View() == c;
        return false;
      }
      if funderIsLocal { SetBalances(local - fee, remote); } else { SetBalances(local, remote - fee); }
      ok := true;
    }

    /** channel_add_htlc. */
    method AddHtlc(dir: Direction, amount: nat, hash: Digest, cltv: nat, rng: Rng) returns (id: Option<nat>)
      requires Valid()
      modifies Repr()
      ensures Valid() && fresh(Repr() - old(Repr()))
      ensures id.Some? == Channel.AddHtlc(old(View()), dir, amount, hash, cltv, rng).Some?
      ensures id.None? ==> View() == old(View())
      ensures id.Some? ==> Some(View()) == Channel.AddHtlc(old(View()), dir, amount, hash, cltv, rng)
                           && id.value == old(nextId)
    {
      hide View, Valid, HtlcFee, Channel.AddHtlc, Advance, Reserved;
      ghost var c := View();
      AddInSteps(c, dir, amount, hash, cltv, rng);
      if frozen || nHtlcs >= MAX_HTLCS { return None; }
      EnsureHtlcRoom();
      if amount < DUST { return None; }
      var fee := HtlcFee(feeRate);
      var ok := Reserve(dir, amount, fee);
      if !ok { return None; }
      id := Some(nextId);
      PushHtlc(Htlc(dir, Active, amount, hash, [], cltv, nextId, fee));
      NextCommitment(rng);
    }

    method PushHtlc(h: Htlc)
      requires Valid() && nHtlcs < htlcs.Length
      modifies `nHtlcs, `nextId, htlcs
      ensures Valid()
      ensures View() == old(View()).(htlcs := old(View()).htlcs + [h], nextId := (old(View()).nextId + 1) % U64)
    {
      hide Revoked;
      htlcs[nHtlcs] := h;
      nHtlcs := nHtlcs + 1;
      nextId := (nextId + 1) % U64;
    }

    method CreditBalance(toLocal: bool, amount: nat)
      requires Valid()
      modifies `local, `remote
      ensures Valid() && View() == Credit(old(View()), toLocal, amount)
    {
      hide Revoked;
      if toLocal { local := (local + amount) % U64; } else { remote := (remote + amount) % U64; }
    }

    method SetEntry(i: nat, h: Htlc)
      requires Valid() && i < nHtlcs
      modifies htlcs
      ensures Valid() && View() == old(View()).(htlcs := old(View()).htlcs[i := h])
    {
      hide Revoked;
      htlcs[i] := h;
      assert htlcs[..nHtlcs] == old(htlcs[..nHtlcs])[i := h];
    }

    /** client_handle_add_htlc: add, then take over the id from the wire. */
    method AddFromWire(dir: Direction, msat: nat, hash: Digest, cltv: nat, wireId: nat, rng: Rng) returns (ok: bool)
      requires Valid()
      modifies Repr()
      ensures Valid() && fresh(Repr() - old(Repr()))
      ensures ok == ClientAdd(old(View()), dir, msat, hash, cltv, wireId, rng).Some?
      ensures View() == if ok then ClientAdd(old(View()), dir, msat, hash, cltv, wireId, rng).value else old(View())
    {
      hide Channel.AddHtlc, Revoked;
      AddsOne(View(), dir, msat / 1000, hash, cltv, rng);
      var id := AddHtlc(dir, msat / 1000, hash, cltv, rng);
      if id.None? { return false; }
      htlcs[nHtlcs - 1] := htlcs[nHtlcs - 1].(id := wireId);
      ok := true;
    }

    /** Pay out, return the fee, mark the entry, advance, compact: what fulfil and fail share. */
    method SettleEntry(i: nat, toLocal: bool, done: Htlc, rng: Rng)
      requires Valid() && i < nHtlcs
      modifies Repr()
      ensures Valid() && fresh(Repr() - old(Repr()))
      ensures View() == Settle(old(View()), i, toLocal, done, rng)
    {
      ghost var c := View();
      assert c.htlcs[i] == htlcs[i];
      hide View, Valid, Compact, Advance, Credit, Settle, Revoked;
      var h := htlcs[i];
      SettleInSteps(c, i, toLocal, done, rng);
      PayOut(toLocal, h.amount, h.fee);
      SetEntry(i, done);
      CloseEntry(rng);
    }

    /** The amount to its recipient, the fee back to the funder. */
    method PayOut(toLocal: bool, amount: nat, fee: nat)
      requires Valid()
      modifies `local, `remote
      ensures Valid() && View() == Credit(Credit(old(View()), toLocal, amount), old(View()).funderIsLocal, fee)
    {
      hide View, Valid, Credit;
      CreditBalance(toLocal, amount);
      CreditBalance(funderIsLocal, fee);
    }

    /** The next commitment, then the list without its settled entries. */
    method CloseEntry(rng: Rng)
      requires Valid()
      modifies `commitment, `localPcs, `nPcs, localPcs, `nHtlcs, htlcs
      ensures Valid() && htlcs == old(htlcs) && (localPcs == old(localPcs) || fresh(localPcs))
      ensures var d := Advance(old(View()), rng); View() == d.(htlcs := Compact(d.htlcs))
    {
      hide View, Valid, Compact, Advance;
      NextCommitment(rng);
      CompactHtlcs();
    }

    /** channel_fulfill_htlc. */
    method FulfillHtlc(id: nat, preimage: seq<byte>, rng: Rng) returns (ok: bool)
      requires Valid()
      modifies Repr()
      ensures Valid() && fresh(Repr() - old(Repr()))
      ensures ok == Channel.FulfillHtlc(old(View()), id, preimage, rng).Some?
      ensures View() == if ok then Channel.FulfillHtlc(old(View()), id, preimage, rng).value else old(View())
    {
      hide Settle, Find, Revoked;
      var i := FindActive(id);
      if i == nHtlcs || Sha256(preimage) != htlcs[i].hash { return false; }
      SettleEntry(i, htlcs[i].direction == Received, htlcs[i].(state := Fulfilled, preimage := preimage), rng);
      ok := true;
    }

    /** channel_fail_htlc. */
    method FailHtlc(id: nat, rng: Rng) returns (ok: bool)
      requires Valid()
      modifies Repr()
      ensures Valid() && fresh(Repr() - old(Repr()))
      ensures ok == Channel.FailHtlc(old(View()), id, rng).Some?
      ensures View() == if ok then Channel.FailHtlc(old(View()), id, rng).value else old(View())
    {
      hide Settle, Find, Revoked;
      var i := FindActive(id);
      if i == nHtlcs { return false; }
      SettleEntry(i, htlcs[i].direction == Offered, htlcs[i].(state := Failed), rng);
      ok := true;
    }

    /** channel_check_htlc_timeouts: the loop over the array that FailHtlc compacts. */
    method CheckTimeouts(height: nat, rng: Rng) returns (failed: nat)
      requires Valid()
      modifies Repr()
      ensures Valid() && fresh(Repr() - old(Repr()))
      ensures (View(), failed) == Channel.CheckTimeouts(old(View()), height, rng)
    {
      hide Channel.FailHtlc, View, Valid, Expired, SweepFrom;
      if height < lastHeight { return 0; }
      SetHeight(height);
      failed := 0;
      ghost var start := View();
      var i := 0;
      while i < nHtlcs
        invariant Valid() && fresh(Repr() - old(Repr()))
        invariant SweepFrom(start, 0, height, rng)
                  == (SweepFrom(View(), i, height, rng).0, failed + SweepFrom(View(), i, height, rng).1)
        decreases nHtlcs - i
      {
        var n := SweepOne(i, height, rng);
        failed := failed + n;
        i := i + 1;
      }
      SweepEnds(View(), i, height, rng);
    }

    /** One turn of the loop. */
    method SweepOne(i: nat, height: nat, rng: Rng) returns (n: nat)
      requires Valid() && i < nHtlcs
      modifies Repr()
      ensures Valid() && fresh(Repr() - old(Repr())) && nHtlcs <= old(nHtlcs)
      ensures SweepFrom(old(View()), i, height, rng)
              == (SweepFrom(View(), i + 1, height, rng).0, n + SweepFrom(View(), i + 1, height, rng).1)
    {
      hide Channel.FailHtlc, View, Valid, Expired, SweepFrom;
      ghost var before := View();
      var due, id := DueAt(i, height);
      if due {
        SweepFailsOne(before, i, height, rng);
        var _ := FailHtlc(id, rng);
        n := 1;
      } else {
        SweepSkips(before, i, height, rng);
        n := 0;
      }
    }

    /** What the LSP sets on its own end. */
    method SetFunder(isLocal: bool)
      requires Valid()
      modifies `funderIsLocal
      ensures Valid() && View() == old(View()).(funderIsLocal := isLocal)
    {
      hide Revoked;
      funderIsLocal := isLocal;
    }

    method SetHeight(height: nat)
      requires Valid()
      modifies `lastHeight
      ensures Valid() && View() == old(View()).(lastHeight := height)
    {
      hide Revoked;
      lastHeight := height;
    }

    method DueAt(i: nat, height: nat) returns (due: bool, id: nat)
      requires Valid() && i < nHtlcs
      ensures due == Expired(View().htlcs[i], height) && id == View().htlcs[i].id
    {
      due := htlcs[i].state == Active && htlcs[i].cltv > 0 && height >= htlcs[i].cltv;
      id := htlcs[i].id;
    }

    /** channel_update. */
    method Update(delta: int, rng: Rng) returns (ok: bool)
      requires Valid()
      modifies Repr()
      ensures Valid() && fresh(Repr() - old(Repr()))
      ensures ok == Channel.Update(old(View()), delta, rng).Some?
      ensures View() == if ok then Channel.Update(old(View()), delta, rng).value else old(View())
    {
      hide Store, Revoked, Advance;
      if delta > 0 && delta > local { return false; }
      if delta < 0 && -delta > remote { return false; }
      var l, r := (local - delta) % U64, (remote + delta) % U64;
      hide Valid;
      SetBalances(l, r);
      NextCommitment(rng);
      ok := true;
    }

    method SetBalances(l: nat, r: nat)
      requires Valid()
      modifies `local, `remote
      ensures Valid() && View() == old(View()).(local := l, remote := r)
    {
      hide Revoked;
      local, remote := l, r;
    }

    /** client_check_conservation: the sum over the list, compared with funding minus base fee. */
    method CheckConservation(funding: nat) returns (ok: bool)
      requires Valid()
      ensures ok == CheckPasses(View(), funding)
    {
      hide Revoked, Pending, HtlcFee;
      if funding == 0 { return true; }
      NonePending(htlcs[..nHtlcs]);
      var sum := (local + remote) % U64;
      ghost var hs := htlcs[..nHtlcs];
      for h := 0 to nHtlcs
        invariant sum == (local + remote + Pending(hs[..h])) % U64
      {
        PendingNext(hs, h);
        if htlcs[h].state == Active {
          AddTwice(local + remote + Pending(hs[..h]), htlcs[h].amount, htlcs[h].fee);
          sum := (sum + htlcs[h].amount) % U64;
          sum := (sum + htlcs[h].fee) % U64;
        }
      }
      assert hs[..nHtlcs] == hs;
      var base := (feeRate * 154 + 999) % U64 / 1000;
      var want := if funding > base then funding - base else 0;
      ok := sum == want;
    }
  }

  lemma PendingNext(hs: seq<Htlc>, h: nat)
    requires h < |hs|
    ensures Pending(hs[..h + 1]) == Pending(hs[..h]) + if hs[h].state == Active then hs[h].amount + hs[h].fee else 0
  {
    assert hs[..h + 1][..h] == hs[..h];
  }

  lemma NonePending(hs: seq<Htlc>)
    ensures Pending(hs[..0]) == 0
  {
  }

  lemma AddTwice(t: nat, a: nat, f: nat)
    ensures ((t % U64 + a) % U64 + f) % U64 == (t + a + f) % U64
  {
  }

  /** What reserving the amount and the fee of an HTLC does to the balances, and whether it succeeds. */
  function Reserved(c: Chan, dir: Direction, amount: nat, fee: nat): (r: (Chan, bool)) {
    var payer := if dir == Offered then c.local else c.remote;
    if amount > payer || payer - amount < RESERVE then (c, false)
    else
      var paid := if dir == Offered then c.(local := c.local - amount) else c.(remote := c.remote - amount);
      if (if c.funderIsLocal then paid.local else paid.remote) < fee then (c, false)
      else if c.funderIsLocal then (paid.(local := paid.local - fee), true)
      else (paid.(remote := paid.remote - fee), true)
  }

  lemma AddInSteps(c: Chan, dir: Direction, amount: nat, hash: Digest, cltv: nat, rng: Rng)
    ensures var r, fee := Channel.AddHtlc(c, dir, amount, hash, cltv, rng), HtlcFee(c.feeRate);
            var (d, ok) := Reserved(c, dir, amount, fee);
            && (r.Some? <==> !c.frozen && |c.htlcs| < MAX_HTLCS && amount >= DUST && ok)
            && (!ok ==> d == c)
            && d == c.(local := d.local, remote := d.remote)
            && (r.Some? ==> r.value == Advance(d.(htlcs := c.htlcs + [Htlc(dir, Active, amount, hash, [], cltv, c.nextId, fee)],
                                                  nextId := (c.nextId + 1) % U64), rng))
  {
    hide HtlcFee, Store;
  }

  lemma SettleInSteps(c: Chan, i: nat, toLocal: bool, done: Htlc, rng: Rng)
    requires i < |c.htlcs|
    ensures var paid := Credit(Credit(c, toLocal, c.htlcs[i].amount), c.funderIsLocal, c.htlcs[i].fee);
            && paid == c.(local := paid.local, remote := paid.remote)
            && Credit(c, toLocal, c.htlcs[i].amount).funderIsLocal == c.funderIsLocal
            && var d := Advance(paid.(htlcs := paid.htlcs[i := done]), rng);
               Settle(c, i, toLocal, done, rng) == d.(htlcs := Compact(d.htlcs))
  {
    hide Store, Compact;
  }

  lemma FindIs(hs: seq<Htlc>, id: nat, i: nat)
    requires i <= |hs| && (i < |hs| ==> hs[i].id == id && hs[i].state == Active)
    requires forall j | 0 <= j < i :: !(hs[j].id == id && hs[j].state == Active)
    ensures Find(hs, id) == i
  {
    hide Find;
    var k := Find(hs, id);
    if i < |hs| { FindHits(hs, i); }
  }

  lemma AddsOne(c: Chan, dir: Direction, amount: nat, hash: Digest, cltv: nat, rng: Rng)
    ensures var r := Channel.AddHtlc(c, dir, amount, hash, cltv, rng); r.Some? ==> |r.value.htlcs| == |c.htlcs| + 1
  {
    hide Store, HtlcFee;
  }

  lemma SweepSkips(c: Chan, i: nat, height: nat, rng: Rng)
    requires i < |c.htlcs| && !Expired(c.htlcs[i], height)
    ensures SweepFrom(c, i, height, rng) == SweepFrom(c, i + 1, height, rng)
  {
  }

  lemma SweepEnds(c: Chan, i: nat, height: nat, rng: Rng)
    requires i >= |c.htlcs|
    ensures SweepFrom(c, i, height, rng) == (c, 0)
  {
  }

  /** One failing step of the sweep. */
  lemma SweepFailsOne(c: Chan, i: nat, height: nat, rng: Rng)
    requires i < |c.htlcs| && Expired(c.htlcs[i], height)
    ensures var d := Channel.FailHtlc(c, c.htlcs[i].id, rng);
            && d.Some? && |d.value.htlcs| < |c.htlcs|
            && var r := SweepFrom(d.value, i + 1, height, rng);
               SweepFrom(c, i, height, rng) == (r.0, r.1 + 1)
  {
    hide Settle;
    FindHits(c.htlcs, i);
    FailShrinks(c, c.htlcs[i].id, rng);
  }

  /** The LSP's own end of a new channel, which it funds. */
  method OpenAsFunder(config: Config, localAmount: nat, remoteAmount: nat, rng: Rng) returns (ch: ChannelObject)
    ensures fresh(ch) && fresh(ch.Repr()) && ch.Valid()
    ensures ch.View() == Opening(config, localAmount, remoteAmount, rng).(funderIsLocal := true)
  {
    hide Opening;
    ch := new ChannelObject(config, localAmount, remoteAmount, rng);
    ch.SetFunder(true);
  }
}
