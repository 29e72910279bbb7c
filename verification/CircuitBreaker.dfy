/**
Per-peer forwarding limits (src/circuit_breaker.c): a table of at most 64 peers, each with
a cap on pending HTLCs, a cap on their amount, and a token bucket refilled by the hour.
Counters and clocks are 16, 32 and 64 bits wide and wrap as in the source.
*/
module CircuitBreaker {
  import opened Bits

  const MAX_PEERS := 64
  const DEFAULT_MAX_PENDING := 483
  const DEFAULT_MAX_MSAT := 100000000000
  const DEFAULT_HOURLY_RATE := 3600
  const HOUR := 3600

  type Key = nat

  datatype Limits = Limits(pending: u16, msat: u64, rate: u32)

  datatype Peer = Peer(key: Key, limits: Limits, pending: u16, msat: u64, tokens: u32, last: u32)

  /** A refusal for want of a token asks for the peer to be banned. */
  datatype Verdict = Accepted | Refused | Exhausted

  const DEFAULTS := Limits(DEFAULT_MAX_PENDING, DEFAULT_MAX_MSAT, DEFAULT_HOURLY_RATE)

  function NewPeer(key: Key, d: Limits): (p: Peer) {
    Peer(key, d, 0, 0, d.rate, 0)
  }

  // ----- one peer -----

  /** An hour has passed, by the 32-bit comparison of the source. */
  predicate Due(p: Peer, now: u32) {
    now >= (p.last + HOUR) % U32
  }

  function Fill(tokens: u32, add: u32, rate: u32): (t: u32) {
    if add > (rate as int - tokens) % U32 then rate else (tokens + add) % U32
  }

  /** Whole hours since the mark. */
  function Periods(p: Peer, now: u32): (n: nat) {
    (now as int - p.last) % U32 / HOUR
  }

  /** The refill made by a check: whole hours' worth, up to the rate. */
  function TopUp(p: Peer, now: u32): (q: Peer) {
    if !Due(p, now) then p
    else
      p.(tokens := Fill(p.tokens, (Periods(p, now) * p.limits.rate) % U32, p.limits.rate),
         last := (p.last + Periods(p, now) * HOUR) % U32)
  }

  function Judge(p: Peer, amount: u64): (v: Verdict) {
    if p.pending >= p.limits.pending then Refused
    else if p.limits.msat > 0 && (p.msat + amount) % U64 > p.limits.msat then Refused
    else if p.tokens == 0 then Exhausted
    else Accepted
  }

  function Take(p: Peer, amount: u64): (q: Peer)
    requires Judge(p, amount) == Accepted
  {
    p.(tokens := p.tokens - 1, pending := p.pending + 1, msat := (p.msat + amount) % U64)
  }

  function CheckAdd(p: Peer, amount: u64, now: u32): (q: Peer) {
    var r := TopUp(p, now);
    if Judge(r, amount) == Accepted then Take(r, amount) else r
  }

  function Settle(p: Peer, amount: u64): (q: Peer) {
    p.(pending := if p.pending > 0 then p.pending - 1 else 0,
       msat := if p.msat >= amount then p.msat - amount else 0)
  }

  function Refill(p: Peer, now: u32): (q: Peer) {
    if Due(p, now) then p.(tokens := p.limits.rate, last := now) else p
  }

  function SetLimits(p: Peer, d: Limits): (q: Peer) {
    p.(limits := d, tokens := if p.tokens > d.rate then d.rate else p.tokens)
  }

  // ----- the table -----

  datatype Op =
    | OpCheck(key: Key, amount: u64, now: u32)
    | OpSettle(key: Key, amount: u64)
    | OpLimits(key: Key, limits: Limits)
    | OpRefill(now: u32)

  datatype Table = Table(defaults: Limits, peers: seq<Peer>)

  /** The first entry with this key; the length if there is none. */
  function Find(ps: seq<Peer>, key: Key): (i: nat)
    ensures i <= |ps|
    ensures i < |ps| ==> ps[i].key == key
    ensures forall j | 0 <= j < i :: ps[j].key != key
    decreases |ps|
  {
    if ps == [] || ps[0].key == key then 0 else 1 + Find(ps[1..], key)
  }

  predicate Known(t: Table, key: Key) {
    Find(t.peers, key) < |t.peers|
  }

  function Get(t: Table, key: Key): (p: Peer)
    requires Known(t, key)
    ensures p.key == key
  {
    t.peers[Find(t.peers, key)]
  }

  function Put(t: Table, p: Peer): (u: Table)
    requires Known(t, p.key)
  {
    t.(peers := t.peers[Find(t.peers, p.key) := p])
  }

  /** find_or_create_peer: a full table takes no one new. */
  function Ensure(t: Table, key: Key): (u: Table) {
    if Known(t, key) || |t.peers| >= MAX_PEERS then t else t.(peers := t.peers + [NewPeer(key, t.defaults)])
  }

  function RefillAll(ps: seq<Peer>, now: u32): (qs: seq<Peer>)
    ensures |qs| == |ps|
    ensures forall i | 0 <= i < |ps| :: qs[i] == Refill(ps[i], now)
  {
    seq(|ps|, i requires 0 <= i < |ps| => Refill(ps[i], now))
  }

  function OnPeer(p: Peer, op: Op): (q: Peer)
    ensures q.key == p.key
  {
    match op
    case OpCheck(_, amount, now) => CheckAdd(p, amount, now)
    case OpSettle(_, amount) => Settle(p, amount)
    case OpLimits(_, d) => SetLimits(p, d)
    case OpRefill(now) => Refill(p, now)
  }

  function Apply(t: Table, op: Op): (u: Table) {
    match op
    case OpRefill(now) => t.(peers := RefillAll(t.peers, now))
    case OpSettle(key, _) => if Known(t, key) then Put(t, OnPeer(Get(t, key), op)) else t
    case _ =>
      var u := Ensure(t, op.key);
      if Known(u, op.key) then Put(u, OnPeer(Get(u, op.key), op)) else u
  }

  function RunTable(t: Table, ops: seq<Op>): (u: Table)
    decreases |ops|
  {
    if ops == [] then t else RunTable(Apply(t, ops[0]), ops[1..])
  }

  predicate Concerns(op: Op, key: Key) {
    op.OpRefill? || op.key == key
  }

  /** What a run does to one peer, reading only the operations that concern it. */
  function RunPeer(p: Peer, ops: seq<Op>): (q: Peer)
    ensures q.key == p.key
    decreases |ops|
  {
    if ops == [] then p else RunPeer(if Concerns(ops[0], p.key) then OnPeer(p, ops[0]) else p, ops[1..])
  }

  // ----- peers do not affect each other -----

  lemma {:induction false} FindSame(ps: seq<Peer>, qs: seq<Peer>, key: Key)
    requires |ps| <= |qs| && forall i | 0 <= i < |ps| :: ps[i].key == qs[i].key
    requires Find(ps, key) < |ps|
    ensures Find(qs, key) == Find(ps, key)
    decreases |ps|
  {
    if ps[0].key != key { FindSame(ps[1..], qs[1..], key); }
  }

  lemma PutKeeps(t: Table, p: Peer, key: Key)
    requires Known(t, p.key) && Known(t, key)
    ensures Known(Put(t, p), key)
    ensures Get(Put(t, p), key) == if key == p.key then p else Get(t, key)
  {
    FindSame(t.peers, Put(t, p).peers, key);
  }

  lemma EnsureKeeps(t: Table, other: Key, key: Key)
    requires Known(t, key)
    ensures Known(Ensure(t, other), key) && Get(Ensure(t, other), key) == Get(t, key)
  {
    FindSame(t.peers, Ensure(t, other).peers, key);
  }

  lemma ApplyOne(t: Table, op: Op, key: Key)
    requires Known(t, key)
    ensures Known(Apply(t, op), key)
    ensures Get(Apply(t, op), key) == if Concerns(op, key) then OnPeer(Get(t, key), op) else Get(t, key)
  {
    hide CheckAdd, Settle, SetLimits, Ensure;
    match op
    case OpRefill(now) => FindSame(t.peers, RefillAll(t.peers, now), key);
    case OpSettle(k, _) =>
      if Known(t, k) { PutKeeps(t, OnPeer(Get(t, k), op), key); }
    case _ =>
      EnsureKeeps(t, op.key, key);
      var u := Ensure(t, op.key);
      if Known(u, op.key) { PutKeeps(u, OnPeer(Get(u, op.key), op), key); }
  }

  /** Over every run, a peer in the table ends exactly as if the other peers were not there. */
  lemma {:induction false} Isolated(t: Table, ops: seq<Op>, key: Key)
    requires Known(t, key)
    ensures Known(RunTable(t, ops), key) && Get(RunTable(t, ops), key) == RunPeer(Get(t, key), ops)
    decreases |ops|
  {
    hide Apply, OnPeer, Known, Get;
    if ops != [] {
      ApplyOne(t, ops[0], key);
      Isolated(Apply(t, ops[0]), ops[1..], key);
    }
  }

  predicate Sound(t: Table) {
    && |t.peers| <= MAX_PEERS
    && forall i, j | 0 <= i < j < |t.peers| :: t.peers[i].key != t.peers[j].key
  }

  /** The table never outgrows its array and never lists a peer twice. */
  lemma ApplySound(t: Table, op: Op)
    requires Sound(t)
    ensures Sound(Apply(t, op))
  {
    hide CheckAdd, Settle, SetLimits, Find, Ensure;
    if !op.OpRefill? {
      EnsureSound(t, op.key);
      EnsureKnown(t, op.key);
    }
  }

  // ----- the rate law -----

  predicate Capped(p: Peer) {
    p.tokens <= p.limits.rate
  }

  /** Tokens never exceed the rate, whatever the clock does and however far the product wraps. */
  lemma CappedStep(p: Peer, op: Op)
    requires Capped(p)
    ensures Capped(OnPeer(p, op))
  {
    if op.OpCheck? {
      hide Fill, Periods;
      FillLaw(p.tokens, (Periods(p, op.now) * p.limits.rate) % U32, p.limits.rate);
    }
  }

  lemma FillLaw(tokens: u32, add: u32, rate: u32)
    requires tokens <= rate
    ensures Fill(tokens, add, rate) <= rate && Fill(tokens, add, rate) <= tokens + add
  {
  }

  /** The mark does not wrap around when a check tops the bucket up. */
  predicate TopUpOk(p: Peer, now: u32) {
    p.limits.rate == 0 || !Due(p, now) || p.last + Periods(p, now) * HOUR < U32
  }

  /** A refill is an hour or more after the mark. */
  predicate RefillOk(p: Peer, now: u32) {
    p.limits.rate == 0 || !Due(p, now) || now - p.last >= HOUR
  }

  /** The tokens gained are at most the rate per hour the mark moved. */
  predicate RateKept(p: Peer, q: Peer) {
    HOUR * (q.tokens - p.tokens) <= p.limits.rate * (q.last - p.last)
  }

  /** One refill, by either route, brings at most the rate per hour the mark moves. */
  lemma TopUpLaw(p: Peer, now: u32)
    requires Capped(p) && TopUpOk(p, now)
    ensures RateKept(p, TopUp(p, now))
  {
    hide Fill, Periods;
    if Due(p, now) {
      var n, r := Periods(p, now), p.limits.rate;
      WrapBelow(n, r);
      FillLaw(p.tokens, (n * r) % U32, r);
      if r == 0 {
        ZeroTimes(TopUp(p, now).last - p.last);
      } else {
        assert HOUR * (n * r) == r * (n * HOUR);
      }
    }
  }

  lemma ZeroTimes(x: int)
    ensures 0 * x == 0
  {
  }

  lemma WrapBelow(n: nat, r: nat)
    ensures 0 <= (n * r) % U32 <= n * r
  {
  }

  lemma RefillLaw(p: Peer, now: u32)
    requires Capped(p) && RefillOk(p, now)
    ensures RateKept(p, Refill(p, now))
  {
    hide RateKept;
    var q := Refill(p, now);
    if Due(p, now) {
      Hours(p.limits.rate, now - p.last);
      ZeroTimes(now - p.last);
    }
    RateKeptIs(p, q);
  }

  /** The law of a check holds for every token count exactly when the mark does not wrap around. */
  lemma TopUpLawExactly(d: Limits, last: u32, now: u32)
    ensures (forall p: Peer | Capped(p) && p.limits == d && p.last == last :: RateKept(p, TopUp(p, now)))
            <==> TopUpOk(Peer(0, d, 0, 0, 0, last), now)
  {
    hide Periods, TopUp;
    var empty := Peer(0, d, 0, 0, 0, last);
    if TopUpOk(empty, now) {
      forall p: Peer | Capped(p) && p.limits == d && p.last == last
        ensures RateKept(p, TopUp(p, now))
      {
        SameMark(empty, p, now);
        TopUpLaw(p, now);
      }
    } else {
      MarkBack(empty, now);
    }
  }

  lemma SameMark(p: Peer, q: Peer, now: u32)
    requires p.last == q.last
    ensures Periods(p, now) == Periods(q, now)
  {
  }

  /** A mark that wraps goes back, which no token count makes up for. */
  lemma MarkBack(p: Peer, now: u32)
    requires p.tokens == 0 && !TopUpOk(p, now)
    ensures !RateKept(p, TopUp(p, now))
  {
    hide Fill, RateKept;
    var x, q := p.last + Periods(p, now) * HOUR, TopUp(p, now);
    assert x < 2 * U32 && Periods(p, now) * HOUR < U32 by { PeriodsBelow(p, now); }
    assert x % U32 == x - U32;
    Negative(p.limits.rate, q.last - p.last, q.tokens - p.tokens);
    assert !(HOUR * (q.tokens - p.tokens) <= p.limits.rate * (q.last - p.last));
    assert !RateKept(p, q) by { RateKeptIs(p, q); }
  }

  lemma RateKeptIs(p: Peer, q: Peer)
    ensures RateKept(p, q) <==> HOUR * (q.tokens - p.tokens) <= p.limits.rate * (q.last - p.last)
  {
  }

  lemma PeriodsBelow(p: Peer, now: u32)
    ensures Periods(p, now) * HOUR < U32
  {
  }

  lemma Negative(r: int, x: int, t: int)
    requires r > 0 && x < 0 && t >= 0
    ensures r * x < HOUR * t
  {
  }

  /** The law of a refill holds for every token count exactly when it is an hour or more after the mark. */
  lemma RefillLawExactly(d: Limits, last: u32, now: u32)
    ensures (forall p: Peer | Capped(p) && p.limits == d && p.last == last :: RateKept(p, Refill(p, now)))
            <==> RefillOk(Peer(0, d, 0, 0, 0, last), now)
  {
    hide RateKept;
    var empty := Peer(0, d, 0, 0, 0, last);
    if RefillOk(empty, now) {
      forall p: Peer | Capped(p) && p.limits == d && p.last == last
        ensures RateKept(p, Refill(p, now))
      {
        RefillLaw(p, now);
      }
    } else {
      Hours(d.rate, now - last);
      RateKeptIs(empty, Refill(empty, now));
    }
  }

  /** An empty bucket of ten, marked ten seconds before the end of the clock, is full one second later. */
  lemma EndOfClock(key: Key)
    ensures var p := Peer(key, Limits(483, 0, 10), 0, 0, 0, U32 - 10);
            Refill(p, U32 - 9).tokens == 10
  {
  }

  /** And full again by a check at a time before the mark, which moves back. */
  lemma EndOfClockCheck(key: Key)
    ensures var p := Peer(key, Limits(483, 0, 10), 0, 0, 0, U32 - 10);
            TopUp(p, U32 - 5000).tokens == 10 && TopUp(p, U32 - 5000).last < p.last
  {
    var p := Peer(key, Limits(483, 0, 10), 0, 0, 0, U32 - 10);
    assert (U32 - 5000 - p.last) % U32 == U32 - 4990;
    assert Periods(p, U32 - 5000) == 1193045;
  }

  lemma Hours(r: nat, e: int)
    ensures HOUR * r <= r * e <==> r == 0 || e >= HOUR
  {
    assert r * (e - HOUR) == r * e - r * HOUR;
    if r > 0 && e < HOUR { assert r * (HOUR - e) > 0; }
    if e >= HOUR { assert r * (e - HOUR) >= 0; }
  }

  function Passed(p: Peer, op: Op): (n: nat) {
    if op.OpCheck? && op.key == p.key && Judge(TopUp(p, op.now), op.amount) == Accepted then 1 else 0
  }

  /** How many checks of the run are accepted. */
  function AcceptedIn(p: Peer, ops: seq<Op>): (n: nat)
    decreases |ops|
  {
    if ops == [] then 0
    else Passed(p, ops[0]) + AcceptedIn(if Concerns(ops[0], p.key) then OnPeer(p, ops[0]) else p, ops[1..])
  }

  predicate FixedLimits(ops: seq<Op>, key: Key) {
    forall i | 0 <= i < |ops| :: ops[i].OpLimits? ==> ops[i].key != key
  }

  predicate ClockStep(p: Peer, op: Op) {
    match op
    case OpCheck(_, _, now) => TopUpOk(p, now)
    case OpRefill(now) => RefillOk(p, now)
    case _ => true
  }

  /** No refill of the run meets the end of the 32-bit clock. */
  predicate ClockRun(p: Peer, ops: seq<Op>)
    decreases |ops|
  {
    ops == [] || if Concerns(ops[0], p.key) then ClockStep(p, ops[0]) && ClockRun(OnPeer(p, ops[0]), ops[1..]) else ClockRun(p, ops[1..])
  }

  /** Every clock reading of the run leaves room for an hour below 2^32. */
  predicate ClocksOk(ops: seq<Op>) {
    forall i | 0 <= i < |ops| :: ops[i].OpCheck? || ops[i].OpRefill? ==> ops[i].now + HOUR < U32
  }

  lemma ClockStepOk(p: Peer, op: Op)
    requires p.last + HOUR < U32 && (op.OpCheck? || op.OpRefill? ==> op.now + HOUR < U32)
    ensures ClockStep(p, op) && OnPeer(p, op).last + HOUR < U32
  {
    hide Fill;
    if op.OpCheck? && Due(p, op.now) {
      assert (op.now as int - p.last) % U32 == op.now - p.last;
      assert p.last + Periods(p, op.now) * HOUR <= op.now;
    }
  }

  /** An hour to spare below 2^32 at every reading is enough. */
  lemma {:induction false} ClocksSuffice(p: Peer, ops: seq<Op>)
    requires p.last + HOUR < U32 && ClocksOk(ops)
    ensures ClockRun(p, ops)
    decreases |ops|
  {
    hide OnPeer, ClockStep;
    if ops != [] {
      ClockStepOk(p, ops[0]);
      ClocksSuffice(if Concerns(ops[0], p.key) then OnPeer(p, ops[0]) else p, ops[1..]);
    }
  }

  lemma RateStep(p: Peer, op: Op)
    requires Capped(p) && Concerns(op, p.key) && ClockStep(p, op) && !op.OpLimits?
    ensures var q := OnPeer(p, op);
            && q.limits == p.limits
            && HOUR * (Passed(p, op) + q.tokens - p.tokens) <= p.limits.rate * (q.last - p.last)
  {
    hide TopUp, Refill, TopUpOk, RefillOk;
    match op
    case OpCheck(_, _, now) => TopUpLaw(p, now); TopUpFrame(p, now);
    case OpRefill(now) => RefillLaw(p, now); RefillFrame(p, now);
    case OpSettle(_, _) =>
  }

  lemma TopUpFrame(p: Peer, now: u32)
    ensures TopUp(p, now) == p.(tokens := TopUp(p, now).tokens, last := TopUp(p, now).last)
  {
  }

  lemma RefillFrame(p: Peer, now: u32)
    ensures Refill(p, now) == p.(tokens := Refill(p, now).tokens, last := Refill(p, now).last)
  {
  }

  /**
  The rate limit over every run with fixed limits: what is accepted, plus what is left in
  the bucket, exceeds what was in it by at most the rate times the hours gone by.
  */
  lemma {:induction false} RateLaw(p: Peer, ops: seq<Op>)
    requires Capped(p) && FixedLimits(ops, p.key) && ClockRun(p, ops)
    ensures var q := RunPeer(p, ops);
            && q.limits == p.limits && Capped(q)
            && HOUR * (AcceptedIn(p, ops) + q.tokens - p.tokens) <= p.limits.rate * (q.last - p.last)
    decreases |ops|
  {
    hide OnPeer, Passed, Capped, ClockStep;
    if ops != [] {
      var op := ops[0];
      assert Concerns(op, p.key) || Passed(p, op) == 0 by { NotConcerned(p, op); }
      var r := if Concerns(op, p.key) then OnPeer(p, op) else p;
      if Concerns(op, p.key) {
        RateStep(p, op);
        CappedStep(p, op);
      }
      RateLaw(r, ops[1..]);
      Telescope(p.limits.rate, p.last, r.last, RunPeer(r, ops[1..]).last);
    }
  }

  lemma NotConcerned(p: Peer, op: Op)
    ensures !Concerns(op, p.key) ==> Passed(p, op) == 0
  {
  }

  lemma Telescope(r: int, a: int, b: int, c: int)
    ensures r * (b - a) + r * (c - b) == r * (c - a)
  {
  }

  // ----- what is pending -----

  function Sum(xs: seq<nat>): (n: nat) {
    if xs == [] then 0 else xs[0] + Sum(xs[1..])
  }

  function Remove(xs: seq<nat>, x: nat): (ys: seq<nat>)
    requires x in xs
    ensures |ys| == |xs| - 1
    decreases |xs|
  {
    if xs[0] == x then xs[1..] else [xs[0]] + Remove(xs[1..], x)
  }

  lemma {:induction false} SumRemove(xs: seq<nat>, x: nat)
    requires x in xs
    ensures Sum(Remove(xs, x)) == Sum(xs) - x
    decreases |xs|
  {
    if xs[0] != x {
      SumRemove(xs[1..], x);
      assert ([xs[0]] + Remove(xs[1..], x))[1..] == Remove(xs[1..], x);
    }
  }

  /** The amounts accepted and not yet settled, newest first. */
  function Outstanding(out: seq<nat>, p: Peer, op: Op): (o: seq<nat>) {
    if Passed(p, op) == 1 then [op.amount] + out
    else if op.OpSettle? && op.key == p.key && op.amount in out then Remove(out, op.amount)
    else out
  }

  function OutstandingIn(out: seq<nat>, p: Peer, ops: seq<Op>): (o: seq<nat>)
    decreases |ops|
  {
    if ops == [] then out
    else OutstandingIn(Outstanding(out, p, ops[0]), if Concerns(ops[0], p.key) then OnPeer(p, ops[0]) else p, ops[1..])
  }

  /** A settlement is of something outstanding. */
  predicate Matched(out: seq<nat>, p: Peer, op: Op) {
    op.OpSettle? && op.key == p.key ==> op.amount in out
  }

  /** And an accepted check does not bring the sum to 2^64. */
  predicate Proper(out: seq<nat>, p: Peer, op: Op) {
    Matched(out, p, op) && (Passed(p, op) == 1 ==> Sum(out) + op.amount < U64)
  }

  predicate MatchedRun(out: seq<nat>, p: Peer, ops: seq<Op>)
    decreases |ops|
  {
    ops == [] || (Matched(out, p, ops[0]) &&
                  MatchedRun(Outstanding(out, p, ops[0]), if Concerns(ops[0], p.key) then OnPeer(p, ops[0]) else p, ops[1..]))
  }

  predicate ProperRun(out: seq<nat>, p: Peer, ops: seq<Op>)
    decreases |ops|
  {
    ops == [] || (Proper(out, p, ops[0]) &&
                  ProperRun(Outstanding(out, p, ops[0]), if Concerns(ops[0], p.key) then OnPeer(p, ops[0]) else p, ops[1..]))
  }

  predicate Books(out: seq<nat>, p: Peer) {
    p.pending == |out| && p.msat == Sum(out)
  }

  lemma BooksStep(out: seq<nat>, p: Peer, op: Op)
    requires p.pending == |out| && Matched(out, p, op) && Concerns(op, p.key)
    ensures OnPeer(p, op).pending == |Outstanding(out, p, op)|
    ensures Books(out, p) && Proper(out, p, op) ==> Books(Outstanding(out, p, op), OnPeer(p, op))
  {
    hide TopUp, Refill;
    match op
    case OpCheck(_, amount, now) =>
      TopUpFrame(p, now);
      assert ([amount] + out)[1..] == out;
    case OpSettle(_, amount) => SumRemove(out, amount);
    case OpLimits(_, _) =>
    case OpRefill(now) => RefillFrame(p, now);
  }

  /**
  Over every run whose settlements are of something outstanding, the pending count is the
  number of unsettled acceptances; if no accepted check brings the sum to 2^64, the pending
  amount is exactly their sum.
  */
  lemma {:induction false} PendingLaw(out: seq<nat>, p: Peer, ops: seq<Op>)
    requires p.pending == |out| && MatchedRun(out, p, ops)
    ensures RunPeer(p, ops).pending == |OutstandingIn(out, p, ops)|
    ensures Books(out, p) && ProperRun(out, p, ops) ==> Books(OutstandingIn(out, p, ops), RunPeer(p, ops))
    decreases |ops|
  {
    hide OnPeer, Outstanding, Books, Proper, Matched;
    if ops != [] {
      var op := ops[0];
      if Concerns(op, p.key) {
        BooksStep(out, p, op);
        PendingLaw(Outstanding(out, p, op), OnPeer(p, op), ops[1..]);
      } else {
        assert Outstanding(out, p, op) == out by { OutstandingSame(out, p, op); }
        PendingLaw(out, p, ops[1..]);
      }
    }
  }

  lemma OutstandingSame(out: seq<nat>, p: Peer, op: Op)
    requires !Concerns(op, p.key)
    ensures Outstanding(out, p, op) == out && Proper(out, p, op)
  {
    hide Judge, TopUp;
  }

  predicate WithinLimits(p: Peer) {
    p.pending <= p.limits.pending && (p.limits.msat > 0 ==> p.msat <= p.limits.msat)
  }

  /** With fixed limits, neither 64-bit counter ever passes its cap. */
  lemma CapsStep(p: Peer, op: Op)
    requires WithinLimits(p) && !op.OpLimits?
    ensures WithinLimits(OnPeer(p, op)) && OnPeer(p, op).limits == p.limits
  {
    hide TopUp, Refill;
    match op
    case OpCheck(_, _, now) => TopUpFrame(p, now);
    case OpRefill(now) => RefillFrame(p, now);
    case OpSettle(_, _) =>
  }

  lemma {:induction false} CapsHold(p: Peer, ops: seq<Op>)
    requires WithinLimits(p) && FixedLimits(ops, p.key)
    ensures WithinLimits(RunPeer(p, ops))
    decreases |ops|
  {
    hide OnPeer, WithinLimits;
    if ops != [] {
      if Concerns(ops[0], p.key) { CapsStep(p, ops[0]); }
      CapsHold(if Concerns(ops[0], p.key) then OnPeer(p, ops[0]) else p, ops[1..]);
    }
  }

  // ----- the cap on what is really outstanding -----

  /** An accepted amount respects the cap exactly when the 64-bit sum did not wrap. */
  lemma AcceptExactly(p: Peer, amount: u64)
    requires p.limits.msat > 0 && Judge(p, amount) == Accepted
    ensures p.msat + amount <= p.limits.msat <==> p.msat + amount < U64
  {
  }

  /** A new peer with the default limits may have 1 and then 2^64 - 1 millisatoshi accepted; the counter says 0. */
  lemma CapWraps(key: Key)
    ensures var p := NewPeer(key, DEFAULTS);
            var ops := [OpCheck(key, 1, 0), OpCheck(key, U64 - 1, 0)];
            && AcceptedIn(p, ops) == 2 && OutstandingIn([], p, ops) == [U64 - 1, 1]
            && RunPeer(p, ops).pending == 2 && RunPeer(p, ops).msat == 0
  {
    var p, a, b := NewPeer(key, DEFAULTS), OpCheck(key, 1, 0), OpCheck(key, U64 - 1, 0);
    var q := OnPeer(p, a);
    assert TopUp(p, 0) == p && q == Take(p, 1) && TopUp(q, 0) == q;
    assert [a, b][1..] == [b] && [b][1..] == [];
    assert Passed(p, a) == 1 && Passed(q, b) == 1;
    assert Outstanding([], p, a) == [1] && Outstanding([1], q, b) == [U64 - 1, 1];
    assert OutstandingIn([1], q, [b]) == OutstandingIn([U64 - 1, 1], OnPeer(q, b), []);
    assert AcceptedIn(q, [b]) == 1;
    assert RunPeer(q, [b]) == OnPeer(q, b);
  }

  /** After every step of the run what is really outstanding is within the cap. */
  predicate SumsCapped(out: seq<nat>, p: Peer, ops: seq<Op>)
    decreases |ops|
  {
    Sum(out) <= p.limits.msat &&
    (ops == [] ||
     SumsCapped(Outstanding(out, p, ops[0]), if Concerns(ops[0], p.key) then OnPeer(p, ops[0]) else p, ops[1..]))
  }

  lemma CappedOnce(out: seq<nat>, p: Peer, op: Op)
    requires Books(out, p) && WithinLimits(p) && p.limits.msat > 0 && Matched(out, p, op) && !op.OpLimits? && Concerns(op, p.key)
    ensures Sum(Outstanding(out, p, op)) <= p.limits.msat <==> Proper(out, p, op)
  {
    hide TopUp, Refill;
    if op.OpCheck? {
      TopUpFrame(p, op.now);
      assert ([op.amount] + out)[1..] == out;
    } else if op.OpSettle? {
      SumRemove(out, op.amount);
    }
  }

  /** Over every run with fixed limits what is really outstanding stays within the cap exactly when no accepted check brings the sum to 2^64. */
  lemma {:induction false} AmountCapExactly(out: seq<nat>, p: Peer, ops: seq<Op>)
    requires Books(out, p) && WithinLimits(p) && p.limits.msat > 0
    requires MatchedRun(out, p, ops) && FixedLimits(ops, p.key)
    ensures SumsCapped(out, p, ops) <==> ProperRun(out, p, ops)
    decreases |ops|
  {
    hide OnPeer, Outstanding, Proper, Matched;
    if ops != [] {
      var op := ops[0];
      if Concerns(op, p.key) {
        CappedOnce(out, p, op);
        BooksStep(out, p, op);
        CapsStep(p, op);
        if Proper(out, p, op) {
          AmountCapExactly(Outstanding(out, p, op), OnPeer(p, op), ops[1..]);
        }
      } else {
        OutstandingSame(out, p, op);
        AmountCapExactly(out, p, ops[1..]);
      }
    }
  }

  lemma {:induction false} CappedAtEnd(out: seq<nat>, p: Peer, ops: seq<Op>)
    requires SumsCapped(out, p, ops) && FixedLimits(ops, p.key) && WithinLimits(p)
    ensures Sum(OutstandingIn(out, p, ops)) <= p.limits.msat
    decreases |ops|
  {
    hide OnPeer, Outstanding, WithinLimits, Sum;
    if ops != [] {
      if Concerns(ops[0], p.key) { CapsStep(p, ops[0]); }
      CappedAtEnd(Outstanding(out, p, ops[0]), if Concerns(ops[0], p.key) then OnPeer(p, ops[0]) else p, ops[1..]);
    }
  }

  /**
  All of it for the table: a peer listed there, others active or not, obeys the rate, and
  the number of its outstanding HTLCs is what the counter says and within the cap.  Their
  amount is within its cap throughout exactly when no accepted check brings it to 2^64,
  and then it too is what the counter says.
  */
  lemma PeerGuarantees(t: Table, ops: seq<Op>, key: Key)
    requires Known(t, key)
    requires var p := Get(t, key); Capped(p) && WithinLimits(p) && Books([], p) && MatchedRun([], p, ops) && ClockRun(p, ops)
    requires FixedLimits(ops, key)
    ensures Known(RunTable(t, ops), key)
    ensures var p, q := Get(t, key), Get(RunTable(t, ops), key);
            var out := OutstandingIn([], p, ops);
            && HOUR * (AcceptedIn(p, ops) + q.tokens - p.tokens) <= p.limits.rate * (q.last - p.last)
            && q.tokens <= p.limits.rate
            && q.pending == |out| <= p.limits.pending
            && (ProperRun([], p, ops) ==> q.msat == Sum(out))
            && (p.limits.msat > 0 ==> (SumsCapped([], p, ops) <==> ProperRun([], p, ops)))
            && (p.limits.msat > 0 && ProperRun([], p, ops) ==> Sum(out) <= p.limits.msat)
  {
    hide RunTable, RunPeer, OutstandingIn, ProperRun, MatchedRun, SumsCapped, AcceptedIn, FixedLimits, ClockRun, Known;
    var p := Get(t, key);
    Isolated(t, ops, key);
    RateLaw(p, ops);
    PendingLaw([], p, ops);
    CapsHold(p, ops);
    if p.limits.msat > 0 {
      AmountCapExactly([], p, ops);
      if ProperRun([], p, ops) { CappedAtEnd([], p, ops); }
    }
  }

  // ----- what a peer is allowed -----

  function Min(a: nat, b: nat): (m: nat) {
    if a < b then a else b
  }

  /** What the hours since the mark bring, in 32 bits. */
  function Earned(p: Peer, now: u32): (n: u32) {
    if Due(p, now) then (Periods(p, now) * p.limits.rate) % U32 else 0
  }

  /** A check's refill brings what was earned, up to the rate. */
  lemma TopUpExactly(p: Peer, now: u32)
    requires Capped(p)
    ensures TopUp(p, now).tokens == Min(p.limits.rate, p.tokens + Earned(p, now))
  {
    hide Periods, Fill;
    if Due(p, now) { FillExactly(p.tokens, Earned(p, now), p.limits.rate); }
  }

  lemma FillExactly(tokens: u32, add: u32, rate: u32)
    requires tokens <= rate
    ensures Fill(tokens, add, rate) == Min(rate, tokens + add)
  {
    assert (rate as int - tokens) % U32 == rate - tokens;
  }

  lemma HourEarns(n: nat, rate: nat)
    requires n >= 1 && n * rate < U32
    ensures (n * rate) % U32 >= rate
  {
    assert (n - 1) * rate >= 0;
    assert n * rate == (n - 1) * rate + rate;
  }

  /** An hour after the mark the bucket is full, as long as hours times rate stay below 2^32. */
  lemma HourFills(p: Peer, now: u32)
    requires Capped(p) && p.last + 3600 <= now && (now - p.last) / 3600 * p.limits.rate < U32
    ensures TopUp(p, now).tokens == p.limits.rate && Refill(p, now).tokens == p.limits.rate
  {
    var n := (now - p.last) / 3600;
    assert Due(p, now) && Periods(p, now) == n;
    TopUpExactly(p, now);
    HourEarns(n, p.limits.rate);
  }

  lemma HourEarned(p: Peer, now: u32, n: nat)
    requires p.last + 3600 <= now && n == (now - p.last) / 3600
    ensures Earned(p, now) == n * p.limits.rate % U32
  {
    assert Due(p, now) && Periods(p, now) == n;
  }

  /** An hour or more after the mark every bucket is full exactly when the product, in 32 bits, is at least the rate. */
  lemma HourFillsExactly(d: Limits, last: u32, now: u32)
    requires last + 3600 <= now
    ensures (forall p: Peer | Capped(p) && p.limits == d && p.last == last :: TopUp(p, now).tokens == d.rate)
            <==> (now - last) / 3600 * d.rate % U32 >= d.rate
  {
    hide TopUp, Earned;
    var n, empty := (now - last) / 3600, Peer(0, d, 0, 0, 0, last);
    var earned := n * d.rate % U32;
    forall p: Peer | Capped(p) && p.limits == d && p.last == last
      ensures TopUp(p, now).tokens == Min(d.rate, p.tokens + earned)
    {
      TopUpExactly(p, now);
      HourEarned(p, now, n);
    }
    assert Capped(empty);
  }

  /** 65536 tokens an hour, 65536 hours after the mark: the product is 0, and an empty bucket stays empty. */
  lemma HoursLost(key: Key)
    ensures var p := Peer(key, Limits(483, 0, 65536), 0, 0, 0, 0);
            && TopUp(p, 65536 * 3600).tokens == 0 && Judge(TopUp(p, 65536 * 3600), 1) == Exhausted
            && TopUp(p, 65535 * 3600).tokens == 65536
  {
    var p := Peer(key, Limits(483, 0, 65536), 0, 0, 0, 0);
    assert Periods(p, 65536 * 3600) == 65536 && Periods(p, 65535 * 3600) == 65535;
    TopUpExactly(p, 65536 * 3600);
    TopUpExactly(p, 65535 * 3600);
  }

  predicate WithinCaps(p: Peer, amount: u64) {
    p.pending < p.limits.pending && (p.limits.msat == 0 || (p.msat + amount) % U64 <= p.limits.msat)
  }

  /**
  The verdict of a check: refused outside the caps; within them accepted exactly when a
  token is left or one was earned since the mark, and a ban asked for otherwise.
  */
  lemma CheckExactly(p: Peer, amount: u64, now: u32)
    requires Capped(p)
    ensures var v := Judge(TopUp(p, now), amount);
            && (v == Refused <==> !WithinCaps(p, amount))
            && (v == Accepted <==> WithinCaps(p, amount) && (p.tokens > 0 || Earned(p, now) > 0))
            && (v == Exhausted <==> WithinCaps(p, amount) && p.tokens == 0 && Earned(p, now) == 0)
  {
    hide Earned, TopUp;
    TopUpExactly(p, now);
    TopUpFrame(p, now);
    EarnedNeedsRate(p, now);
  }

  lemma EarnedNeedsRate(p: Peer, now: u32)
    ensures p.limits.rate == 0 ==> Earned(p, now) == 0
  {
    if p.limits.rate == 0 { assert Periods(p, now) * 0 == 0; }
  }

  /** Only an accepted check takes a token. */
  lemma TokensStep(p: Peer, op: Op)
    requires Capped(p) && !op.OpLimits? && Concerns(op, p.key)
    ensures OnPeer(p, op).tokens + Passed(p, op) >= p.tokens
  {
    if op.OpCheck? {
      hide Earned, TopUp;
      TopUpExactly(p, op.now);
    }
  }

  /** Over every run with fixed limits at least the tokens not taken by accepted checks are left. */
  lemma {:induction false} TokensLeft(p: Peer, ops: seq<Op>)
    requires Capped(p) && FixedLimits(ops, p.key)
    ensures Capped(RunPeer(p, ops)) && RunPeer(p, ops).tokens + AcceptedIn(p, ops) >= p.tokens
    decreases |ops|
  {
    hide OnPeer, Passed;
    if ops != [] {
      var op := ops[0];
      if Concerns(op, p.key) {
        CappedStep(p, op);
        TokensStep(p, op);
        TokensLeft(OnPeer(p, op), ops[1..]);
      } else {
        PassedNot(p, op);
        TokensLeft(p, ops[1..]);
      }
    }
  }

  lemma PassedNot(p: Peer, op: Op)
    requires !Concerns(op, p.key)
    ensures Passed(p, op) == 0
  {
  }

  /**
  A peer with a full bucket is not refused for want of a token, at any time and after any
  run with fixed limits, before `rate` of its checks have been accepted.
  */
  lemma NeverStarved(p: Peer, ops: seq<Op>, amount: u64, now: u32)
    requires p.tokens == p.limits.rate && FixedLimits(ops, p.key) && AcceptedIn(p, ops) < p.limits.rate
    ensures var q := RunPeer(p, ops);
            && Judge(TopUp(q, now), amount) != Exhausted
            && (Judge(TopUp(q, now), amount) == Accepted <==> WithinCaps(q, amount))
  {
    hide RunPeer, AcceptedIn, TopUp, Judge, FixedLimits;
    TokensLeft(p, ops);
    CheckExactly(RunPeer(p, ops), amount, now);
  }

  /** New limits cut the tokens to the new rate and change nothing else. */
  lemma LimitsCut(p: Peer, d: Limits)
    ensures SetLimits(p, d) == p.(limits := d, tokens := Min(p.tokens, d.rate))
  {
  }

  // ----- the breaker -----

  class Breaker {
    const peers: array<Peer>
    var n: nat
    var defaults: Limits

    ghost predicate Valid()
      reads this, peers
    {
      peers.Length == MAX_PEERS && n <= MAX_PEERS && Sound(View())
    }

    ghost function View(): (t: Table)
      requires n <= peers.Length
      reads this, peers
    {
      Table(defaults, peers[..n])
    }

    /** circuit_breaker_init */
    constructor ()
      ensures Valid() && fresh(peers) && View() == Table(DEFAULTS, [])
    {
      peers := new Peer[MAX_PEERS](_ => NewPeer(0, DEFAULTS));
      n := 0;
      defaults := DEFAULTS;
    }

    /** find_peer */
    method FindPeer(key: Key) returns (i: nat)
      requires Valid()
      ensures i == Find(View().peers, key)
    {
      i := 0;
      ghost var ps := View().peers;
      while i < n
        invariant 0 <= i <= n
        invariant Find(ps, key) == i + Find(ps[i..], key)
      {
        if peers[i].key == key { return; }
        assert ps[i..][1..] == ps[i + 1..];
        i := i + 1;
      }
    }

    /** find_or_create_peer; `i == n` when there is no room. */
    method FindOrCreate(key: Key) returns (i: nat)
      requires Valid()
      modifies `n, peers
      ensures Valid() && defaults == old(defaults)
      ensures View() == Ensure(old(View()), key) && i == Find(View().peers, key)
    {
      hide Sound;
      ghost var t := View();
      i := FindPeer(key);
      if i < n { return; }
      if n >= MAX_PEERS { return; }
      peers[n] := NewPeer(key, defaults);
      n := n + 1;
      assert peers[..n] == t.peers + [NewPeer(key, t.defaults)];
      EnsureSound(t, key);
      FindLast(t.peers, NewPeer(key, t.defaults));
    }

    method SetPeer(i: nat, p: Peer)
      requires Valid() && i < n && i == Find(View().peers, p.key)
      modifies peers
      ensures Valid() && View() == Put(old(View()), p)
    {
      ghost var t := View();
      peers[i] := p;
      assert peers[..n] == t.peers[i := p];
    }

    /** circuit_breaker_set_peer_limits */
    method SetPeerLimits(key: Key, d: Limits)
      requires Valid()
      modifies this, peers
      ensures Valid() && View() == Apply(old(View()), OpLimits(key, d))
    {
      hide Sound, Find;
      var i := FindOrCreate(key);
      if i == n { return; }
      SetPeer(i, SetLimits(peers[i], d));
    }

    /** circuit_breaker_check_add */
    method Check(key: Key, amount: u64, now: u32) returns (v: Verdict)
      requires Valid()
      modifies this, peers
      ensures Valid() && View() == Apply(old(View()), OpCheck(key, amount, now))
      ensures var t := Ensure(old(View()), key);
              v == if Known(t, key) then Judge(TopUp(Get(t, key), now), amount) else Refused
    {
      hide Sound, Find, TopUp;
      var i := FindOrCreate(key);
      if i == n { return Refused; }
      var p := TopUp(peers[i], now);
      assert p.key == key by { TopUpFrame(peers[i], now); }
      v := Judge(p, amount);
      SetPeer(i, if v == Accepted then Take(p, amount) else p);
    }

    /** circuit_breaker_record_settled */
    method RecordSettled(key: Key, amount: u64)
      requires Valid()
      modifies this, peers
      ensures Valid() && View() == Apply(old(View()), OpSettle(key, amount))
    {
      hide Sound, Find;
      var i := FindPeer(key);
      if i == n { return; }
      SetPeer(i, Settle(peers[i], amount));
    }

    /** circuit_breaker_refill_tokens */
    method RefillTokens(now: u32)
      requires Valid()
      modifies this, peers
      ensures Valid() && View() == Apply(old(View()), OpRefill(now))
    {
      hide Sound;
      ghost var t := View();
      var i := 0;
      while i < n
        invariant 0 <= i <= n == old(n) && defaults == old(defaults)
        invariant forall j | 0 <= j < i :: peers[j] == Refill(t.peers[j], now)
        invariant forall j | i <= j < n :: peers[j] == t.peers[j]
      {
        peers[i] := Refill(peers[i], now);
        i := i + 1;
      }
      assert peers[..n] == RefillAll(t.peers, now);
      ApplySound(t, OpRefill(now));
    }
  }

  lemma EnsureKnown(t: Table, key: Key)
    ensures Known(Ensure(t, key), key) || Ensure(t, key) == t
  {
    if Find(t.peers, key) == |t.peers| { FindLast(t.peers, NewPeer(key, t.defaults)); }
  }

  /** A peer is in the table after it was asked for exactly when it was there or fewer than 64 others are. */
  lemma KnownExactly(t: Table, key: Key)
    ensures Known(Ensure(t, key), key) <==> Known(t, key) || |t.peers| < 64
  {
    hide Find;
    EnsureKnown(t, key);
    if !Known(t, key) && |t.peers| < 64 { FindLast(t.peers, NewPeer(key, t.defaults)); }
  }

  /** The first check of an unknown peer, with the defaults written out: accepted up to 10^11 millisatoshi, and 3599 more to come. */
  lemma FirstCheck(t: Table, key: Key, amount: u64)
    requires t.defaults == DEFAULTS && !Known(t, key) && |t.peers| < 64
    ensures var u := Apply(t, OpCheck(key, amount, 0));
            && Known(u, key)
            && (amount <= 100000000000 ==> Get(u, key) == Peer(key, Limits(483, 100000000000, 3600), 1, amount, 3599, 0))
            && (amount > 100000000000 ==> Get(u, key) == Peer(key, Limits(483, 100000000000, 3600), 0, 0, 3600, 0))
  {
    hide Find;
    var p := NewPeer(key, DEFAULTS);
    FindLast(t.peers, p);
    var u := Ensure(t, key);
    assert Get(u, key) == p && TopUp(p, 0) == p;
    PutKeeps(u, OnPeer(p, OpCheck(key, amount, 0)), key);
  }

  lemma EnsureSound(t: Table, key: Key)
    requires Sound(t)
    ensures Sound(Ensure(t, key))
  {
  }

  lemma {:induction false} FindLast(ps: seq<Peer>, p: Peer)
    requires Find(ps, p.key) == |ps|
    ensures Find(ps + [p], p.key) == |ps|
    decreases |ps|
  {
    if ps != [] {
      assert (ps + [p])[1..] == ps[1..] + [p];
      FindLast(ps[1..], p);
    }
  }
}
