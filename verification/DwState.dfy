/**
The Decker-Wattenhofer counter (src/dw_state.c): layers of states, the innermost ticking
fastest, and the relative delay (BIP-68 nSequence) each layer's state stands for.  All
arithmetic is the source's: 32-bit counts, 16-bit delays.
*/
module DwState {
  import opened Bits
  import opened Wrappers

  const MAX_LAYERS := 8

  /** One more than `x - 1` in 32 bits: a count of 0 stands for 2^32. */
  function Radix(x: u32): (r: nat)
    ensures 0 < r <= U32
  {
    if x == 0 then U32 else x
  }

  function Power(r: nat, n: nat): (p: nat)
    ensures r > 0 ==> p > 0
  {
    if n == 0 then 1 else
      assert r > 0 ==> Power(r, n - 1) * r > 0;
      Power(r, n - 1) * r
  }

  /** total_states, a 32-bit product. */
  function Total(k: u32, n: nat): (t: u32) {
    Power(k, n) % U32
  }

  /** dw_delay_for_state: a 32-bit product cut to 16 bits. */
  function Delay(step: nat, k: u32, state: nat): (d: nat)
    ensures d < U16
  {
    (step * ((k as int - 1 - state) % U32)) % U16
  }

  lemma DelayAt(step: nat, k: u32, state: nat, d: nat)
    requires state < k && d == step * (k - 1 - state) && d < U16
    ensures Delay(step, k, state) == d
  {
    assert (k as int - 1 - state) % U32 == k - 1 - state;
  }

  /** The first state waits `k - 1` steps, the last not at all, and each one step less than the one before. */
  lemma DelaySteps(step: nat, k: u32, state: nat)
    requires state + 1 < k && step * (k - 1) < U16
    ensures Delay(step, k, 0) == step * (k - 1) && Delay(step, k, k - 1) == 0
    ensures Delay(step, k, state) == Delay(step, k, state + 1) + step
  {
    hide Delay;
    var a := k - 2 - state;
    var d := step * a;
    assert step * (a + 1) == d + step;
    assert d + step <= step * (k - 1) by {
      assert step * (k - 1) == step * (a + 1) + step * state;
    }
    DelayAt(step, k, 0, step * (k - 1));
    assert step * 0 == 0;
    DelayAt(step, k, k - 1, 0);
    DelayAt(step, k, state, d + step);
    DelayAt(step, k, state + 1, d);
  }

  /** One tick of the layers, outermost first: the innermost that can advance does, those inside it restart. */
  function Tick(s: seq<nat>, r: nat): (t: Option<seq<nat>>)
    requires r > 0
    ensures t.Some? ==> |t.value| == |s|
    decreases |s|
  {
    if s == [] then None
    else
      var outer, last := s[..|s| - 1], s[|s| - 1];
      if last < r - 1 then Some(outer + [last + 1])
      else match Tick(outer, r)
        case None => None
        case Some(o) => Some(o + [0])
  }

  datatype Ctr = Ctr(k: u32, states: seq<nat>, epoch: nat)

  function Start(k: u32, n: nat): (c: Ctr) {
    Ctr(k, seq(n, _ => 0), 0)
  }

  function LastEpoch(k: u32, n: nat): (e: nat)
    ensures e < U32
  {
    Radix(Total(k, n)) - 1
  }

  function Advance(c: Ctr): (t: Option<Ctr>) {
    if c.epoch >= LastEpoch(c.k, |c.states|) then None
    else match Tick(c.states, Radix(c.k))
      case None => None
      case Some(s) => Some(Ctr(c.k, s, c.epoch + 1))
  }

  function Run(c: Ctr, steps: nat): (t: Option<Ctr>) {
    if steps == 0 then Some(c)
    else match Run(c, steps - 1)
      case None => None
      case Some(d) => Advance(d)
  }

  // ----- the counter -----

  class Counter {
    const step: nat
    const k: u32
    const layers: array<u32>
    var total: u32
    var epoch: u32

    ghost predicate Valid()
      reads this
    {
      total == Total(k, layers.Length)
    }

    ghost function View(): (c: Ctr)
      reads this, layers
    {
      Ctr(k, layers[..], epoch)
    }

    /** dw_counter_init */
    constructor (n: nat, step: nat, k: u32)
      requires n <= MAX_LAYERS && step < U16
      ensures Valid() && fresh(layers) && View() == Start(k, n) && this.step == step
    {
      this.step := step;
      this.k := k;
      layers := new u32[n](_ => 0);
      epoch := 0;
      total := 1;
      new;
      var i := 0;
      while i < n
        invariant 0 <= i <= n
        invariant total == Total(k, i) && epoch == 0
        invariant forall j | 0 <= j < n :: layers[j] == 0
      {
        ProductWraps(Power(k, i), k);
        total := (total * k) % U32;
        i := i + 1;
      }
      assert layers[..] == Start(k, n).states;
    }

    /** dw_advance on one layer. */
    method AdvanceLayer(i: nat) returns (ok: bool)
      requires i < layers.Length
      modifies layers
      ensures ok <==> old(layers[i]) < Radix(k) - 1
      ensures layers[..] == if ok then old(layers[..])[i := old(layers[i]) + 1] else old(layers[..])
    {
      if layers[i] >= Radix(k) - 1 { return false; }
      layers[i] := layers[i] + 1;
      ok := true;
    }

    /** The inner layers restart. */
    method Restart(from: nat)
      requires from <= layers.Length
      modifies layers
      ensures layers[..] == old(layers[..from]) + seq(layers.Length - from, _ => 0)
    {
      var j := from;
      while j < layers.Length
        invariant from <= j <= layers.Length
        invariant forall m | 0 <= m < from :: layers[m] == old(layers[m])
        invariant forall m | from <= m < j :: layers[m] == 0
      {
        layers[j] := 0;
        j := j + 1;
      }
    }

    /** dw_counter_advance */
    method Step() returns (ok: bool)
      requires Valid()
      modifies this, layers
      ensures Valid()
      ensures ok <==> Advance(old(View())).Some?
      ensures View() == if ok then Advance(old(View())).value else old(View())
    {
      if epoch >= Radix(total) - 1 { return false; }
      ghost var was := layers[..];
      var i := layers.Length;
      while i > 0
        invariant 0 <= i <= layers.Length
        invariant layers[..] == was && Valid() && epoch == old(epoch)
        invariant forall j | i <= j < layers.Length :: was[j] >= Radix(k) - 1
      {
        var moved := AdvanceLayer(i - 1);
        if moved {
          Restart(i);
          assert layers[..] == was[..i - 1] + [was[i - 1] + 1] + seq(|was| - i, _ => 0);
          TickAt(was, Radix(k), i);
          epoch := epoch + 1;
          return true;
        }
        i := i - 1;
      }
      TickNone(was, Radix(k));
      ok := false;
    }
  }

  lemma ProductWraps(a: nat, k: nat)
    ensures ((a % U32) * k) % U32 == (a * k) % U32
  {
    var q := a / U32;
    assert a == q * U32 + a % U32;
    assert a * k == (q * k) * U32 + (a % U32) * k;
    ModShift((a % U32) * k, q * k);
  }

  lemma ModShift(x: nat, q: nat)
    ensures (q * U32 + x) % U32 == x % U32
  {
  }

  lemma {:induction false} TickAt(s: seq<nat>, r: nat, i: nat)
    requires 0 < i <= |s| && r > 0
    requires s[i - 1] < r - 1 && forall j | i <= j < |s| :: s[j] >= r - 1
    ensures Tick(s, r) == Some(s[..i - 1] + [s[i - 1] + 1] + seq(|s| - i, _ => 0))
    decreases |s|
  {
    if i == |s| {
      assert s[..i - 1] + [s[i - 1] + 1] + seq(|s| - i, _ => 0) == s[..i - 1] + [s[i - 1] + 1];
    } else {
      var o := s[..|s| - 1];
      TickAt(o, r, i);
      assert o[..i - 1] == s[..i - 1];
      assert o[..i - 1] + [o[i - 1] + 1] + seq(|o| - i, _ => 0) + [0] == s[..i - 1] + [s[i - 1] + 1] + seq(|s| - i, _ => 0);
    }
  }

  lemma {:induction false} TickNone(s: seq<nat>, r: nat)
    requires r > 0 && forall j | 0 <= j < |s| :: s[j] >= r - 1
    ensures Tick(s, r) == None
    decreases |s|
  {
    if s != [] { TickNone(s[..|s| - 1], r); }
  }

  // ----- epochs are the numbers the layers spell -----

  function Value(s: seq<nat>, r: nat): (v: nat) {
    if s == [] then 0 else Value(s[..|s| - 1], r) * r + s[|s| - 1]
  }

  function Digits(v: nat, r: nat, n: nat): (s: seq<nat>)
    requires r > 0
    ensures |s| == n
    decreases n
  {
    if n == 0 then [] else Digits(v / r, r, n - 1) + [v % r]
  }

  predicate Within(s: seq<nat>, r: nat) {
    forall i | 0 <= i < |s| :: s[i] < r
  }

  lemma MulStep(a: nat, b: nat, r: nat)
    requires a < b
    ensures a * r + r <= b * r
  {
    assert (b - a) * r == b * r - a * r;
    assert (b - a - 1) * r >= 0;
  }

  lemma {:induction false} ValueBound(s: seq<nat>, r: nat)
    requires Within(s, r)
    ensures Value(s, r) < Power(r, |s|)
    decreases |s|
  {
    if s != [] {
      var o := s[..|s| - 1];
      ValueBound(o, r);
      MulStep(Value(o, r), Power(r, |o|), r);
    }
  }

  lemma {:induction false} DigitsValue(v: nat, r: nat, n: nat)
    requires r > 0 && v < Power(r, n)
    ensures Within(Digits(v, r, n), r) && Value(Digits(v, r, n), r) == v
    decreases n
  {
    if n > 0 {
      var q, p := v / r, Power(r, n - 1);
      assert v == q * r + v % r;
      if q >= p { MulLe(p, q, r); }
      DigitsValue(q, r, n - 1);
      var s := Digits(v, r, n);
      assert s[..|s| - 1] == Digits(q, r, n - 1);
    }
  }

  lemma MulLe(a: nat, b: nat, r: nat)
    requires a <= b
    ensures a * r <= b * r
  {
    if a < b { MulStep(a, b, r); }
  }

  lemma {:induction false} ValueDigits(s: seq<nat>, r: nat)
    requires r > 0 && Within(s, r)
    ensures Digits(Value(s, r), r, |s|) == s
    decreases |s|
  {
    if s != [] {
      var o, v := s[..|s| - 1], Value(s, r);
      DivUnique(v, r, Value(o, r), s[|s| - 1]);
      ValueDigits(o, r);
      assert o + [s[|s| - 1]] == s;
    }
  }

  /** One tick adds one, and is refused only at the largest number. */
  lemma {:induction false} TickAddsOne(s: seq<nat>, r: nat)
    requires r > 0 && Within(s, r)
    ensures Tick(s, r).Some? <==> Value(s, r) + 1 < Power(r, |s|)
    ensures Tick(s, r).Some? ==> Within(Tick(s, r).value, r) && Value(Tick(s, r).value, r) == Value(s, r) + 1
    decreases |s|
  {
    hide Value, Power;
    if s == [] {
      ValueNil(r);
    } else {
      var o, last := s[..|s| - 1], s[|s| - 1];
      var v, p := Value(o, r), Power(r, |o|);
      assert s == o + [last];
      ValueSnoc(o, last, r);
      ValueBound(o, r);
      MulStep(v, p, r);
      if last < r - 1 {
        ValueSnoc(o, last + 1, r);
      } else {
        TickAddsOne(o, r);
        Carry(v, p, r);
        if v + 1 < p { ValueSnoc(Tick(o, r).value, 0, r); }
      }
    }
  }

  lemma ValueNil(r: nat)
    ensures Value([], r) == 0 && Power(r, 0) == 1
  {
  }

  lemma ValueSnoc(o: seq<nat>, x: nat, r: nat)
    ensures Value(o + [x], r) == Value(o, r) * r + x && Power(r, |o + [x]|) == Power(r, |o|) * r
  {
    assert (o + [x])[..|o|] == o;
  }

  lemma Carry(v: nat, p: nat, r: nat)
    requires v < p && r > 0
    ensures (v + 1) * r == v * r + r
    ensures (v + 1) * r < p * r <==> v + 1 < p
  {
    if v + 1 < p { MulStep(v + 1, p, r); }
  }

  /** The wrapped total allows no epoch beyond the last state, and allows all of them exactly when the states number at most 2^32. */
  lemma LastEpochIs(k: u32, n: nat)
    ensures LastEpoch(k, n) < Power(Radix(k), n)
    ensures LastEpoch(k, n) == Power(Radix(k), n) - 1 <==> Power(Radix(k), n) <= U32
  {
    hide Power;
    var p := Power(Radix(k), n);
    assert Total(k, n) == p % U32 by { TotalRadix(k, n); }
    WrapSub(p);
  }

  lemma WrapSub(p: nat)
    requires p > 0
    ensures Radix(p % U32) <= p
    ensures Radix(p % U32) == p <==> p <= U32
  {
  }

  lemma TotalRadix(k: u32, n: nat)
    ensures Power(k, n) % U32 == Power(Radix(k), n) % U32
  {
    if k == 0 && n > 0 {
      ModShift(0, Power(U32, n - 1));
      assert Power(0, n) == 0;
    }
  }

  /**
  Over every run: after `e` advances the epoch is `e` and the layers spell `e`, up to the
  last epoch, where the counter stops for good.
  */
  lemma {:induction false} RunSpells(k: u32, n: nat, e: nat)
    ensures Run(Start(k, n), e) ==
            if e <= LastEpoch(k, n) then Some(Ctr(k, Digits(e, Radix(k), n), e)) else None
  {
    hide LastEpoch, Digits, Advance;
    if e == 0 {
      DigitsZero(Radix(k), n);
    } else {
      RunSpells(k, n, e - 1);
      if e - 1 <= LastEpoch(k, n) { AdvanceSpells(k, n, e - 1); }
    }
  }

  lemma AdvanceSpells(k: u32, n: nat, e: nat)
    requires e <= LastEpoch(k, n)
    ensures Advance(Ctr(k, Digits(e, Radix(k), n), e)) ==
            if e < LastEpoch(k, n) then Some(Ctr(k, Digits(e + 1, Radix(k), n), e + 1)) else None
  {
    hide LastEpoch, Digits, Tick, Value, Power;
    var r := Radix(k);
    var s := Digits(e, r, n);
    if e < LastEpoch(k, n) {
      LastEpochIs(k, n);
      DigitsValue(e, r, n);
      TickAddsOne(s, r);
      ValueDigits(Tick(s, r).value, r);
    }
  }

  lemma {:induction false} DigitsZero(r: nat, n: nat)
    requires r > 0
    ensures Digits(0, r, n) == seq(n, _ => 0)
  {
    if n > 0 {
      DigitsZero(r, n - 1);
      DivSmall(0, r);
      assert seq(n, _ => 0) == seq(n - 1, _ => 0) + [0];
    }
  }

  predicate Reached(k: u32, s: seq<nat>, e: nat) {
    Run(Start(k, |s|), e) == Some(Ctr(k, s, e))
  }

  /** A state vector occurs at one epoch at most, the number it spells. */
  lemma ReachedOnce(k: u32, s: seq<nat>, e: nat)
    requires Within(s, Radix(k))
    ensures Reached(k, s, e) <==> e == Value(s, Radix(k)) <= LastEpoch(k, |s|)
  {
    hide Run, LastEpoch, Digits, Value;
    RunSpells(k, |s|, e);
    LastEpochIs(k, |s|);
    ValueDigits(s, Radix(k));
    if e <= LastEpoch(k, |s|) { DigitsValue(e, Radix(k), |s|); }
  }

  /** Every state vector is visited exactly when the states number at most 2^32. */
  lemma AllVisited(k: u32, n: nat)
    ensures (forall s: seq<nat> | |s| == n && Within(s, Radix(k)) :: exists e :: Reached(k, s, e))
            <==> Power(Radix(k), n) <= U32
  {
    hide Reached, LastEpoch, Power, Within, Value;
    var r := Radix(k);
    var p := Power(r, n);
    LastEpochIs(k, n);
    if p <= U32 {
      forall s: seq<nat> | |s| == n && Within(s, r)
        ensures exists e :: Reached(k, s, e)
      {
        ValueBound(s, r);
        ReachedOnce(k, s, Value(s, r));
      }
    } else {
      var s := Digits(p - 1, r, n);
      DigitsValue(p - 1, r, n);
      forall e
        ensures !Reached(k, s, e)
      {
        ReachedOnce(k, s, e);
      }
    }
  }

  /** Two layers of 65537 states: some vector is never reached. */
  lemma TooManyStates()
    ensures exists s: seq<nat> :: |s| == 2 && Within(s, 65537) && forall e :: !Reached(65537, s, e)
  {
    hide Reached, Within;
    assert Power(65537, 1) == 65537;
    assert Power(65537, 2) == 4295098369;
    AllVisited(65537, 2);
  }

  // ----- the newest state confirms first -----

  function FirstDiff(a: seq<nat>, b: seq<nat>): (i: nat)
    requires |a| == |b| && a != b
    ensures i < |a| && a[..i] == b[..i] && a[i] != b[i]
    decreases |a|
  {
    if a[0] != b[0] then 0
    else
      assert a == [a[0]] + a[1..] && b == [b[0]] + b[1..];
      var i := FirstDiff(a[1..], b[1..]);
      assert a[..i + 1] == [a[0]] + a[1..][..i] && b[..i + 1] == [b[0]] + b[1..][..i];
      1 + i
  }

  /** Epochs compare as their states do, outermost layer first. */
  lemma {:induction false} ValueOrder(a: seq<nat>, b: seq<nat>, r: nat, i: nat)
    requires |a| == |b| && i < |a| && a[..i] == b[..i] && a[i] < b[i]
    requires Within(a, r) && Within(b, r)
    ensures Value(a, r) < Value(b, r)
    decreases |a|
  {
    var oa, ob := a[..|a| - 1], b[..|b| - 1];
    if i == |a| - 1 {
      assert oa == a[..i] && ob == b[..i];
    } else {
      assert oa[..i] == a[..i] && ob[..i] == b[..i];
      ValueOrder(oa, ob, r, i);
      MulStep(Value(oa, r), Value(ob, r), r);
    }
  }

  /** The highest state of a layer that some epoch reaches. */
  function TopState(k: u32, n: nat): (m: nat)
    ensures m < Radix(k) && m <= LastEpoch(k, n)
  {
    if LastEpoch(k, n) < Radix(k) then LastEpoch(k, n) else Radix(k) - 1
  }

  /**
  One state is all there is, or the step is not zero and no 16-bit wrap separates the
  delays of the states reached.
  */
  predicate DelaysFit(step: nat, k: u32, n: nat) {
    var m, top := Radix(k) - 1, TopState(k, n);
    top == 0 || (step > 0 && step * m / U16 == step * (m - top) / U16)
  }

  predicate Falls(step: nat, k: u32, i: nat, j: nat) {
    Delay(step, k, j) < Delay(step, k, i)
  }

  /** The delay `t` states before the newest. */
  lemma DelayIs(step: nat, k: u32, t: nat)
    requires t < Radix(k)
    ensures Delay(step, k, Radix(k) - 1 - t) == (step * t) % U16
  {
    assert (k as int - 1 - (Radix(k) - 1 - t)) % U32 == t;
  }

  lemma DelayFits(step: nat, k: u32, n: nat, i: nat, j: nat)
    requires DelaysFit(step, k, n) && i < j <= TopState(k, n)
    ensures Falls(step, k, i, j)
  {
    hide LastEpoch, TopState;
    var m, top := Radix(k) - 1, TopState(k, n);
    DelayIs(step, k, m - i);
    DelayIs(step, k, m - j);
    MulStep(m - j, m - i, step);
    MulLe(m - i, m, step);
    MulLe(m - top, m - j, step);
    Commute(step, m - i);
    Commute(step, m - j);
    Commute(step, m - top);
    Commute(step, m);
    SameBlock(step * (m - top), step * (m - j), step * (m - i), step * m);
  }

  lemma Commute(a: nat, b: nat)
    ensures a * b == b * a
  {
  }

  /** Between two numbers of one 16-bit block the remainders keep the order. */
  lemma SameBlock(lo: nat, a: nat, b: nat, hi: nat)
    requires lo <= a < b <= hi && lo / U16 == hi / U16
    ensures a % U16 < b % U16
  {
  }

  lemma Wraps(step: nat, x: nat)
    requires step <= x && step < U16 && (step == 0 || (x - step) / U16 < x / U16)
    ensures x % U16 <= (x - step) % U16
  {
  }

  /** Otherwise two neighbouring states have delays that do not fall. */
  lemma {:induction false} DelayRises(step: nat, k: u32, t: nat, low: nat) returns (i: nat)
    requires low < t < Radix(k) && step < U16
    requires step == 0 || step * low / U16 != step * t / U16
    ensures Radix(k) - 1 - t <= i && i + 1 <= Radix(k) - 1 - low && !Falls(step, k, i, i + 1)
    decreases t
  {
    hide Falls;
    if step == 0 || step * (t - 1) / U16 < step * t / U16 {
      i := Radix(k) - 1 - t;
      RisesAt(step, k, t);
    } else {
      BlocksGrow(step, t);
      i := DelayRises(step, k, t - 1, low);
    }
  }

  lemma RisesAt(step: nat, k: u32, t: nat)
    requires 0 < t < Radix(k) && step < U16 && (step == 0 || step * (t - 1) / U16 < step * t / U16)
    ensures !Falls(step, k, Radix(k) - 1 - t, Radix(k) - t)
  {
    hide Delay;
    DelayIs(step, k, t);
    DelayIs(step, k, t - 1);
    MulPred(step, t);
    Wraps(step, step * t);
  }

  lemma MulPred(step: nat, t: nat)
    requires t > 0
    ensures step * t == step * (t - 1) + step
  {
  }

  lemma BlocksGrow(step: nat, t: nat)
    requires t > 0
    ensures step * (t - 1) / U16 <= step * t / U16
  {
    assert step * t == step * (t - 1) + step;
    DivGrows(step * (t - 1), step);
  }

  lemma DivGrows(x: nat, step: nat)
    ensures x / U16 <= (x + step) / U16
  {
  }

  /** At the outermost layer where two epochs differ, the later one's delay is strictly smaller. */
  predicate NewerFirst(step: nat, k: u32, n: nat, e: nat, f: nat) {
    var a, b := Digits(e, Radix(k), n), Digits(f, Radix(k), n);
    a != b && Falls(step, k, a[FirstDiff(a, b)], b[FirstDiff(a, b)])
  }

  lemma {:induction false} DigitBelow(v: nat, r: nat, n: nat, i: nat)
    requires r > 0 && i < n
    ensures Digits(v, r, n)[i] <= v && Digits(v, r, n)[i] < r
    decreases n
  {
    assert v == v / r * r + v % r;
    MulLe(0, v / r, r);
    if i < n - 1 {
      DigitBelow(v / r, r, n - 1, i);
      QuotientBelow(v, r);
    }
  }

  lemma QuotientBelow(v: nat, r: nat)
    requires r > 0
    ensures v / r <= v
  {
    assert v == v / r * r + v % r;
    if r > 1 { MulStep(1, r, v / r); }
    Commute(v / r, r);
  }

  lemma LaterWins(step: nat, k: u32, n: nat, e: nat, f: nat)
    requires DelaysFit(step, k, n) && e < f <= LastEpoch(k, n)
    ensures NewerFirst(step, k, n, e, f)
  {
    hide DelaysFit, Falls, Digits, Value, Power, LastEpoch;
    var r := Radix(k);
    LastEpochIs(k, n);
    DigitsValue(e, r, n);
    DigitsValue(f, r, n);
    var a, b := Digits(e, r, n), Digits(f, r, n);
    assert Value(a, r) == e && Value(b, r) == f;
    var i := FirstDiff(a, b);
    if b[i] < a[i] { ValueOrder(b, a, r, i); }
    DigitBelow(f, r, n, i);
    DelayFits(step, k, n, a[i], b[i]);
  }

  /**
  The invalidation law over every pair of epochs the counter reaches, met exactly when the
  step is not zero and the delays of the states reached do not wrap.
  */
  lemma NewestWinsExactly(step: nat, k: u32, n: nat)
    requires step < U16
    ensures (forall e: nat, f: nat | e < f <= LastEpoch(k, n) :: NewerFirst(step, k, n, e, f)) <==> DelaysFit(step, k, n)
  {
    hide NewerFirst, Power, LastEpoch, TopState;
    if DelaysFit(step, k, n) {
      forall e: nat, f: nat | e < f <= LastEpoch(k, n)
        ensures NewerFirst(step, k, n, e, f)
      {
        LaterWins(step, k, n, e, f);
      }
    } else {
      var m, top := Radix(k) - 1, TopState(k, n);
      var i := DelayRises(step, k, m, m - top);
      NoLayers(k, n);
      Neighbours(step, k, n, i);
    }
  }

  lemma NoLayers(k: u32, n: nat)
    ensures LastEpoch(k, n) > 0 ==> n > 0
  {
  }

  /** When all states are reached, the condition is that the longest delay fits 16 bits. */
  lemma FitsWhenAllReached(step: nat, k: u32, n: nat)
    requires n > 0 && Power(Radix(k), n) <= U32
    ensures DelaysFit(step, k, n) <==> Radix(k) == 1 || (step > 0 && step * (Radix(k) - 1) < U16)
  {
    hide LastEpoch;
    LastEpochIs(k, n);
    MulLe(1, Power(Radix(k), n - 1), Radix(k));
    assert TopState(k, n) == Radix(k) - 1;
  }

  /** A thousand states of 144 blocks: some later epoch does not confirm first. */
  lemma TooManyBlocks()
    ensures exists e: nat, f: nat :: e < f <= LastEpoch(1000, 1) && !NewerFirst(144, 1000, 1, e, f)
  {
    hide NewerFirst, DelaysFit, LastEpoch;
    assert Power(1000, 1) == 1000;
    FitsWhenAllReached(144, 1000, 1);
    NewestWinsExactly(144, 1000, 1);
  }

  lemma Neighbours(step: nat, k: u32, n: nat, i: nat)
    requires n > 0 && i + 1 < Radix(k) && !Falls(step, k, i, i + 1)
    ensures !NewerFirst(step, k, n, i, i + 1)
  {
    hide Falls, Value;
    var r := Radix(k);
    DivSmall(i, r);
    DivSmall(i + 1, r);
    var o := Digits(0, r, n - 1);
    var a, b := Digits(i, r, n), Digits(i + 1, r, n);
    assert a == o + [i] && b == o + [i + 1];
    if a != b {
      var d := FirstDiff(a, b);
      assert d == n - 1;
    }
  }
}
