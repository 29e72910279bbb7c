/**
The timeout sweep (src/channel.c:1835-1853) and the watchdog over it (src/cltv_watchdog.c).
The sweep walks the list while failing an entry closes the gap behind the index, so the
entry that slides into the gap is not looked at in that pass.
*/
module ChannelTimeouts {
  import opened Bits
  import opened Channel
  import opened ChannelLaws

  // ----- what one pass leaves -----

  /** The list after one pass: an expired entry goes, and the entry behind it is passed over. */
  function Survivors(hs: seq<Htlc>, height: nat): (r: seq<Htlc>) {
    if hs == [] then []
    else if !Expired(hs[0], height) then [hs[0]] + Survivors(hs[1..], height)
    else if |hs| == 1 then []
    else [hs[1]] + Survivors(hs[2..], height)
  }

  predicate DistinctIds(hs: seq<Htlc>) {
    forall i, j | 0 <= i < j < |hs| :: hs[i].id != hs[j].id
  }

  /** Compacting a list with one settled entry closes exactly that gap. */
  lemma {:induction false} CompactOne(hs: seq<Htlc>, i: nat, done: Htlc)
    requires ShownActive(hs) && i < |hs| && done.state != Active
    ensures Compact(hs[i := done]) == hs[..i] + hs[i + 1..]
  {
    var n := |hs| - 1;
    var t, u := hs[..n], hs[i := done];
    if i < n {
      CompactOne(t, i, done);
      assert u[..n] == t[i := done];
      assert t[..i] + t[i + 1..] + [hs[n]] == hs[..i] + hs[i + 1..];
    } else {
      CompactAll(t);
      assert u[..n] == t;
    }
  }

  lemma {:induction false} CompactAll(hs: seq<Htlc>)
    requires ShownActive(hs)
    ensures Compact(hs) == hs
  {
    if hs != [] { CompactAll(hs[..|hs| - 1]); }
  }

  lemma FindDistinct(hs: seq<Htlc>, i: nat)
    requires i < |hs| && hs[i].state == Active && DistinctIds(hs)
    ensures Find(hs, hs[i].id) == i
  {
    hide Find;
    var k := Find(hs, hs[i].id);
    assert k <= i by { FindHits(hs, i); }
  }

  function Remove(hs: seq<Htlc>, j: nat): (r: seq<Htlc>)
    requires j < |hs|
    ensures |r| == |hs| - 1
  {
    hs[..j] + hs[j + 1..]
  }

  /** One pass from index `i`: an expired entry fails the first entry that carries its id. */
  function SweepList(hs: seq<Htlc>, i: nat, height: nat): (r: seq<Htlc>)
    ensures |r| <= |hs|
    decreases |hs| - i
  {
    if i >= |hs| then hs
    else if Expired(hs[i], height) then
      FindHits(hs, i);
      SweepList(Remove(hs, Find(hs, hs[i].id)), i + 1, height)
    else SweepList(hs, i + 1, height)
  }

  lemma FailAny(c: Chan, id: nat, rng: Rng)
    requires Shaped(c) && Find(c.htlcs, id) < |c.htlcs|
    ensures FailHtlc(c, id, rng).Some?
    ensures var d := FailHtlc(c, id, rng).value;
            d.htlcs == Remove(c.htlcs, Find(c.htlcs, id)) && Shaped(d) && d.lastHeight == c.lastHeight
  {
    hide Find, Compact, Store, Credit, MAX_HTLCS;
    var i := Find(c.htlcs, id);
    var done := c.htlcs[i].(state := Failed);
    CompactOne(c.htlcs, i, done);
    FailHeight(c, id, rng);
    SettleShape(c, i, c.htlcs[i].direction == Offered, done, rng);
  }

  lemma FailHeight(c: Chan, id: nat, rng: Rng)
    requires FailHtlc(c, id, rng).Some?
    ensures FailHtlc(c, id, rng).value.lastHeight == c.lastHeight
  {
    hide Compact, Store;
  }

  lemma {:induction false} SweepIs(c: Chan, i: nat, height: nat, rng: Rng)
    requires Shaped(c)
    ensures var r := SweepFrom(c, i, height, rng);
            && r.0.htlcs == SweepList(c.htlcs, i, height) && r.1 == |c.htlcs| - |r.0.htlcs|
            && Shaped(r.0) && r.0.lastHeight == c.lastHeight
    decreases |c.htlcs| - i
  {
    hide FailHtlc, Shaped, Find, Remove;
    var hs := c.htlcs;
    if i >= |hs| {
    } else if Expired(hs[i], height) {
      FindHits(hs, i);
      FailAny(c, hs[i].id, rng);
      FailShrinks(c, hs[i].id, rng);
      SweepIs(FailHtlc(c, hs[i].id, rng).value, i + 1, height, rng);
    } else {
      SweepIs(c, i + 1, height, rng);
    }
  }

  /** How many a pass removes does not depend on the ids. */
  lemma {:induction false} SweepLength(hs: seq<Htlc>, i: nat, height: nat)
    requires i <= |hs|
    ensures |hs| - |SweepList(hs, i, height)| == |hs| - i - |Survivors(hs[i..], height)|
    decreases |hs| - i
  {
    hide Find;
    if i == |hs| {
    } else if Expired(hs[i], height) {
      FindHits(hs, i);
      var d := Remove(hs, Find(hs, hs[i].id));
      if i + 1 < |hs| {
        SweepLength(d, i + 1, height);
        assert d[i + 1..] == hs[i..][2..];
      }
    } else {
      SweepLength(hs, i + 1, height);
      assert hs[i..][1..] == hs[i + 1..];
    }
  }

  lemma RemoveDistinct(hs: seq<Htlc>, k: nat)
    requires k < |hs| && DistinctIds(hs)
    ensures DistinctIds(Remove(hs, k))
  {
    var r := Remove(hs, k);
    assert forall i | 0 <= i < |r| :: r[i] == hs[if i < k then i else i + 1];
  }

  /** With distinct ids the pass leaves exactly the survivors. */
  lemma {:induction false} SweepDistinct(hs: seq<Htlc>, i: nat, height: nat)
    requires DistinctIds(hs) && i <= |hs|
    ensures SweepList(hs, i, height) == hs[..i] + Survivors(hs[i..], height)
    decreases |hs| - i
  {
    hide Find, DistinctIds;
    var n := |hs|;
    if i == n {
      assert hs[..n] + [] == hs;
    } else if Expired(hs[i], height) {
      FindDistinct(hs, i);
      RemoveDistinct(hs, i);
      var d := Remove(hs, i);
      if i + 1 < n {
        SweepDistinct(d, i + 1, height);
        assert d[..i + 1] == hs[..i] + [hs[i + 1]] && d[i + 1..] == hs[i..][2..];
        assert hs[..i] + [hs[i + 1]] + Survivors(hs[i..][2..], height) == hs[..i] + Survivors(hs[i..], height);
      } else {
        assert d == hs[..i];
      }
    } else {
      SweepDistinct(hs, i + 1, height);
      assert hs[..i + 1] == hs[..i] + [hs[i]] && hs[i..][1..] == hs[i + 1..];
    }
  }

  /**
  One pass of the sweep, whatever the ids: nothing at a height below the last one checked;
  otherwise as many entries fail as there are in the list beside its survivors, that
  number is the answer, and with distinct ids the list becomes exactly the survivors.
  */
  lemma SweepResult(c: Chan, height: nat, rng: Rng)
    requires Shaped(c)
    ensures var r := CheckTimeouts(c, height, rng);
            && (height < c.lastHeight ==> r == (c, 0))
            && (height >= c.lastHeight ==>
                  && Shaped(r.0) && r.0.lastHeight == height
                  && r.0.htlcs == SweepList(c.htlcs, 0, height)
                  && |r.0.htlcs| == |Survivors(c.htlcs, height)| && r.1 == |c.htlcs| - |r.0.htlcs|
                  && (DistinctIds(c.htlcs) ==> r.0.htlcs == Survivors(c.htlcs, height)))
  {
    hide SweepFrom, SweepList, Survivors, DistinctIds, ShownActive;
    if height >= c.lastHeight {
      SweepIs(c.(lastHeight := height), 0, height, rng);
      assert c.htlcs[0..] == c.htlcs;
      SweepLength(c.htlcs, 0, height);
      if DistinctIds(c.htlcs) {
        SweepDistinct(c.htlcs, 0, height);
        assert [] + Survivors(c.htlcs, height) == Survivors(c.htlcs, height);
      }
    }
  }

  // ----- what the survivors are -----

  function NotExpired(hs: seq<Htlc>, height: nat): (r: seq<Htlc>) {
    if hs == [] then []
    else (if Expired(hs[0], height) then [] else [hs[0]]) + NotExpired(hs[1..], height)
  }

  function ExpiredCount(hs: seq<Htlc>, height: nat): (n: nat) {
    if hs == [] then 0 else (if Expired(hs[0], height) then 1 else 0) + ExpiredCount(hs[1..], height)
  }

  predicate Subsequence(a: seq<Htlc>, b: seq<Htlc>)
    decreases |b|
  {
    a == [] || (b != [] && ((a[0] == b[0] && Subsequence(a[1..], b[1..])) || Subsequence(a, b[1..])))
  }

  /** Only expired entries are failed, and the survivors keep their order. */
  lemma {:induction false} SurvivorsKeep(hs: seq<Htlc>, height: nat)
    ensures NotExpired(Survivors(hs, height), height) == NotExpired(hs, height)
    ensures Subsequence(Survivors(hs, height), hs)
  {
    if hs == [] {
    } else if !Expired(hs[0], height) {
      SurvivorsKeep(hs[1..], height);
      ConsFacts(hs[0], Survivors(hs[1..], height));
    } else if |hs| == 1 {
    } else {
      var t := hs[2..];
      SurvivorsKeep(t, height);
      ConsFacts(hs[1], Survivors(t, height));
      assert hs[1..][1..] == t;
      assert Subsequence([hs[1]] + Survivors(t, height), hs[1..]);
    }
  }

  lemma ConsFacts(x: Htlc, t: seq<Htlc>)
    ensures ([x] + t)[0] == x && ([x] + t)[1..] == t
  {
  }

  lemma CountCons(x: Htlc, t: seq<Htlc>, height: nat)
    ensures ExpiredCount([x] + t, height) == (if Expired(x, height) then 1 else 0) + ExpiredCount(t, height)
  {
    ConsFacts(x, t);
  }

  /** Each pass at least halves the number of expired entries. */
  lemma {:induction false} SurvivorsHalve(hs: seq<Htlc>, height: nat)
    ensures 2 * ExpiredCount(Survivors(hs, height), height) <= ExpiredCount(hs, height)
  {
    hide Expired;
    if hs == [] {
    } else if !Expired(hs[0], height) {
      SurvivorsHalve(hs[1..], height);
      CountCons(hs[0], Survivors(hs[1..], height), height);
    } else if |hs| == 1 {
    } else {
      SurvivorsHalve(hs[2..], height);
      CountCons(hs[1], Survivors(hs[2..], height), height);
      assert hs[1..][1..] == hs[2..];
    }
  }

  predicate AdjacentExpired(hs: seq<Htlc>, height: nat) {
    exists i :: 0 <= i < |hs| - 1 && Expired(hs[i], height) && Expired(hs[i + 1], height)
  }

  /** One pass clears every expired entry exactly when no two of them stand side by side. */
  lemma {:induction false} OnePassSuffices(hs: seq<Htlc>, height: nat)
    ensures ExpiredCount(Survivors(hs, height), height) == 0 <==> !AdjacentExpired(hs, height)
  {
    hide Expired;
    if |hs| <= 1 {
      if hs != [] { assert hs[1..] == []; }
    } else {
      AdjacentCons(hs, height);
      if !Expired(hs[0], height) {
        OnePassSuffices(hs[1..], height);
        CountCons(hs[0], Survivors(hs[1..], height), height);
      } else {
        OnePassSuffices(hs[2..], height);
        CountCons(hs[1], Survivors(hs[2..], height), height);
        assert hs[1..][1..] == hs[2..];
        if |hs| > 2 { AdjacentCons(hs[1..], height); }
      }
    }
  }

  lemma AdjacentCons(hs: seq<Htlc>, height: nat)
    requires |hs| > 1
    ensures AdjacentExpired(hs, height) <==>
            (Expired(hs[0], height) && Expired(hs[1], height)) || AdjacentExpired(hs[1..], height)
  {
    hide Expired;
    var t := hs[1..];
    if AdjacentExpired(hs, height) {
      var i :| 0 <= i < |hs| - 1 && Expired(hs[i], height) && Expired(hs[i + 1], height);
      if i > 0 { assert Expired(t[i - 1], height) && Expired(t[i - 1 + 1], height); }
    }
    if AdjacentExpired(t, height) {
      var i :| 0 <= i < |t| - 1 && Expired(t[i], height) && Expired(t[i + 1], height);
      assert Expired(hs[i + 1], height) && Expired(hs[i + 1 + 1], height);
    }
  }

  /** Two neighbours due at the same height: the second outlives the pass. */
  lemma PassSkipsNeighbour(a: Htlc, b: Htlc, height: nat)
    requires Expired(a, height) && Expired(b, height)
    ensures Survivors([a, b], height) == [b]
  {
    assert [a, b][2..] == [];
  }

  // ----- repeating the pass -----

  function Repeat(c: Chan, height: nat, rng: Rng, n: nat): (r: Chan)
    decreases n
  {
    if n == 0 then c else Repeat(CheckTimeouts(c, height, rng).0, height, rng, n - 1)
  }

  /** No expired entry shares its id with an unexpired one before it. */
  predicate IdsSafe(hs: seq<Htlc>, height: nat) {
    forall j, i | 0 <= j < i < |hs| :: Expired(hs[i], height) && hs[j].id == hs[i].id ==> Expired(hs[j], height)
  }

  lemma {:induction false} RemoveOne(hs: seq<Htlc>, j: nat, height: nat)
    requires j < |hs|
    ensures ExpiredCount(Remove(hs, j), height) == ExpiredCount(hs, height) - if Expired(hs[j], height) then 1 else 0
    ensures |NotExpired(Remove(hs, j), height)| == |NotExpired(hs, height)| - if Expired(hs[j], height) then 0 else 1
    ensures Expired(hs[j], height) ==> NotExpired(Remove(hs, j), height) == NotExpired(hs, height)
    decreases j
  {
    hide Expired;
    var r := Remove(hs, j);
    if j == 0 {
      assert r == hs[1..];
    } else {
      RemoveOne(hs[1..], j - 1, height);
      assert r[0] == hs[0] && r[1..] == Remove(hs[1..], j - 1);
    }
  }

  lemma RemoveSafe(hs: seq<Htlc>, k: nat, height: nat)
    requires k < |hs| && IdsSafe(hs, height)
    ensures IdsSafe(Remove(hs, k), height)
  {
    hide Expired;
    var r := Remove(hs, k);
    assert forall i | 0 <= i < |r| :: r[i] == hs[if i < k then i else i + 1];
  }

  /** Under that condition a pass fails only expired entries. */
  lemma {:induction false} SweepSafe(hs: seq<Htlc>, i: nat, height: nat)
    requires IdsSafe(hs, height)
    ensures var r := SweepList(hs, i, height);
            && NotExpired(r, height) == NotExpired(hs, height) && IdsSafe(r, height)
            && ExpiredCount(r, height) == ExpiredCount(hs, height) - (|hs| - |r|)
    decreases |hs| - i
  {
    hide Find, Remove, NotExpired, ExpiredCount, IdsSafe;
    if i >= |hs| {
    } else if Expired(hs[i], height) {
      FindHits(hs, i);
      var j := Find(hs, hs[i].id);
      assert Expired(hs[j], height) by { SafeFirst(hs, j, i, height); }
      RemoveOne(hs, j, height);
      RemoveSafe(hs, j, height);
      SweepSafe(Remove(hs, j), i + 1, height);
    } else {
      SweepSafe(hs, i + 1, height);
    }
  }

  lemma SafeFirst(hs: seq<Htlc>, j: nat, i: nat, height: nat)
    requires IdsSafe(hs, height) && j <= i < |hs| && hs[j].id == hs[i].id && Expired(hs[i], height)
    ensures Expired(hs[j], height)
  {
  }

  /** Without it the unsafe pair stays until an unexpired entry is failed. */
  lemma {:induction false} SweepUnsafe(hs: seq<Htlc>, i: nat, height: nat)
    requires ShownActive(hs)
    ensures var r := SweepList(hs, i, height);
            && |NotExpired(r, height)| <= |NotExpired(hs, height)|
            && (!IdsSafe(hs, height) && |NotExpired(r, height)| == |NotExpired(hs, height)| ==> !IdsSafe(r, height))
    decreases |hs| - i
  {
    hide Find, NotExpired, ExpiredCount, IdsSafe;
    if i >= |hs| {
    } else if Expired(hs[i], height) {
      FindHits(hs, i);
      var j := Find(hs, hs[i].id);
      RemoveOne(hs, j, height);
      if Expired(hs[j], height) && !IdsSafe(hs, height) { PairStays(hs, j, height); }
      SweepUnsafe(Remove(hs, j), i + 1, height);
    } else {
      SweepUnsafe(hs, i + 1, height);
    }
  }

  lemma PairStays(hs: seq<Htlc>, f: nat, height: nat)
    requires ShownActive(hs) && f < |hs| && Expired(hs[f], height) && Find(hs, hs[f].id) == f && !IdsSafe(hs, height)
    ensures !IdsSafe(Remove(hs, f), height)
  {
    hide Find, Expired;
    var j, k :| 0 <= j < k < |hs| && Expired(hs[k], height) && hs[j].id == hs[k].id && !Expired(hs[j], height);
    var r := Remove(hs, f);
    assert hs[j].state == Active && f != k && f != j;
    var a, b := if j < f then j else j - 1, if k < f then k else k - 1;
    assert r[a] == hs[j] && r[b] == hs[k];
  }

  lemma {:induction false} SurvivorsShrink(hs: seq<Htlc>, height: nat)
    ensures |Survivors(hs, height)| <= |hs|
    ensures ExpiredCount(hs, height) > 0 ==> |Survivors(hs, height)| < |hs|
    ensures 2 * (|hs| - |Survivors(hs, height)|) >= ExpiredCount(hs, height)
  {
    if hs == [] {
    } else if !Expired(hs[0], height) {
      SurvivorsShrink(hs[1..], height);
    } else if |hs| > 1 {
      SurvivorsShrink(hs[2..], height);
      assert hs[1..][1..] == hs[2..];
    }
  }

  lemma {:induction false} UnsafeHasExpired(hs: seq<Htlc>, i: nat, height: nat)
    requires i < |hs| && Expired(hs[i], height)
    ensures ExpiredCount(hs, height) > 0
    decreases i
  {
    if i > 0 { UnsafeHasExpired(hs[1..], i - 1, height); }
  }

  /** As many passes as there are binary digits in the number of expired entries clear them all. */
  lemma {:induction false} RepeatClears(c: Chan, height: nat, rng: Rng, n: nat)
    requires Shaped(c) && IdsSafe(c.htlcs, height) && height >= c.lastHeight
    ensures NotExpired(Repeat(c, height, rng, n).htlcs, height) == NotExpired(c.htlcs, height)
    ensures ExpiredCount(c.htlcs, height) < Pow2(n) ==> ExpiredCount(Repeat(c, height, rng, n).htlcs, height) == 0
    decreases n
  {
    hide Shaped, IdsSafe, CheckTimeouts, Survivors, ExpiredCount, NotExpired, SweepList;
    if n > 0 {
      SweepResult(c, height, rng);
      SweepSafe(c.htlcs, 0, height);
      SurvivorsShrink(c.htlcs, height);
      RepeatClears(CheckTimeouts(c, height, rng).0, height, rng, n - 1);
    }
  }

  lemma {:induction false} RepeatUnsafe(c: Chan, height: nat, rng: Rng, n: nat)
    requires Shaped(c) && height >= c.lastHeight
    ensures var r := Repeat(c, height, rng, n).htlcs;
            && |NotExpired(r, height)| <= |NotExpired(c.htlcs, height)|
            && (!IdsSafe(c.htlcs, height) && |NotExpired(r, height)| == |NotExpired(c.htlcs, height)| ==>
                  !IdsSafe(r, height) && |r| + n <= |c.htlcs|)
    decreases n
  {
    hide CheckTimeouts, Survivors, ExpiredCount, NotExpired, SweepList, IdsSafe, ShownActive;
    if n > 0 {
      SweepResult(c, height, rng);
      SweepUnsafe(c.htlcs, 0, height);
      if !IdsSafe(c.htlcs, height) {
        UnsafeExpires(c.htlcs, height);
        SurvivorsShrink(c.htlcs, height);
      }
      RepeatUnsafe(CheckTimeouts(c, height, rng).0, height, rng, n - 1);
    }
  }

  lemma UnsafeExpires(hs: seq<Htlc>, height: nat)
    requires !IdsSafe(hs, height)
    ensures ExpiredCount(hs, height) > 0
  {
    hide ExpiredCount, Expired;
    var j, i :| 0 <= j < i < |hs| && Expired(hs[i], height) && hs[j].id == hs[i].id && !Expired(hs[j], height);
    UnsafeHasExpired(hs, i, height);
  }

  /** However often the pass is repeated it fails only expired entries, exactly when no expired entry shares its id with an unexpired one before it. */
  lemma OnlyExpiredExactly(c: Chan, height: nat, rng: Rng)
    requires Shaped(c) && height >= c.lastHeight
    ensures IdsSafe(c.htlcs, height) <==>
            forall n :: NotExpired(Repeat(c, height, rng, n).htlcs, height) == NotExpired(c.htlcs, height)
  {
    hide Shaped, NotExpired, Repeat;
    if IdsSafe(c.htlcs, height) {
      forall n
        ensures NotExpired(Repeat(c, height, rng, n).htlcs, height) == NotExpired(c.htlcs, height)
      {
        RepeatClears(c, height, rng, n);
      }
    } else {
      RepeatUnsafe(c, height, rng, |c.htlcs|);
    }
  }

  // ----- one pass, whatever the ids -----

  /** The ids a pass strikes, one for each expired entry it looks at; it looks past the entry behind each. */
  function Struck(hs: seq<Htlc>, height: nat): (m: multiset<nat>) {
    if hs == [] then multiset{}
    else if !Expired(hs[0], height) then Struck(hs[1..], height)
    else multiset{hs[0].id} + if |hs| == 1 then multiset{} else Struck(hs[2..], height)
  }

  /** Each id in `m` strikes the first entry that carries it. */
  function Strike(hs: seq<Htlc>, m: multiset<nat>): (r: seq<Htlc>)
    ensures |r| <= |hs|
  {
    if hs == [] then []
    else if hs[0].id in m then Strike(hs[1..], m - multiset{hs[0].id})
    else [hs[0]] + Strike(hs[1..], m)
  }

  lemma {:induction false} StrikeFirst(hs: seq<Htlc>, k: nat, m: multiset<nat>)
    requires k < |hs| && forall j | 0 <= j < k :: hs[j].id != hs[k].id
    ensures Strike(hs, multiset{hs[k].id} + m) == Strike(Remove(hs, k), m)
    decreases k
  {
    var x, y, t, r := hs[k].id, hs[0].id, hs[1..], Remove(hs, k);
    if k == 0 {
      assert r == t && multiset{x} + m - multiset{x} == m;
    } else {
      assert r[0] == hs[0] && r[1..] == Remove(t, k - 1) && y != x;
      assert y in multiset{x} + m <==> y in m;
      if y in m {
        assert multiset{x} + m - multiset{y} == multiset{x} + (m - multiset{y});
        StrikeFirst(t, k - 1, m - multiset{y});
      } else {
        StrikeFirst(t, k - 1, m);
      }
    }
  }

  lemma {:induction false} StrikeNone(hs: seq<Htlc>)
    ensures Strike(hs, multiset{}) == hs
  {
    if hs != [] { StrikeNone(hs[1..]); }
  }

  /** A pass leaves exactly what striking those ids leaves. */
  lemma {:induction false} SweepStrikes(hs: seq<Htlc>, i: nat, height: nat)
    requires ShownActive(hs) && i <= |hs|
    ensures SweepList(hs, i, height) == Strike(hs, Struck(hs[i..], height))
    decreases |hs| - i
  {
    hide Find, Strike;
    if i == |hs| {
      StrikeNone(hs);
    } else if Expired(hs[i], height) {
      FindHits(hs, i);
      var k := Find(hs, hs[i].id);
      var d := Remove(hs, k);
      var rest := if i + 1 == |hs| then multiset{} else Struck(hs[i..][2..], height);
      StrikeFirst(hs, k, rest);
      if i + 1 < |hs| {
        SweepStrikes(d, i + 1, height);
        assert d[i + 1..] == hs[i..][2..];
      } else {
        StrikeNone(d);
      }
    } else {
      SweepStrikes(hs, i + 1, height);
      assert hs[i..][1..] == hs[i + 1..];
    }
  }

  function Carrying(hs: seq<Htlc>, id: nat): (n: nat) {
    if hs == [] then 0 else (if hs[0].id == id then 1 else 0) + Carrying(hs[1..], id)
  }

  /** Before each unexpired entry stand as many with its id as the ids strike. */
  predicate Spared(hs: seq<Htlc>, m: multiset<nat>, height: nat) {
    forall j | 0 <= j < |hs| && !Expired(hs[j], height) :: m[hs[j].id] <= Carrying(hs[..j], hs[j].id)
  }

  lemma SparedTail(hs: seq<Htlc>, m: multiset<nat>, height: nat)
    requires hs != []
    ensures hs[0].id in m ==>
              (Spared(hs, m, height) <==> Expired(hs[0], height) && Spared(hs[1..], m - multiset{hs[0].id}, height))
    ensures hs[0].id !in m ==> (Spared(hs, m, height) <==> Spared(hs[1..], m, height))
  {
    hide Expired;
    var t, x := hs[1..], hs[0].id;
    var rest := if x in m then m - multiset{x} else m;
    assert forall y :: rest[y] == if y == x && x in m then m[y] - 1 else m[y];
    assert Carrying(hs[..0], x) == 0;
    forall j | 1 <= j < |hs|
      ensures Carrying(hs[..j], hs[j].id) == (if hs[j].id == x then 1 else 0) + Carrying(t[..j - 1], hs[j].id)
      ensures t[j - 1] == hs[j]
    {
      assert hs[..j][1..] == t[..j - 1];
    }
    if Spared(hs, m, height) {
      forall i | 0 <= i < |t| && !Expired(t[i], height)
        ensures rest[t[i].id] <= Carrying(t[..i], t[i].id)
      {
        assert hs[i + 1] == t[i];
      }
    }
  }

  lemma {:induction false} StrikeExactly(hs: seq<Htlc>, m: multiset<nat>, height: nat)
    ensures |NotExpired(Strike(hs, m), height)| <= |NotExpired(hs, height)|
    ensures NotExpired(Strike(hs, m), height) == NotExpired(hs, height) <==> Spared(hs, m, height)
  {
    hide Expired, Spared, NotExpired;
    if hs == [] {
      assert Spared(hs, m, height) by { SparedNone(m, height); }
    } else {
      var h, t := hs[0], hs[1..];
      assert hs == [h] + t;
      NotExpiredCons(h, t, height);
      SparedTail(hs, m, height);
      if h.id in m {
        StrikeExactly(t, m - multiset{h.id}, height);
      } else {
        StrikeExactly(t, m, height);
        NotExpiredCons(h, Strike(t, m), height);
        ConsEqual(h, NotExpired(Strike(t, m), height), NotExpired(t, height));
      }
    }
  }

  lemma NotExpiredCons(x: Htlc, t: seq<Htlc>, height: nat)
    ensures NotExpired([x] + t, height) == if Expired(x, height) then NotExpired(t, height) else [x] + NotExpired(t, height)
  {
    ConsFacts(x, t);
  }

  lemma ConsEqual(x: Htlc, a: seq<Htlc>, b: seq<Htlc>)
    ensures [x] + a == [x] + b <==> a == b
  {
    ConsFacts(x, a);
    ConsFacts(x, b);
  }

  lemma SparedNone(m: multiset<nat>, height: nat)
    ensures Spared([], m, height)
  {
  }

  /** One call fails only expired entries exactly when before each unexpired entry stand as many with its id as the pass strikes. */
  lemma OnePassExactly(c: Chan, height: nat, rng: Rng)
    requires Shaped(c) && height >= c.lastHeight
    ensures NotExpired(CheckTimeouts(c, height, rng).0.htlcs, height) == NotExpired(c.htlcs, height) <==>
            Spared(c.htlcs, Struck(c.htlcs, height), height)
  {
    hide CheckTimeouts, SweepList, Survivors, DistinctIds, NotExpired, Spared, Strike, Struck;
    SweepResult(c, height, rng);
    SweepStrikes(c.htlcs, 0, height);
    assert c.htlcs[0..] == c.htlcs;
    StrikeExactly(c.htlcs, Struck(c.htlcs, height), height);
  }

  /** Two entries with one id off the wire, the second expired: the pass fails the first and keeps the second. */
  lemma SharedIdMisfires(a: Htlc, b: Htlc)
    requires a.state == Active && b.state == Active && a.id == b.id && a.cltv == 0 && b.cltv == 5
    ensures SweepList([a, b], 0, 5) == [b]
  {
    hide Find;
    var hs := [a, b];
    FindHits(hs, 0);
    assert Find(hs, hs[1].id) == 0;
    assert Remove(hs, 0) == [b];
    assert SweepList(hs, 0, 5) == SweepList(hs, 1, 5) == SweepList([b], 2, 5);
  }

  lemma DistinctSafe(hs: seq<Htlc>, height: nat)
    requires DistinctIds(hs)
    ensures IdsSafe(hs, height)
  {
  }

  // ----- ids -----

  /** Locally assigned ids increase along the list, so they are distinct. */
  predicate IdsOrdered(c: Chan) {
    && (forall i, j | 0 <= i < j < |c.htlcs| :: c.htlcs[i].id < c.htlcs[j].id)
    && (forall i | 0 <= i < |c.htlcs| :: c.htlcs[i].id < c.nextId)
  }

  lemma SettleIds(c: Chan, i: nat, toLocal: bool, done: Htlc, rng: Rng)
    requires Shaped(c) && IdsOrdered(c) && i < |c.htlcs| && done.state != Active
    ensures IdsOrdered(Settle(c, i, toLocal, done, rng)) && Settle(c, i, toLocal, done, rng).nextId == c.nextId
  {
    hide Store, Compact, Credit, ShownActive;
    CompactOne(c.htlcs, i, done);
    CreditIds(c, toLocal, c.htlcs[i].amount, c.htlcs[i].fee);
    RemoveOrdered(c.htlcs, i, c.nextId);
  }

  lemma CreditIds(c: Chan, toLocal: bool, amount: nat, fee: nat)
    ensures Credit(Credit(c, toLocal, amount), c.funderIsLocal, fee).nextId == c.nextId
  {
  }

  lemma RemoveOrdered(hs: seq<Htlc>, k: nat, bound: nat)
    requires k < |hs|
    requires forall i, j | 0 <= i < j < |hs| :: hs[i].id < hs[j].id
    requires forall i | 0 <= i < |hs| :: hs[i].id < bound
    ensures var r := hs[..k] + hs[k + 1..];
            && (forall i, j | 0 <= i < j < |r| :: r[i].id < r[j].id)
            && (forall i | 0 <= i < |r| :: r[i].id < bound)
  {
    var r := hs[..k] + hs[k + 1..];
    assert forall i | 0 <= i < |r| :: r[i] == hs[if i < k then i else i + 1];
  }

  lemma AddIds(c: Chan, dir: Direction, amount: nat, hash: Digest, cltv: nat, rng: Rng)
    requires IdsOrdered(c) && c.nextId + 1 < U64 && AddHtlc(c, dir, amount, hash, cltv, rng).Some?
    ensures var d := AddHtlc(c, dir, amount, hash, cltv, rng).value; IdsOrdered(d) && d.nextId == c.nextId + 1
  {
    hide Store, HtlcFee;
  }

  lemma {:induction false} SweepIds(c: Chan, i: nat, height: nat, rng: Rng)
    requires Shaped(c) && IdsOrdered(c)
    ensures var d := SweepFrom(c, i, height, rng).0; IdsOrdered(d) && d.nextId == c.nextId
    decreases |c.htlcs| - i
  {
    hide Settle, Shaped, IdsOrdered, Find;
    if i >= |c.htlcs| {
    } else if Expired(c.htlcs[i], height) {
      FindHits(c.htlcs, i);
      var k := Find(c.htlcs, c.htlcs[i].id);
      var done := c.htlcs[k].(state := Failed);
      FailAny(c, c.htlcs[i].id, rng);
      FailShrinks(c, c.htlcs[i].id, rng);
      SettleIds(c, k, c.htlcs[k].direction == Offered, done, rng);
      SweepIds(FailHtlc(c, c.htlcs[i].id, rng).value, i + 1, height, rng);
    } else {
      SweepIds(c, i + 1, height, rng);
    }
  }

  /** Every operation but an add off the wire keeps the ids in order and takes at most one new one. */
  lemma IdsStep(c: Chan, op: Op, rng: Rng)
    requires Shaped(c) && IdsOrdered(c) && c.nextId + 1 < U64 && !op.AddFromWire?
    ensures var d := Apply(c, op, rng); IdsOrdered(d) && DistinctIds(d.htlcs) && c.nextId <= d.nextId <= c.nextId + 1
  {
    hide Store, Settle, AddHtlc, Shaped, SweepFrom, Find;
    if Attempt(c, op, rng).Some? {
      match op
      case Add(dir, amount, hash, cltv) => AddIds(c, dir, amount, hash, cltv, rng);
      case Fulfill(id, preimage) =>
        var i := Find(c.htlcs, id);
        SettleIds(c, i, c.htlcs[i].direction == Received, c.htlcs[i].(state := Fulfilled, preimage := preimage), rng);
      case Fail(id) =>
        var i := Find(c.htlcs, id);
        SettleIds(c, i, c.htlcs[i].direction == Offered, c.htlcs[i].(state := Failed), rng);
      case Timeouts(height) =>
        var d := c.(lastHeight := height);
        assert Shaped(d) by { HeightShaped(c, height); }
        if height >= c.lastHeight { SweepIds(d, 0, height, rng); }
      case _ =>
    }
  }

  lemma HeightShaped(c: Chan, height: nat)
    requires Shaped(c)
    ensures Shaped(c.(lastHeight := height))
  {
  }

  /** Over every run without adds off the wire the ids stay distinct, as long as they do not run out. */
  lemma {:induction false} RunIds(c: Chan, steps: seq<Step>)
    requires Shaped(c) && IdsOrdered(c) && c.nextId + |steps| < U64
    requires forall i | 0 <= i < |steps| :: !steps[i].op.AddFromWire?
    ensures IdsOrdered(Run(c, steps)) && DistinctIds(Run(c, steps).htlcs)
    decreases |steps|
  {
    hide Apply, Shaped;
    if steps != [] {
      hide IdsOrdered, DistinctIds;
      IdsStep(c, steps[0].op, steps[0].rng);
      ShapeStep(c, steps[0].op, steps[0].rng);
      RunIds(Apply(c, steps[0].op, steps[0].rng), steps[1..]);
    }
  }

  /**
  After every run without adds off the wire, as many passes as there are binary digits in
  the number of expired entries clear exactly those.
  */
  lemma RunClears(c: Chan, steps: seq<Step>, height: nat, rng: Rng, n: nat)
    requires Shaped(c) && IdsOrdered(c) && c.nextId + |steps| < U64 && height >= Run(c, steps).lastHeight
    requires forall i | 0 <= i < |steps| :: !steps[i].op.AddFromWire?
    ensures var d := Run(c, steps);
            && NotExpired(Repeat(d, height, rng, n).htlcs, height) == NotExpired(d.htlcs, height)
            && (ExpiredCount(d.htlcs, height) < Pow2(n) ==> ExpiredCount(Repeat(d, height, rng, n).htlcs, height) == 0)
  {
    hide Shaped, IdsOrdered, Run, Repeat, NotExpired, ExpiredCount;
    RunShape(c, steps);
    RunIds(c, steps);
    DistinctSafe(Run(c, steps).htlcs, height);
    RepeatClears(Run(c, steps), height, rng, n);
  }

  // ----- the watchdog -----

  predicate Due(h: Htlc, threshold: nat) {
    h.state == Active && h.direction == Received && 0 < h.cltv <= threshold
  }

  function DueCount(hs: seq<Htlc>, threshold: nat): (n: nat) {
    if hs == [] then 0 else DueCount(hs[..|hs| - 1], threshold) + if Due(hs[|hs| - 1], threshold) then 1 else 0
  }

  function Earliest(hs: seq<Htlc>): (e: nat)
    ensures e < U32
  {
    if hs == [] then U32 - 1
    else
      var e, h := Earliest(hs[..|hs| - 1]), hs[|hs| - 1];
      if h.state == Active && h.direction == Received && h.cltv != 0 && h.cltv < e then h.cltv else e
  }

  /** A received HTLC is due exactly when the earliest expiry has been reached, and the watchdog sees it. */
  lemma {:induction false} WatchdogAgrees(hs: seq<Htlc>, threshold: nat)
    ensures threshold < U32 - 1 ==> (DueCount(hs, threshold) > 0 <==> Earliest(hs) <= threshold)
    ensures DueCount(hs, threshold) > 0 <==> exists i :: 0 <= i < |hs| && Due(hs[i], threshold)
  {
    if hs != [] {
      var t, x := hs[..|hs| - 1], hs[|hs| - 1];
      WatchdogAgrees(t, threshold);
      assert forall i | 0 <= i < |t| :: t[i] == hs[i];
      if exists i :: 0 <= i < |hs| && Due(hs[i], threshold) {
        var i :| 0 <= i < |hs| && Due(hs[i], threshold);
        assert i < |t| ==> Due(t[i], threshold);
      }
      if DueCount(t, threshold) > 0 {
        var i :| 0 <= i < |t| && Due(t[i], threshold);
        assert Due(hs[i], threshold);
      }
    }
  }

  /** A quiet watchdog means no received HTLC is expired at any height up to the threshold. */
  lemma QuietMeansSafe(hs: seq<Htlc>, threshold: nat, height: nat, i: nat)
    requires DueCount(hs, threshold) == 0 && height <= threshold
    requires i < |hs| && hs[i].direction == Received
    ensures !Expired(hs[i], height)
  {
    WatchdogAgrees(hs, threshold);
    assert !Due(hs[i], threshold);
  }
}
