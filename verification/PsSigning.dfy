/**
The client's defence against signing two spends of one pseudo-Spilman parent
(src/client.c:3646-3661, 3881-3948 and 4071-4090, 4227-4258): look the parent up, sign,
record, and only then release.  Memory is lost at a crash; the database is not.
*/
module PsSigning {
  /** The txid whose output 0 the new transaction spends. */
  type Parent = nat
  type Sighash = nat

  /** How far one invocation of the handler gets: failures, crashes and peers that go away all stop it somewhere. */
  datatype Stop = BeforeCheck | BeforeRecord | AfterRecord | Never

  /**
  One invocation, of the stateless or the legacy handler, on a pseudo-Spilman leaf whose
  chain has begun, with the outcomes it meets on the way.  A lookup that cannot be made
  counts as no row; a row that cannot be written is not noticed.
  */
  datatype Request = Request(parent: Parent, sighash: Sighash, stop: Stop, readOk: bool, sighashOk: bool, writeOk: bool)

  /** What survives: whether a database is attached, its rows, and every signature ever sent. */
  datatype Store = Store(attached: bool, rows: map<Parent, Sighash>, released: seq<Parent>)

  function Handle(s: Store, r: Request): (t: Store) {
    if r.stop == BeforeCheck || (s.attached && r.readOk && r.parent in s.rows) || r.stop == BeforeRecord then s
    else
      var rows := if s.attached && r.sighashOk && r.writeOk then s.rows[r.parent := r.sighash] else s.rows;
      if r.stop == AfterRecord then s.(rows := rows) else s.(rows := rows, released := s.released + [r.parent])
  }

  function Run(s: Store, rs: seq<Request>): (t: Store)
    decreases |rs|
  {
    if rs == [] then s else Run(Handle(s, rs[0]), rs[1..])
  }

  /** client_handle_leaf_advance and its stateless variant: same steps, same order. */
  class Client {
    var attached: bool
    var rows: map<Parent, Sighash>
    ghost var released: seq<Parent>

    ghost function View(): (s: Store)
      reads this
    {
      Store(attached, rows, released)
    }

    /** persist_check_ps_signed_input, called only when a database is attached. */
    method Lookup(p: Parent, readOk: bool) returns (already: bool)
      ensures already <==> attached && readOk && p in rows
    {
      already := attached && readOk && p in rows;
    }

    /** persist_save_ps_signed_input: insert or replace. */
    method Save(p: Parent, sighash: Sighash, writeOk: bool)
      modifies `rows
      ensures rows == if writeOk then old(rows)[p := sighash] else old(rows)
    {
      if writeOk { rows := rows[p := sighash]; }
    }

    /** Sends the signature, after which it is public whatever the send reports. */
    method Release(p: Parent)
      modifies `released
      ensures released == old(released) + [p]
    {
      released := released + [p];
    }

    method LeafAdvance(r: Request) returns (ok: bool)
      modifies this
      ensures View() == Handle(old(View()), r)
      ensures ok ==> |released| == |old(released)| + 1
    {
      if r.stop == BeforeCheck { return false; }
      var already := Lookup(r.parent, r.readOk);
      if already { return false; }
      if r.stop == BeforeRecord { return false; }
      if attached {
        if r.sighashOk {
          Save(r.parent, r.sighash, r.writeOk);
        }
      }
      if r.stop == AfterRecord { return false; }
      Release(r.parent);
      ok := true;
    }
  }

  // ----- at most one signature -----

  function Count(log: seq<Parent>, p: Parent): (n: nat) {
    if log == [] then 0 else Count(log[..|log| - 1], p) + if log[|log| - 1] == p then 1 else 0
  }

  lemma CountAppend(log: seq<Parent>, x: Parent, p: Parent)
    ensures Count(log + [x], p) == Count(log, p) + if x == p then 1 else 0
  {
    assert (log + [x])[..|log|] == log;
  }

  /** A request harms `p` not at all: it is about another parent, stops before release, or the database does its part. */
  predicate Guard(r: Request, p: Parent) {
    r.parent != p || r.stop != Never || (r.readOk && r.sighashOk && r.writeOk)
  }

  predicate Guarded(rs: seq<Request>, p: Parent) {
    forall i | 0 <= i < |rs| :: Guard(rs[i], p)
  }

  /** A database is attached, and a parent signed for is in it. */
  predicate Covered(s: Store, p: Parent) {
    s.attached && (Count(s.released, p) > 0 ==> p in s.rows)
  }

  predicate Safe(s: Store, p: Parent) {
    Covered(s, p) && Count(s.released, p) <= 1
  }

  function AtLeastOne(n: nat): (r: nat) {
    if n > 1 then n else 1
  }

  lemma CoveredStep(s: Store, r: Request, p: Parent)
    requires Covered(s, p) && Guard(r, p)
    ensures Covered(Handle(s, r), p) && Count(Handle(s, r).released, p) <= AtLeastOne(Count(s.released, p))
  {
    hide Count;
    CountAppend(s.released, r.parent, p);
  }

  lemma {:induction false} CoveredRun(s: Store, rs: seq<Request>, p: Parent)
    requires Covered(s, p) && Guarded(rs, p)
    ensures Covered(Run(s, rs), p) && Count(Run(s, rs).released, p) <= AtLeastOne(Count(s.released, p))
    decreases |rs|
  {
    hide Covered, Handle, Guard, Count;
    if rs != [] {
      CoveredStep(s, rs[0], p);
      CoveredRun(Handle(s, rs[0]), rs[1..], p);
    }
  }

  /**
  From an empty log, over every run of proposals on either path, stopped or crashed
  anywhere, at most one signature for a parent is ever released.  The database has to do
  its part only in the requests that get as far as releasing one for it.
  */
  lemma AtMostOneSignature(rows: map<Parent, Sighash>, rs: seq<Request>, p: Parent)
    requires Guarded(rs, p)
    ensures Count(Run(Store(true, rows, []), rs).released, p) <= 1
  {
    CoveredRun(Store(true, rows, []), rs, p);
  }

  /** Exactly the guarded requests keep every safe state safe. */
  lemma RequestExactly(r: Request, p: Parent)
    ensures Guard(r, p) <==> forall s :: Safe(s, p) ==> Safe(Handle(s, r), p)
  {
    hide Count;
    if Guard(r, p) {
      forall s | Safe(s, p)
        ensures Safe(Handle(s, r), p)
      {
        CoveredStep(s, r, p);
      }
    } else {
      CountNil(p);
      CountAppend([], p, p);
      CountAppend([] + [p], p, p);
      assert [] + [p] == [p];
      var none, one := Store(true, map[], []), Store(true, map[p := 0], [p]);
      assert Safe(none, p) && Safe(one, p);
      assert !Safe(Handle(if r.readOk then none else one, r), p);
    }
  }

  /** And exactly they cannot be made twice to release two signatures. */
  lemma TwiceExactly(r: Request, p: Parent)
    ensures Guard(r, p) <==> Count(Run(Store(true, map[], []), [r, r]).released, p) <= 1
  {
    hide Count;
    var s := Store(true, map[], []);
    Two(s, r, r);
    CountNil(p);
    CountAppend([], r.parent, p);
    CountAppend([] + [r.parent], r.parent, p);
    assert [] + [r.parent] == [r.parent];
  }

  /** A recorded parent is never signed for again, even if its signature was never sent. */
  lemma {:induction false} RecordedIsFinal(s: Store, rs: seq<Request>, p: Parent)
    requires s.attached && p in s.rows
    requires forall i | 0 <= i < |rs| :: rs[i].parent != p || rs[i].stop != Never || rs[i].readOk
    ensures Run(s, rs).attached && p in Run(s, rs).rows && Count(Run(s, rs).released, p) == Count(s.released, p)
    decreases |rs|
  {
    hide Count;
    if rs != [] {
      CountAppend(s.released, rs[0].parent, p);
      RecordedIsFinal(Handle(s, rs[0]), rs[1..], p);
    }
  }

  /** A proposal that goes all the way through. */
  function Through(p: Parent): (r: Request) {
    Request(p, 0, Never, true, true, true)
  }

  lemma Two(s: Store, a: Request, b: Request)
    ensures Run(s, [a, b]) == Handle(Handle(s, a), b)
    ensures Run(s, [a]) == Handle(s, a)
  {
    hide Handle;
    assert [a, b][1..] == [b] && [b][1..] == [] && [a][1..] == [];
    assert Run(Handle(s, a), [b]) == Run(Handle(Handle(s, a), b), []);
  }

  /**
  Exactly when a state guarantees that guarded requests release no second signature: a
  database is attached, and if a signature was released, its row is there.  The handler
  releases even when the row could not be written, so the row can be missing.
  */
  lemma SafeExactly(s: Store, p: Parent)
    ensures Covered(s, p) <==>
            forall rs :: Guarded(rs, p) ==> Count(Run(s, rs).released, p) <= AtLeastOne(Count(s.released, p))
  {
    if Covered(s, p) {
      forall rs | Guarded(rs, p)
        ensures Count(Run(s, rs).released, p) <= AtLeastOne(Count(s.released, p))
      {
        CoveredRun(s, rs, p);
      }
    } else {
      var rs := OneTooMany(s, p);
      assert Guarded(rs, p) && Count(Run(s, rs).released, p) > AtLeastOne(Count(s.released, p));
    }
  }

  lemma OneTooMany(s: Store, p: Parent) returns (rs: seq<Request>)
    requires !Covered(s, p)
    ensures Guarded(rs, p) && Count(Run(s, rs).released, p) > AtLeastOne(Count(s.released, p))
  {
    hide Count;
    var r := Through(p);
    Two(s, r, r);
    CountAppend(s.released, p, p);
    CountAppend(s.released + [p], p, p);
    rs := if s.attached then [r] else [r, r];
  }

  /** One lost row write is enough: the same parent is signed for twice. */
  lemma LostWriteSignsTwice(p: Parent)
    ensures Count(Run(Store(true, map[], []), [Through(p).(writeOk := false), Through(p)]).released, p) == 2
  {
    hide Count;
    var s := Store(true, map[], []);
    Two(s, Through(p).(writeOk := false), Through(p));
    CountAppend([], p, p);
    CountAppend([] + [p], p, p);
    assert Count([], p) == 0 by { CountNil(p); }
    assert [] + [p] == [p];
  }

  /** So is one lookup the database could not answer. */
  lemma LostReadSignsTwice(p: Parent)
    ensures Count(Run(Store(true, map[], []), [Through(p), Through(p).(readOk := false)]).released, p) == 2
  {
    hide Count;
    var s := Store(true, map[], []);
    Two(s, Through(p), Through(p).(readOk := false));
    CountAppend([], p, p);
    CountAppend([] + [p], p, p);
    CountNil(p);
    assert [] + [p] == [p];
  }

  lemma CountNil(p: Parent)
    ensures Count([], p) == 0
  {
  }

  // ----- and one, unless something stops it -----

  /** The database answers and stores whatever is asked about `p`. */
  predicate Working(rs: seq<Request>, p: Parent) {
    forall i | 0 <= i < |rs| :: rs[i].parent == p ==> rs[i].readOk && rs[i].sighashOk && rs[i].writeOk
  }

  /** The first request for `p` that gets past the check goes all the way. */
  predicate FirstGoesThrough(rs: seq<Request>, p: Parent) {
    rs != [] &&
    if rs[0].parent != p || rs[0].stop == BeforeCheck || rs[0].stop == BeforeRecord then FirstGoesThrough(rs[1..], p)
    else rs[0].stop == Never
  }

  /**
  With a working database and no row for the parent yet, a run releases exactly one
  signature for it if the first request past the check is not stopped, and none otherwise:
  a stop between record and release loses the signature for good.
  */
  lemma {:induction false} SignedExactly(s: Store, rs: seq<Request>, p: Parent)
    requires s.attached && p !in s.rows && Working(rs, p)
    ensures Count(Run(s, rs).released, p) == Count(s.released, p) + if FirstGoesThrough(rs, p) then 1 else 0
    decreases |rs|
  {
    hide Count;
    if rs != [] {
      var r, t := rs[0], Handle(s, rs[0]);
      CountAppend(s.released, r.parent, p);
      if r.parent == p && (r.stop == AfterRecord || r.stop == Never) {
        RecordedIsFinal(t, rs[1..], p);
      } else {
        SignedExactly(t, rs[1..], p);
      }
    }
  }
}
