/** The three acts of the BOLT #8 handshake, Noise_XK (src/bolt8.c:132-405). */
module Handshake {
  import opened Bits
  import opened Wrappers
  import opened NoiseTerms

  datatype Hs = Hs(h: Term, ck: Term, tempK: Term, rePub: Term, ePriv: nat)
  datatype Act = Act(version: byte, key: Term, tag: Term)
  datatype Act3 = Act3(version: byte, c: Term, t: Term)
  datatype Keys = Keys(sk: Term, rk: Term, ck: Term, sn: nat, rn: nat)

  function MixHash(h: Term, data: Term): (r: Term) {
    HashPair(h, data)
  }

  /** bolt8_hs_init: both ends start from the responder's static key. */
  function Init(rsPub: Term): (hs: Hs) {
    var ck := Sha(Text("Noise_XK_secp256k1_ChaChaPoly_SHA256"));
    Hs(MixHash(MixHash(ck, Text("lightning")), rsPub), ck, EMPTY, EMPTY, 0)
  }

  /** Mix an ephemeral key and a shared secret into the state, ready for the tag. */
  function Mixed(hs: Hs, ePub: Term, secret: Term): (r: Hs) {
    hs.(h := MixHash(hs.h, ePub), ck := HkdfCk(hs.ck, secret), tempK := HkdfK(hs.ck, secret))
  }

  function TagOf(hs: Hs): (t: Term) {
    Aead(hs.tempK, 0, hs.h, EMPTY)
  }

  datatype Sent<M> = Sent(hs: Hs, msg: M)

  /** Acts 1 and 2 as their writer builds them: own ephemeral key against the peer's key. */
  function WriteAct(hs: Hs, ePriv: nat, peer: Term): (r: Option<Sent<Act>>) {
    match Ecdh(ePriv, peer)
    case None => None
    case Some(secret) =>
      var m := Mixed(hs, Pub(ePriv), secret);
      var c := TagOf(m);
      Some(Sent(m.(h := MixHash(m.h, c), ePriv := ePriv), Act(0, Pub(ePriv), c)))
  }

  /** Acts 1 and 2 as their reader checks them. */
  function ReadAct(hs: Hs, msg: Act, priv: nat): (r: Option<Hs>) {
    if msg.version != 0 then None
    else match Ecdh(priv, msg.key)
      case None => None
      case Some(secret) =>
        var m := Mixed(hs, msg.key, secret);
        if Open(m.tempK, 0, m.h, msg.tag) != Some(EMPTY) then None
        else Some(m.(h := MixHash(m.h, msg.tag), rePub := msg.key))
  }

  datatype Finished<M> = Finished(hs: Hs, msg: M, keys: Keys)

  function WriteAct3(hs: Hs, sPriv: nat): (r: Option<Finished<Act3>>) {
    var c := Aead(hs.tempK, 1, hs.h, Pub(sPriv));
    match Ecdh(sPriv, hs.rePub)
    case None => None
    case Some(secret) =>
      var m := hs.(h := MixHash(hs.h, c), ck := HkdfCk(hs.ck, secret), tempK := HkdfK(hs.ck, secret));
      Some(Finished(m, Act3(0, c, TagOf(m)), Keys(HkdfCk(m.ck, EMPTY), HkdfK(m.ck, EMPTY), m.ck, 0, 0)))
  }

  /** The reader also learns the initiator's static key. */
  function ReadAct3(hs: Hs, msg: Act3): (r: Option<Finished<Term>>) {
    if msg.version != 0 then None
    else match Open(hs.tempK, 1, hs.h, msg.c)
      case None => None
      case Some(iPub) =>
        match Ecdh(hs.ePriv, iPub)
        case None => None
        case Some(secret) =>
          var m := hs.(h := MixHash(hs.h, msg.c), ck := HkdfCk(hs.ck, secret), tempK := HkdfK(hs.ck, secret));
          if Open(m.tempK, 0, m.h, msg.t) != Some(EMPTY) then None
          else Some(Finished(m, iPub, Keys(HkdfK(m.ck, EMPTY), HkdfCk(m.ck, EMPTY), m.ck, 0, 0)))
  }

  // ----- what a refusal leaves -----

  function WriteActRefused(hs: Hs, ePriv: nat): (r: Hs) {
    hs.(h := MixHash(hs.h, Pub(ePriv)))
  }

  /** Nothing has changed if the version is wrong or the key does not parse; a bad tag is found after mixing. */
  function ReadActRefused(hs: Hs, msg: Act, priv: nat): (r: Hs) {
    if msg.version != 0 || Ecdh(priv, msg.key).None? then hs else Mixed(hs, msg.key, Ecdh(priv, msg.key).value)
  }

  function WriteAct3Refused(hs: Hs, sPriv: nat): (r: Hs) {
    hs.(h := MixHash(hs.h, Aead(hs.tempK, 1, hs.h, Pub(sPriv))))
  }

  function ReadAct3Refused(hs: Hs, msg: Act3): (r: Hs) {
    if msg.version != 0 then hs
    else match Open(hs.tempK, 1, hs.h, msg.c)
      case None => hs
      case Some(iPub) =>
        var m := hs.(h := MixHash(hs.h, msg.c));
        match Ecdh(hs.ePriv, iPub)
        case None => m
        case Some(secret) => m.(ck := HkdfCk(hs.ck, secret), tempK := HkdfK(hs.ck, secret))
  }

  // ----- the code -----

  /** bolt8_hs_t and its operations; `secure_zero` at the end of act 3 is not modelled. */
  class State {
    var h: Term
    var ck: Term
    var tempK: Term
    var rePub: Term
    var ePriv: nat

    function View(): (v: Hs)
      reads this
    {
      Hs(h, ck, tempK, rePub, ePriv)
    }

    constructor (rsPub: Term)
      ensures View() == Init(rsPub)
    {
      var name := Sha(Text("Noise_XK_secp256k1_ChaChaPoly_SHA256"));
      ck := name;
      h := MixHash(MixHash(name, Text("lightning")), rsPub);
      tempK, rePub, ePriv := EMPTY, EMPTY, 0;
    }

    /** dh_and_mix. */
    method DhAndMix(pub: Term, priv: nat) returns (ok: bool)
      modifies `ck, `tempK
      ensures ok == Ecdh(priv, pub).Some?
      ensures ok ==> var s := Ecdh(priv, pub).value; ck == HkdfCk(old(ck), s) && tempK == HkdfK(old(ck), s)
      ensures !ok ==> ck == old(ck) && tempK == old(tempK)
    {
      var shared := Ecdh(priv, pub);
      if shared.None? { return false; }
      ck, tempK := HkdfCk(ck, shared.value), HkdfK(ck, shared.value);
      ok := true;
    }

    /** bolt8_act1_create (peer is the responder's static key) and bolt8_act2_create (peer is rePub). */
    method CreateAct(e: nat, peer: Term) returns (msg: Option<Act>)
      modifies this
      ensures msg.Some? == WriteAct(old(View()), e, peer).Some?
      ensures msg.Some? ==> WriteAct(old(View()), e, peer).value == Sent(View(), msg.value)
      ensures msg.None? ==> View() == WriteActRefused(old(View()), e)
    {
      h := MixHash(h, Pub(e));
      var ok := DhAndMix(peer, e);
      if !ok { return None; }
      var c := Aead(tempK, 0, h, EMPTY);
      h := MixHash(h, c);
      ePriv := e;
      msg := Some(Act(0, Pub(e), c));
    }

    /** bolt8_act1_process (own static key) and bolt8_act2_process (own ephemeral key). */
    method ProcessAct(msg: Act, priv: nat) returns (ok: bool)
      modifies this
      ensures ok == ReadAct(old(View()), msg, priv).Some?
      ensures ok ==> View() == ReadAct(old(View()), msg, priv).value
      ensures !ok ==> View() == ReadActRefused(old(View()), msg, priv)
    {
      if msg.version != 0 { return false; }
      if !msg.key.Pub? { return false; }
      h := MixHash(h, msg.key);
      ok := DhAndMix(msg.key, priv);
      if !ok { return; }
      if Open(tempK, 0, h, msg.tag) != Some(EMPTY) { return false; }
      h := MixHash(h, msg.tag);
      rePub := msg.key;
    }

    /** bolt8_act3_create. */
    method CreateAct3(s: nat) returns (r: Option<(Act3, Keys)>)
      modifies this
      ensures r.Some? == WriteAct3(old(View()), s).Some?
      ensures r.Some? ==> WriteAct3(old(View()), s).value == Finished(View(), r.value.0, r.value.1)
      ensures r.None? ==> View() == WriteAct3Refused(old(View()), s)
    {
      var c := Aead(tempK, 1, h, Pub(s));
      h := MixHash(h, c);
      var ok := DhAndMix(rePub, s);
      if !ok { return None; }
      var t := Aead(tempK, 0, h, EMPTY);
      r := Some((Act3(0, c, t), Keys(HkdfCk(ck, EMPTY), HkdfK(ck, EMPTY), ck, 0, 0)));
    }

    /** bolt8_act3_process. */
    method ProcessAct3(msg: Act3) returns (r: Option<(Term, Keys)>)
      modifies this
      ensures r.Some? == ReadAct3(old(View()), msg).Some?
      ensures r.Some? ==> ReadAct3(old(View()), msg).value == Finished(View(), r.value.0, r.value.1)
      ensures r.None? ==> View() == ReadAct3Refused(old(View()), msg)
    {
      if msg.version != 0 { return None; }
      var iPub := Open(tempK, 1, h, msg.c);
      if iPub.None? { return None; }
      h := MixHash(h, msg.c);
      var ok := DhAndMix(iPub.value, ePriv);
      if !ok { return None; }
      if Open(tempK, 0, h, msg.t) != Some(EMPTY) { return None; }
      r := Some((iPub.value, Keys(HkdfK(ck, EMPTY), HkdfCk(ck, EMPTY), ck, 0, 0)));
    }
  }

  // ----- agreement -----

  /** The states of the two ends agree on everything both are meant to know. */
  ghost predicate Agree(a: Hs, b: Hs) {
    a.h == b.h && a.ck == b.ck && a.tempK == b.tempK
  }

  /** The handshake as far as act 2, for given keys: (initiator, responder). */
  function AfterAct2(ie: nat, rs: nat, re: nat): (r: Option<(Hs, Hs)>) {
    match WriteAct(Init(Pub(rs)), ie, Pub(rs))
    case None => None
    case Some(one) =>
      match ReadAct(Init(Pub(rs)), one.msg, rs)
      case None => None
      case Some(r1) =>
        match WriteAct(r1, re, r1.rePub)
        case None => None
        case Some(two) =>
          match ReadAct(one.hs, two.msg, one.hs.ePriv)
          case None => None
          case Some(i2) => Some((i2, two.hs))
  }

  lemma Act1Agrees(ie: nat, rs: nat)
    ensures var one := WriteAct(Init(Pub(rs)), ie, Pub(rs));
            && one.Some? && ReadAct(Init(Pub(rs)), one.value.msg, rs).Some?
            && var r1 := ReadAct(Init(Pub(rs)), one.value.msg, rs).value;
               Agree(one.value.hs, r1) && r1.rePub == Pub(ie) && one.value.hs.ePriv == ie
  {
  }

  lemma Act2Agrees(ie: nat, rs: nat, re: nat)
    ensures var r := AfterAct2(ie, rs, re);
            r.Some? && Agree(r.value.0, r.value.1)
            && r.value.0.rePub == Pub(re) && r.value.0.ePriv == ie && r.value.1.ePriv == re
  {
    Act1Agrees(ie, rs);
  }

  /**
  For all static and ephemeral keys the honest handshake completes: both ends agree on
  hash, chaining key and temporary key after every act, the responder learns the
  initiator's static key, and each end sends with the key the other receives with.
  */
  lemma HonestHandshake(iS: nat, ie: nat, rs: nat, re: nat)
    ensures AfterAct2(ie, rs, re).Some?
    ensures var (i2, r2) := AfterAct2(ie, rs, re).value;
            && Agree(i2, r2)
            && WriteAct3(i2, iS).Some? && ReadAct3(r2, WriteAct3(i2, iS).value.msg).Some?
            && var i, r := WriteAct3(i2, iS).value, ReadAct3(r2, WriteAct3(i2, iS).value.msg).value;
               && Agree(i.hs, r.hs) && r.msg == Pub(iS)
               && i.keys.sk == r.keys.rk && i.keys.rk == r.keys.sk && i.keys.sk != i.keys.rk
               && i.keys.ck == r.keys.ck && i.keys.sn == i.keys.rn == r.keys.sn == r.keys.rn == 0
  {
    Act2Agrees(ie, rs, re);
  }

  // ----- what is accepted -----

  /** Acts 1 and 2 accept exactly the messages a writer in an agreeing state could have made. */
  lemma ActAcceptsExactly(hs: Hs, w: Hs, msg: Act, priv: nat)
    requires Agree(hs, w)
    ensures ReadAct(hs, msg, priv).Some? <==>
            exists e :: WriteAct(w, e, Pub(priv)).Some? && WriteAct(w, e, Pub(priv)).value.msg == msg
  {
    if ReadAct(hs, msg, priv).Some? {
      var e := msg.key.id;
      assert WriteAct(w, e, Pub(priv)).value.msg == msg;
    }
  }

  /** Act 3 accepts exactly what the peer of act 2 makes with some static key, and reports that key. */
  lemma Act3AcceptsExactly(i2: Hs, r2: Hs, msg: Act3)
    requires Agree(i2, r2) && i2.rePub == Pub(r2.ePriv)
    ensures ReadAct3(r2, msg).Some? <==> exists s :: WriteAct3(i2, s).Some? && WriteAct3(i2, s).value.msg == msg
    ensures ReadAct3(r2, msg).Some? ==>
              var iPub := ReadAct3(r2, msg).value.msg;
              iPub.Pub? && WriteAct3(i2, iPub.id).Some? && WriteAct3(i2, iPub.id).value.msg == msg
  {
    if ReadAct3(r2, msg).Some? {
      var iPub := ReadAct3(r2, msg).value.msg;
      assert WriteAct3(i2, iPub.id).value.msg == msg;
    }
  }

  /** After refusing some act 1, a responder can still take an honest one exactly when the refusal came before the mixing. */
  lemma RetryExactly(ie: nat, rs: nat, bad: Act)
    requires ReadAct(Init(Pub(rs)), bad, rs).None?
    ensures var one := WriteAct(Init(Pub(rs)), ie, Pub(rs));
            && one.Some?
            && (ReadAct(ReadActRefused(Init(Pub(rs)), bad, rs), one.value.msg, rs).Some? <==> bad.version != 0 || !bad.key.Pub?)
  {
    var hs := Init(Pub(rs));
    var spoilt := ReadActRefused(hs, bad, rs);
    Act1Agrees(ie, rs);
    assert bad.version == 0 && bad.key.Pub? ==> spoilt.ck.HkdfCk? && !hs.ck.HkdfCk?;
  }

  /** An initiator that expects another static key is refused at act 1, and only such a one. */
  lemma WrongResponderRefused(ie: nat, expected: nat, rs: nat)
    ensures var one := WriteAct(Init(Pub(expected)), ie, Pub(expected));
            one.Some? && (ReadAct(Init(Pub(rs)), one.value.msg, rs).Some? <==> expected == rs)
  {
    var a, b := Init(Pub(expected)), Init(Pub(rs));
    assert a.h == b.h ==> expected == rs;
  }

  // ----- the transcript -----

  /** Everything hashed so far, oldest first. */
  function Transcript(start: Term, items: seq<Term>): (h: Term) {
    if items == [] then start else HashPair(Transcript(start, items[..|items| - 1]), items[|items| - 1])
  }

  function Secret(a: nat, b: nat): (t: Term) {
    if a <= b then Shared(a, b) else Shared(b, a)
  }

  /** Chaining keys and temporary keys of BOLT #8: name, then ephemeral-static, ephemeral-ephemeral, static-ephemeral. */
  function Ck(name: Term, secrets: seq<Term>): (t: Term) {
    if secrets == [] then name else HkdfCk(Ck(name, secrets[..|secrets| - 1]), secrets[|secrets| - 1])
  }

  lemma TranscriptNext(start: Term, items: seq<Term>, x: Term)
    ensures Transcript(start, items + [x]) == HashPair(Transcript(start, items), x)
  {
    assert (items + [x])[..|items|] == items;
  }

  lemma CkNext(name: Term, secrets: seq<Term>, x: Term)
    ensures Ck(name, secrets + [x]) == HkdfCk(Ck(name, secrets), x)
  {
    assert (secrets + [x])[..|secrets|] == secrets;
  }

  /** The prologue and the responder's key open the transcript. */
  lemma Act1Transcript(ie: nat, rs: nat, start: Term, t1: Term)
    requires start == Sha(Text("Noise_XK_secp256k1_ChaChaPoly_SHA256"))
    requires t1 == Aead(HkdfK(start, Secret(ie, rs)), 0, Transcript(start, [Text("lightning"), Pub(rs), Pub(ie)]), EMPTY)
    ensures var one := WriteAct(Init(Pub(rs)), ie, Pub(rs));
            && one.Some? && one.value.msg == Act(0, Pub(ie), t1)
            && one.value.hs.h == Transcript(start, [Text("lightning"), Pub(rs), Pub(ie), t1])
            && one.value.hs.ck == Ck(start, [Secret(ie, rs)])
  {
    hide Transcript, Ck;
    FirstItems(start, Text("lightning"), Pub(rs), Pub(ie), t1);
    FirstSecret(start, Secret(ie, rs));
  }

  lemma FirstItems(start: Term, a: Term, b: Term, c: Term, d: Term)
    ensures Transcript(start, [a, b, c]) == HashPair(HashPair(HashPair(start, a), b), c)
    ensures Transcript(start, [a, b, c, d]) == HashPair(HashPair(HashPair(HashPair(start, a), b), c), d)
  {
    assert Transcript(start, []) == start;
    hide Transcript;
    TranscriptNext(start, [], a);
    TranscriptNext(start, [a], b);
    TranscriptNext(start, [a, b], c);
    TranscriptNext(start, [a, b, c], d);
    assert [] + [a] == [a] && [a] + [b] == [a, b] && [a, b] + [c] == [a, b, c] && [a, b, c] + [d] == [a, b, c, d];
  }

  lemma FirstSecret(name: Term, s: Term)
    ensures Ck(name, [s]) == HkdfCk(name, s)
  {
    assert [s][..0] == [];
  }

  /** Act 2, from any state the responder may be in. */
  lemma Act2Transcript(hs: Hs, ie: nat, re: nat, start: Term, items: seq<Term>, secrets: seq<Term>, t2: Term)
    requires hs.h == Transcript(start, items) && hs.ck == Ck(start, secrets)
    requires t2 == Aead(HkdfK(Ck(start, secrets), Secret(ie, re)), 0, Transcript(start, items + [Pub(re)]), EMPTY)
    ensures var two := WriteAct(hs, re, Pub(ie));
            && two.Some? && two.value.msg == Act(0, Pub(re), t2)
            && two.value.hs.h == Transcript(start, items + [Pub(re)] + [t2])
            && two.value.hs.ck == Ck(start, secrets + [Secret(ie, re)])
            && two.value.hs.tempK == HkdfK(Ck(start, secrets), Secret(ie, re))
  {
    TranscriptNext(start, items, Pub(re));
    TranscriptNext(start, items + [Pub(re)], t2);
    CkNext(start, secrets, Secret(ie, re));
  }

  /** Act 3, likewise from the initiator's. */
  lemma Act3Transcript(hs: Hs, iS: nat, re: nat, start: Term, items: seq<Term>, secrets: seq<Term>, c: Term)
    requires hs.h == Transcript(start, items) && hs.ck == Ck(start, secrets) && hs.rePub == Pub(re)
    requires c == Aead(hs.tempK, 1, hs.h, Pub(iS))
    ensures var fin := WriteAct3(hs, iS);
            var ck := Ck(start, secrets + [Secret(iS, re)]);
            && fin.Some? && fin.value.hs.h == Transcript(start, items + [c]) && fin.value.hs.ck == ck
            && fin.value.msg == Act3(0, c, Aead(HkdfK(Ck(start, secrets), Secret(iS, re)), 0, Transcript(start, items + [c]), EMPTY))
            && fin.value.keys == Keys(HkdfCk(ck, EMPTY), HkdfK(ck, EMPTY), ck, 0, 0)
  {
    TranscriptNext(start, items, c);
    CkNext(start, secrets, Secret(iS, re));
  }

  /**
  For all keys, what an honest handshake hashes and mixes, in the order of BOLT #8: the
  protocol name, "lightning", the responder's static key, the initiator's ephemeral key and
  the tag of act 1, the responder's ephemeral key and the tag of act 2, the encrypted
  static key of act 3.  The chaining key takes the three shared secrets, and the initiator
  sends with the first half of its last expansion.
  */
  lemma WholeTranscript(iS: nat, ie: nat, rs: nat, re: nat)
    ensures AfterAct2(ie, rs, re).Some?
    ensures var start := Sha(Text("Noise_XK_secp256k1_ChaChaPoly_SHA256"));
            var es, ee, se := Secret(ie, rs), Secret(ie, re), Secret(iS, re);
            var items1 := [Text("lightning"), Pub(rs), Pub(ie)];
            var t1 := Aead(HkdfK(start, es), 0, Transcript(start, items1), EMPTY);
            var items2 := items1 + [t1] + [Pub(re)];
            var k2 := HkdfK(HkdfCk(start, es), ee);
            var t2 := Aead(k2, 0, Transcript(start, items2), EMPTY);
            var items3 := items2 + [t2];
            var c3 := Aead(k2, 1, Transcript(start, items3), Pub(iS));
            var h, ck := Transcript(start, items3 + [c3]), HkdfCk(HkdfCk(HkdfCk(start, es), ee), se);
            var fin := WriteAct3(AfterAct2(ie, rs, re).value.0, iS);
            && fin.Some? && fin.value.hs.h == h && fin.value.hs.ck == ck
            && fin.value.msg == Act3(0, c3, Aead(HkdfK(HkdfCk(HkdfCk(start, es), ee), se), 0, h, EMPTY))
            && fin.value.keys == Keys(HkdfCk(ck, EMPTY), HkdfK(ck, EMPTY), ck, 0, 0)
  {
    hide WriteAct, ReadAct, WriteAct3, Transcript, Ck;
    var start, es, ee, se := Sha(Text("Noise_XK_secp256k1_ChaChaPoly_SHA256")), Secret(ie, rs), Secret(ie, re), Secret(iS, re);
    var items1 := [Text("lightning"), Pub(rs), Pub(ie)];
    var t1 := Aead(HkdfK(start, es), 0, Transcript(start, items1), EMPTY);
    assert items1 + [t1] == [Text("lightning"), Pub(rs), Pub(ie), t1];
    var items2 := items1 + [t1] + [Pub(re)];
    var t2 := Aead(HkdfK(HkdfCk(start, es), ee), 0, Transcript(start, items2), EMPTY);
    Act1Transcript(ie, rs, start, t1);
    Act1Agrees(ie, rs);
    FirstSecret(start, es);
    assert [es] + [ee] == [es, ee] && [es, ee] + [se] == [es, ee, se];
    CkNext(start, [es], ee);
    CkNext(start, [es, ee], se);
    var one := WriteAct(Init(Pub(rs)), ie, Pub(rs)).value;
    var r1 := ReadAct(Init(Pub(rs)), one.msg, rs).value;
    Act2Transcript(r1, ie, re, start, items1 + [t1], [es], t2);
    Act2Agrees(ie, rs, re);
    var i2 := AfterAct2(ie, rs, re).value.0;
    Act3Transcript(i2, iS, re, start, items2 + [t2], [es, ee], Aead(i2.tempK, 1, i2.h, Pub(iS)));
  }
}
