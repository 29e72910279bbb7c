/**
Cryptography as a free term algebra.  Keys are names; a shared secret is an unordered
pair of them; hashes, derived keys and ciphertexts are constructors, so that two
results are equal exactly when they were built the same way.
*/
module NoiseTerms {
  import opened Bits
  import opened Wrappers

  datatype Term =
    | Bytes(bytes: seq<byte>)
    | Text(text: string)
    | Pub(id: nat)
    | Sha(data: Term)
    | HashPair(left: Term, right: Term)
    | Shared(lo: nat, hi: nat)
    | HkdfCk(ck: Term, ikm: Term)
    | HkdfK(ck: Term, ikm: Term)
    | Aead(key: Term, nonce: nat, aad: Term, plain: Term)

  const EMPTY: Term := Bytes([])

  /** ECDH of a private key with a serialised public key; nothing when it does not parse. */
  function Ecdh(priv: nat, pub: Term): (r: Option<Term>) {
    if pub.Pub? then Some(if priv <= pub.id then Shared(priv, pub.id) else Shared(pub.id, priv)) else None
  }

  function Open(key: Term, nonce: nat, aad: Term, c: Term): (r: Option<Term>) {
    if c.Aead? && c.key == key && c.nonce == nonce && c.aad == aad then Some(c.plain) else None
  }

  function Size(t: Term): (n: nat) {
    match t
    case Sha(d) => 1 + Size(d)
    case HashPair(l, r) => 1 + Size(l) + Size(r)
    case HkdfCk(c, i) => 1 + Size(c) + Size(i)
    case HkdfK(c, i) => 1 + Size(c) + Size(i)
    case Aead(k, _, a, p) => 1 + Size(k) + Size(a) + Size(p)
    case _ => 1
  }
}
