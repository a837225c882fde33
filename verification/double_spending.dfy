/** Double-spending primitives: public parameters (src/params.rs), the records of
    src/double_spending/{serial_number,tag,message}.rs, serial-number and tag
    generation (src/double_spending/secret_key.rs) and the pairing checks that
    verify them (src/double_spending/public_key.rs). */
module DoubleSpending {
  import opened Groups

  datatype Params = Params(g1: G1, g: G2, g2: G1, h1: G1, h2: G1)

  datatype SecretKey = SecretKey(sk: Scalar)
  datatype PublicKey = PublicKey(pk: G2)

  datatype SerialNumber = SerialNumber(m: G1, n: G1)
  datatype SerialNumberProof = SerialNumberProof(snPf: G2)
  datatype Tag = Tag(a: G1, b: G1)
  datatype TagProof = TagProof(tPf: G2)
  datatype Message = Message(m: G1, n: G2)
  datatype DetectionProof = DetectionProof(ax: G1, mx: G1, tx: G2)

  /** The serial number for nonce n: (n·g1, (sk + n)·g2). */
  function SerialFor(params: Params, key: SecretKey, n: Scalar): SerialNumber {
    SerialNumber(n * params.g1, (key.sk + n) * params.g2)
  }

  /** The first serial number and the two messages the bank signs:
      (n·g1, n·g) and (sk·g1, sk·g). */
  function InitSerialNumber(params: Params, key: SecretKey, n: Scalar): (SerialNumber, (Message, Message)) {
    (SerialFor(params, key, n),
     (Message(n * params.g1, n * params.g), Message(key.sk * params.g1, key.sk * params.g)))
  }

  /** A serial number and its proof of well-formedness n·g. */
  function GenerateSerialNumber(params: Params, key: SecretKey, n: Scalar): (SerialNumber, SerialNumberProof) {
    (SerialFor(params, key, n), SerialNumberProof(n * params.g))
  }

  /** The double-spending tag A = sk·sn.m + n·h1, B = sk·sn.n + n·h2 and its proof n·g. */
  function GenerateTag(params: Params, key: SecretKey, n: Scalar, sn: SerialNumber): (Tag, TagProof) {
    (Tag(key.sk * sn.m + n * params.h1, key.sk * sn.n + n * params.h2), TagProof(n * params.g))
  }

  /** The guilt relation e(ax, g) = e(mx, pk) + e(hx, tx) for one of h1, h2. */
  predicate GuiltEquation(params: Params, pk: PublicKey, ax: G1, mx: G1, hx: G1, tx: G2) {
    Pair(ax, params.g) == Pair(mx, pk.pk) + Pair(hx, tx)
  }

  function VerifyGuilt(params: Params, key: PublicKey, proof: DetectionProof): (ok: bool)
    ensures ok <==> (|| GuiltEquation(params, key, proof.ax, proof.mx, params.h1, proof.tx)
                     || GuiltEquation(params, key, proof.ax, proof.mx, params.h2, proof.tx))
  {
    var lhs := Pair(proof.ax, params.g);
    var rhs0 := Pair(proof.mx, key.pk);
    lhs == rhs0 + Pair(params.h1, proof.tx) || lhs == rhs0 + Pair(params.h2, proof.tx)
  }

  /** Five checks in order; the first that fails makes the answer false.  Accepted
      exactly when e(M, g) = e(g1, N0), e(N, g) = e(g2, N0 + pk), N1 = pk, and each
      message (Mi, Ni) satisfies e(Mi, g) = e(g1, Ni). */
  function VerifyFirstSerialNumber(params: Params, key: PublicKey, sn: SerialNumber, msgs: (Message, Message))
    : (ok: bool)
    ensures ok <==>
      && Pair(sn.m, params.g) == Pair(params.g1, msgs.0.n)
      && Pair(sn.n, params.g) == Pair(params.g2, msgs.0.n + key.pk)
      && msgs.1.n == key.pk
      && Pair(msgs.0.m, params.g) == Pair(params.g1, msgs.0.n)
      && Pair(msgs.1.m, params.g) == Pair(params.g1, msgs.1.n)
  {
    if Pair(sn.m, params.g) + Pair(-params.g1, msgs.0.n) != 0 then false
    else if Pair(sn.n, params.g) + Pair(-params.g2, msgs.0.n) + Pair(-params.g2, key.pk) != 0 then false
    else if msgs.1.n != key.pk then false
    else if Pair(msgs.0.m, params.g) - Pair(params.g1, msgs.0.n) != 0 then false
    else if Pair(msgs.1.m, params.g) - Pair(params.g1, msgs.1.n) != 0 then false
    else true
  }

  /** Two checks in order.  Accepted exactly when e(M, g) = e(g1, π) and
      e(N, g) = e(g2, π + pk) for the proof π. */
  function VerifySerialNumber(params: Params, key: PublicKey, sn: SerialNumber, proof: SerialNumberProof)
    : (ok: bool)
    ensures ok <==>
      && Pair(sn.m, params.g) == Pair(params.g1, proof.snPf)
      && Pair(sn.n, params.g) == Pair(params.g2, proof.snPf + key.pk)
  {
    if Pair(sn.m, params.g) + Pair(-params.g1, proof.snPf) != 0 then false
    else if Pair(sn.n, params.g) + Pair(-params.g2, proof.snPf) + Pair(-params.g2, key.pk) != 0 then false
    else true
  }

  /** Three checks in order.  Accepted exactly when e(M, g) = e(g1, π),
      e(A, g) = e(M_d, pk) + e(h1, π) and e(B, g) = e(N_d, pk) + e(h2, π) for the
      proof π. */
  function VerifyTag(params: Params, key: PublicKey, sn: SerialNumber, snD: SerialNumber, tag: Tag, proof: TagProof)
    : (ok: bool)
    ensures ok <==>
      && Pair(sn.m, params.g) == Pair(params.g1, proof.tPf)
      && Pair(tag.a, params.g) == Pair(snD.m, key.pk) + Pair(params.h1, proof.tPf)
      && Pair(tag.b, params.g) == Pair(snD.n, key.pk) + Pair(params.h2, proof.tPf)
  {
    if Pair(sn.m, params.g) + Pair(-params.g1, proof.tPf) != 0 then false
    else if Pair(tag.a, -params.g) + Pair(snD.m, key.pk) + Pair(params.h1, proof.tPf) != 0 then false
    else if Pair(tag.b, -params.g) + Pair(snD.n, key.pk) + Pair(params.h2, proof.tPf) != 0 then false
    else true
  }

  /** Both serial-number generators give the same serial number for the same key and nonce. */
  lemma InitAndGenerateAgree(params: Params, key: SecretKey, n: Scalar)
    ensures InitSerialNumber(params, key, n).0 == GenerateSerialNumber(params, key, n).0
    ensures InitSerialNumber(params, key, n).0 == SerialNumber(n * params.g1, (key.sk + n) * params.g2)
  {
  }

  lemma MulSwap(a: int, b: int, c: int)
    ensures (a * b) * c == b * (a * c)
  {
  }

  /** Completeness of the first-serial-number check: the output of InitSerialNumber is
      accepted under pk = sk·g. */
  lemma VerifyFirstSerialNumberComplete(params: Params, key: SecretKey, pk: PublicKey, n: Scalar)
    requires pk.pk == key.sk * params.g
    ensures VerifyFirstSerialNumber(params, pk, InitSerialNumber(params, key, n).0, InitSerialNumber(params, key, n).1)
  {
    var (g1, g, g2) := (params.g1, params.g, params.g2);
    MulSwap(n, g1, g);
    MulSwap(key.sk, g1, g);
    assert (key.sk + n) * g2 * g == g2 * (n * g) + g2 * (key.sk * g);
  }

  /** Completeness of the serial-number check: the output of GenerateSerialNumber is
      accepted under pk = sk·g. */
  lemma VerifySerialNumberComplete(params: Params, key: SecretKey, pk: PublicKey, n: Scalar)
    requires pk.pk == key.sk * params.g
    ensures VerifySerialNumber(params, pk, GenerateSerialNumber(params, key, n).0, GenerateSerialNumber(params, key, n).1)
  {
    var (g1, g, g2) := (params.g1, params.g, params.g2);
    MulSwap(n, g1, g);
    assert (key.sk + n) * g2 * g == g2 * (n * g) + g2 * (key.sk * g);
  }

  /** Completeness of the tag check: a tag made for nonce n against the serial number
      snD is accepted together with the serial number for n, under pk = sk·g. */
  lemma VerifyTagComplete(params: Params, key: SecretKey, pk: PublicKey, n: Scalar, snD: SerialNumber)
    requires pk.pk == key.sk * params.g
    ensures VerifyTag(params, pk, SerialFor(params, key, n), snD,
                      GenerateTag(params, key, n, snD).0, GenerateTag(params, key, n, snD).1)
  {
    var (g1, g) := (params.g1, params.g);
    MulSwap(n, g1, g);
    assert (key.sk * snD.m + n * params.h1) * -g == -(snD.m * (key.sk * g)) - params.h1 * (n * g);
    assert (key.sk * snD.n + n * params.h2) * -g == -(snD.n * (key.sk * g)) - params.h2 * (n * g);
  }

  /** The first-serial-number check rejects whenever the second message's G2 part is
      not the public key. */
  lemma VerifyFirstSerialNumberNeedsKey(params: Params, key: PublicKey, sn: SerialNumber, msgs: (Message, Message))
    requires msgs.1.n != key.pk
    ensures !VerifyFirstSerialNumber(params, key, sn, msgs)
  {
  }

  /** Rejection is over the integers: this serial number fails e(M, g) = e(g1, π)
      by a difference of 5, which vanishes in a group of order 5. */
  lemma SerialNumberRejectionIsOverIntegers()
    ensures !VerifySerialNumber(Params(1, 3, 0, 0, 0), PublicKey(0), SerialNumber(2, 0), SerialNumberProof(1))
    ensures (Pair(2, 3) - Pair(1, 1)) % 5 == 0
  {
  }
}
