/** Properties that relate key generation, encryption, checking, decryption and the
    ciphertext update of re-randomisation to one another. */
module RccaProperties {
  import opened Groups
  import opened Outcomes
  import opened GrothSahai
  import opened Lhsps
  import opened Proof
  import opened RccaTypes
  import opened RccaKeyGen
  import opened RccaCheck
  import opened RccaEncrypt
  import opened RccaDecrypt

  /** Stripping the pads of an encryption returns the message, cut to the number of
      slots the key has (encryption zips m with h). */
  lemma UnpadUndoesPad(dk: DecryptKey, phi: Scalar, m: seq<G1>)
    requires KeysMatch(dk)
    ensures Unpad(dk.alpha, Pad(dk.encKey, phi, m)) == m[..Min(|m|, |dk.alpha|)]
  {
    var ek := dk.encKey;
    var c := Pad(ek, phi, m);
    var k := Min(|m|, |dk.alpha|);
    var out := Unpad(dk.alpha, c);
    forall i | 0 <= i < k
      ensures out[i] == m[i]
    {
      calc {
        out[i];
        c[i + 2] - dk.alpha[i] * c[1];
        m[i] + phi * (dk.alpha[i] * ek.g) - dk.alpha[i] * (phi * ek.g);
        { MulComm3(phi, dk.alpha[i], ek.g); }
        m[i];
      }
    }
  }

  lemma MulComm3(a: int, b: int, c: int)
    ensures a * (b * c) == b * (a * c)
  {
  }

  /** decrypt(encrypt(m)) = m: with keys from key generation for n slots and a message
      of n elements, for a complete proof engine and an LHSPS proof layer that never
      fails, is complete, and accepts a message with a trailing identity dropped. */
  lemma EncryptDecryptRoundTrip(
    eng: Engine, lp: ProofLayer, n: nat, crs: Crs, f: G1, g: G1, alpha: seq<Scalar>,
    xy: seq<(Scalar, Scalar)>, gz: G2, gr: G2, tape: Tape, phi: Scalar, m: seq<G1>)
    requires |alpha| == n && |xy| == n + 3 && |m| == n
    requires Complete(eng) && ProverTotal(lp) && LayerComplete(lp) && DropsTrailingIdentity(lp)
    ensures Encrypt(eng, lp, KeyGen(n, crs, f, g, alpha, xy, gz, gr).1, tape, phi, m).Ok?
    ensures Decrypt(eng, lp, KeyGen(n, crs, f, g, alpha, xy, gz, gr).0,
                    Encrypt(eng, lp, KeyGen(n, crs, f, g, alpha, xy, gz, gr).1, tape, phi, m).value) == Ok(m)
  {
    var (dk, ek) := KeyGen(n, crs, f, g, alpha, xy, gz, gr);
    EncryptPassesCheck(eng, lp, ek, tape, phi, m);
    UnpadUndoesPad(dk, phi, m);
    assert m[..n] == m;
  }

  /** Every selector proof encryption makes uses A = X = a, Y = g̃^(-b), B = g̃ with
      b = 1, and those witnesses satisfy the ayxb equation. */
  lemma SelectorWitnessSatisfies(crs: Crs, a: G1)
    ensures Satisfied(AyxbEquation(a, crs.g2Gen), AyxbWitnessX(Selector * a), AyxbWitnessY(SelectorY(crs)))
  {
    AyxbReduces(a, SelectorY(crs), Selector * a, crs.g2Gen);
  }

  /** With a complete proof engine, a selector proof made for element a is accepted by
      the selector check for a. */
  lemma SelectorProofChecks(eng: Engine, coin: Coin, crs: Crs, a: G1, x: G1, p: CProof)
    requires Complete(eng)
    requires x == Selector * a
    requires CreateProofAyxb(eng, coin, crs, a, SelectorY(crs), x, crs.g2Gen) == Ok(p)
    ensures CheckProofAyxb(eng, crs, p, a, crs.g2Gen)
  {
    SelectorWitnessSatisfies(crs, a);
    AyxbReduces(a, SelectorY(crs), x, crs.g2Gen);
    AyxbCreatedProofChecks(eng, coin, crs, a, SelectorY(crs), x, crs.g2Gen);
  }

  /** With a complete proof engine and a prover that never fails, encryption succeeds
      and passes every selector check of the composed verifier: cpf_b, each cpf_ps and
      each cpf_fgh. */
  lemma EncryptSelectorsCheck(eng: Engine, lp: ProofLayer, ek: EncryptKey, tape: Tape, phi: Scalar, m: seq<G1>)
    requires Complete(eng) && ProverTotal(lp)
    ensures Encrypt(eng, lp, ek, tape, phi, m).Ok?
    ensures CheckProofAyxb(eng, ek.crs, Encrypt(eng, lp, ek, tape, phi, m).value.cpfB, ek.g, ek.crs.g2Gen)
    ensures forall i :: 1 <= i < |Encrypt(eng, lp, ek, tape, phi, m).value.c| ==>
      CheckProofAyxb(eng, ek.crs, Encrypt(eng, lp, ek, tape, phi, m).value.cpfPs[i - 1],
                     Encrypt(eng, lp, ek, tape, phi, m).value.c[i], ek.crs.g2Gen)
    ensures SelectorsCheck(eng, ek.crs, Fgh(ek), Encrypt(eng, lp, ek, tape, phi, m).value.cpfFgh)
  {
    ProvenSelectorsCheck(eng, lp, ek, tape, phi, Encrypt(eng, lp, ek, tape, phi, m).value);
  }

  /** The selector proofs of a ciphertext made from the tape pass their checks. */
  lemma ProvenSelectorsCheck(eng: Engine, lp: ProofLayer, ek: EncryptKey, tape: Tape, phi: Scalar, ct: Ciphertext)
    requires Complete(eng)
    requires |ct.c| >= 2 && ProvenFromTape(eng, lp, ek, tape, phi, ct)
    ensures CheckProofAyxb(eng, ek.crs, ct.cpfB, ek.g, ek.crs.g2Gen)
    ensures forall i :: 1 <= i < |ct.c| ==> CheckProofAyxb(eng, ek.crs, ct.cpfPs[i - 1], ct.c[i], ek.crs.g2Gen)
    ensures SelectorsCheck(eng, ek.crs, Fgh(ek), ct.cpfFgh)
  {
    SelectorProofChecks(eng, tape(0), ek.crs, ek.g, ek.g, ct.cpfB);
    PsProofsCheck(eng, ek.crs, tape, ct.c, ct.cpfPs);
    FghProofsCheck(eng, ek, tape, |ct.c| + 1, ct.cpfFgh);
  }

  lemma PsProofsCheck(eng: Engine, crs: Crs, tape: Tape, c: seq<G1>, ps: seq<CProof>)
    requires Complete(eng) && PsFromTape(eng, crs, tape, c, ps)
    ensures forall i :: 1 <= i < |c| ==> CheckProofAyxb(eng, crs, ps[i - 1], c[i], crs.g2Gen)
  {
    forall i | 1 <= i < |c|
      ensures CheckProofAyxb(eng, crs, ps[i - 1], c[i], crs.g2Gen)
    {
      SelectorProofChecks(eng, tape(i), crs, c[i], Selector * c[i], ps[i - 1]);
    }
  }

  lemma FghProofsCheck(eng: Engine, ek: EncryptKey, tape: Tape, start: nat, fghs: seq<CProof>)
    requires Complete(eng) && FghFromTape(eng, ek, tape, start, fghs)
    ensures SelectorsCheck(eng, ek.crs, Fgh(ek), fghs)
  {
    forall i | 0 <= i < Min(|Fgh(ek)|, |fghs|)
      ensures CheckProofAyxb(eng, ek.crs, fghs[i], Fgh(ek)[i], ek.crs.g2Gen)
    {
      assert SelectorFgh(ek)[i] == Fgh(ek)[i];
      SelectorProofChecks(eng, tape(start + i), ek.crs, Fgh(ek)[i], Fgh(ek)[i], fghs[i]);
    }
  }

  /** With a complete LHSPS proof layer and a key that signs v1, cpf_v and cpf_w are
      accepted on the messages encryption signed, [c0, c1, 1, …] and [f, g, 1, …]. */
  lemma EncryptSignedProofsCheck(eng: Engine, lp: ProofLayer, ek: EncryptKey, tape: Tape, phi: Scalar, m: seq<G1>)
    requires LayerComplete(lp) && SignsBasis(ek) && |m| >= |ek.h|
    requires Encrypt(eng, lp, ek, tape, phi, m).Ok?
    ensures lp.checkProof(ek.vk, ek.crs, Encrypt(eng, lp, ek, tape, phi, m).value.cpfV,
                          SignedV(Encrypt(eng, lp, ek, tape, phi, m).value.c))
    ensures lp.checkProof(ek.vk, ek.crs, Encrypt(eng, lp, ek, tape, phi, m).value.cpfW,
                          SignedW(ek, Encrypt(eng, lp, ek, tape, phi, m).value.c))
  {
    var ct := Encrypt(eng, lp, ek, tape, phi, m).value;
    var c := ct.c;
    var v1 := BasisV1(ek.f, ek.g, |ek.h|);
    DerivedBasisValid(ek.vk, v1, ek.sigV1, phi);
    SignedVIsScaledBasis(ek, phi, m);
    DerivedBasisValid(ek.vk, v1, ek.sigV1, Selector);
    SignedWIsBasis(ek, phi, m);
    LayerAccepts(lp, ek.vk, ek.crs, SignedV(c), SignDerive([(phi, ek.sigV1)]), tape(|c|));
    LayerAccepts(lp, ek.vk, ek.crs, SignedW(ek, c), SignDerive([(Selector, ek.sigV1)]), tape(|c| + |ek.h| + 3));
  }

  /** Completeness of the composed verifier: with a complete proof engine, a key that
      signs v1 and a message that fills every slot, encryption succeeds and its output
      passes `check_proofs`, provided the LHSPS layer never fails, is complete, and
      accepts a message with its trailing identity dropped (the verifier rebuilds the
      signed messages one entry short). */
  lemma EncryptPassesCheck(eng: Engine, lp: ProofLayer, ek: EncryptKey, tape: Tape, phi: Scalar, m: seq<G1>)
    requires Complete(eng) && ProverTotal(lp) && LayerComplete(lp) && DropsTrailingIdentity(lp)
    requires SignsBasis(ek) && |m| >= |ek.h|
    ensures Encrypt(eng, lp, ek, tape, phi, m).Ok?
    ensures CheckProofs(eng, lp, ek, Encrypt(eng, lp, ek, tape, phi, m).value).Ok?
  {
    var ct := Encrypt(eng, lp, ek, tape, phi, m).value;
    var c := ct.c;
    EncryptSelectorsCheck(eng, lp, ek, tape, phi, m);
    EncryptSignedProofsCheck(eng, lp, ek, tape, phi, m);
    CheckedVDropsLastSigned(c, ek.vk.pk);
    assert SignedV(c) == CheckedV(c) + [0];
    DropsOne(lp, ek.vk, ek.crs, ct.cpfV, CheckedV(c));
    CheckedWDropsLastSigned(ek, c, ek.vk.pk);
    assert SignedW(ek, c) == CheckedW(ek, c) + [0];
    DropsOne(lp, ek.vk, ek.crs, ct.cpfW, CheckedW(ek, c));
  }

  /** The verifier's dependence on dropping the trailing identity: an LHSPS layer that
      checks the message length rejects every output of encryption, because the
      rebuilt messages have n + 2 entries and the key has dimension n + 3. */
  lemma LengthCheckingLayerRejectsEncryption(eng: Engine, lp: ProofLayer, ek: EncryptKey, tape: Tape, phi: Scalar, m: seq<G1>)
    requires ChecksLength(lp) && SignsBasis(ek) && |m| >= |ek.h|
    requires Encrypt(eng, lp, ek, tape, phi, m).Ok?
    ensures CheckProofs(eng, lp, ek, Encrypt(eng, lp, ek, tape, phi, m).value) == Err
  {
    var c := Encrypt(eng, lp, ek, tape, phi, m).value.c;
    assert |CheckedV(c)| == |ek.h| + 2;
  }

  /** Appends x to c and a proof p for it to cpf_ps. */
  function Extend(ct: Ciphertext, x: G1, p: CProof): (ct': Ciphertext)
    ensures ct'.c == ct.c + [x] && ct'.cpfPs == ct.cpfPs + [p]
    ensures ct'.cpfB == ct.cpfB && ct'.cpfV == ct.cpfV && ct'.cpfFgh == ct.cpfFgh && ct'.cpfW == ct.cpfW
  {
    ct.(c := ct.c + [x], cpfPs := ct.cpfPs + [p])
  }

  /** An encryption extended by any element x, with the selector proof for x that anyone
      can make from the public CRS, passes the composed verifier with a merely complete
      LHSPS layer: the verifier now rebuilds exactly the messages that were signed.
      The source's `decrypt` then reads alpha past its end and aborts; the corrected
      decryption rejects. */
  lemma ExtendedCiphertextAborts(eng: Engine, lp: ProofLayer, dk: DecryptKey, tape: Tape, phi: Scalar,
                                 m: seq<G1>, x: G1, coin: Coin, p: CProof)
    requires Complete(eng) && ProverTotal(lp) && LayerComplete(lp)
    requires KeysMatch(dk) && SignsBasis(dk.encKey) && |m| >= |dk.encKey.h|
    requires CreateProofAyxb(eng, coin, dk.encKey.crs, x, SelectorY(dk.encKey.crs), Selector * x,
                             dk.encKey.crs.g2Gen) == Ok(p)
    ensures CheckProofs(eng, lp, dk.encKey, Extend(Encrypt(eng, lp, dk.encKey, tape, phi, m).value, x, p)).Ok?
    ensures DecryptAsWritten(eng, lp, dk, Extend(Encrypt(eng, lp, dk.encKey, tape, phi, m).value, x, p)) == Aborted
    ensures Decrypt(eng, lp, dk, Extend(Encrypt(eng, lp, dk.encKey, tape, phi, m).value, x, p)) == Err
  {
    var ek := dk.encKey;
    var crs := ek.crs;
    var ct := Encrypt(eng, lp, ek, tape, phi, m).value;
    var ct' := Extend(ct, x, p);
    var c, c' := ct.c, ct'.c;
    EncryptSelectorsCheck(eng, lp, ek, tape, phi, m);
    EncryptSignedProofsCheck(eng, lp, ek, tape, phi, m);
    SelectorProofChecks(eng, coin, crs, x, Selector * x, p);
    forall i | 1 <= i < |c'|
      ensures CheckProofAyxb(eng, crs, ct'.cpfPs[i - 1], c'[i], crs.g2Gen)
    {
      if i < |c| {
        assert ct'.cpfPs[i - 1] == ct.cpfPs[i - 1] && c'[i] == c[i];
      } else {
        assert ct'.cpfPs[i - 1] == p && c'[i] == x;
      }
    }
    assert CheckedV(c') == SignedV(c);
    assert CheckedW(ek, c') == SignedW(ek, c);
    CheckProofsMatchesSource(eng, lp, ek, ct');
  }

  /** The vector encryption signs for cpf_v is phi·v1, when the message fills every slot. */
  lemma SignedVIsScaledBasis(ek: EncryptKey, phi: Scalar, m: seq<G1>)
    requires |m| >= |ek.h|
    ensures SignedV(Pad(ek, phi, m)) == Scale(phi, BasisV1(ek.f, ek.g, |ek.h|))
  {
    var c := Pad(ek, phi, m);
    var v1 := BasisV1(ek.f, ek.g, |ek.h|);
    assert forall i :: 2 <= i < |v1| ==> v1[i] == 0 && SignedV(c)[i] == 0;
  }

  /** The vector encryption signs for cpf_w is b·v1 = v1, when the message fills every slot. */
  lemma SignedWIsBasis(ek: EncryptKey, phi: Scalar, m: seq<G1>)
    requires |m| >= |ek.h|
    ensures SignedW(ek, Pad(ek, phi, m)) == Scale(Selector, BasisV1(ek.f, ek.g, |ek.h|))
  {
    var v1 := BasisV1(ek.f, ek.g, |ek.h|);
    assert forall i :: 2 <= i < |v1| ==> v1[i] == 0 && SignedW(ek, Pad(ek, phi, m))[i] == 0;
  }

  /** The derived signature handed to the cpf_v prover is a valid LHSPS signature on the
      vector handed with it, for keys from key generation and a full message. */
  lemma CpfVWitnessValid(n: nat, crs: Crs, f: G1, g: G1, alpha: seq<Scalar>,
                         xy: seq<(Scalar, Scalar)>, gz: G2, gr: G2, phi: Scalar, m: seq<G1>)
    requires |alpha| == n && |xy| == n + 3 && |m| == n
    ensures ValidSignature(KeyGen(n, crs, f, g, alpha, xy, gz, gr).1.vk,
                           SignedV(Pad(KeyGen(n, crs, f, g, alpha, xy, gz, gr).1, phi, m)),
                           SignDerive([(phi, KeyGen(n, crs, f, g, alpha, xy, gz, gr).1.sigV1)]))
  {
    var ek := KeyGen(n, crs, f, g, alpha, xy, gz, gr).1;
    DerivedBasisValid(ek.vk, BasisV1(f, g, n), ek.sigV1, phi);
    SignedVIsScaledBasis(ek, phi, m);
  }

  /** The derived signature handed to the cpf_w prover is a valid LHSPS signature on the
      vector handed with it, for keys from key generation and a full message. */
  lemma CpfWWitnessValid(n: nat, crs: Crs, f: G1, g: G1, alpha: seq<Scalar>,
                         xy: seq<(Scalar, Scalar)>, gz: G2, gr: G2, phi: Scalar, m: seq<G1>)
    requires |alpha| == n && |xy| == n + 3 && |m| == n
    ensures ValidSignature(KeyGen(n, crs, f, g, alpha, xy, gz, gr).1.vk,
                           SignedW(KeyGen(n, crs, f, g, alpha, xy, gz, gr).1,
                                   Pad(KeyGen(n, crs, f, g, alpha, xy, gz, gr).1, phi, m)),
                           SignDerive([(Selector, KeyGen(n, crs, f, g, alpha, xy, gz, gr).1.sigV1)]))
  {
    var ek := KeyGen(n, crs, f, g, alpha, xy, gz, gr).1;
    DerivedBasisValid(ek.vk, BasisV1(f, g, n), ek.sigV1, Selector);
    SignedWIsBasis(ek, phi, m);
  }

  /** A one-term derivation scales a valid signature onto the scaled message. */
  lemma DerivedBasisValid(vk: VerifyKey, v: seq<G1>, sig: Signature, w: Scalar)
    requires ValidSignature(vk, v, sig)
    ensures ValidSignature(vk, Scale(w, v), SignDerive([(w, sig)]))
  {
    assert SignDerive([(w, sig)]) == Signature(w * sig.z + 0, w * sig.r + 0);
    PairsSplit(w, sig, Signature(0, 0), vk.gz, vk.gr);
    DotScale(w, v, vk.pk);
  }

  /** The verifier rebuilds cpf_v's message one entry shorter than encryption signs it;
      the dropped entry is an identity, so the pairing product Σ e(v_i, pk_i) agrees. */
  lemma CheckedVDropsLastSigned(c: seq<G1>, pk: seq<G2>)
    requires |c| >= 2
    ensures CheckedV(c) == SignedV(c)[..|c|]
    ensures |SignedV(c)| == |CheckedV(c)| + 1 && SignedV(c)[|c|] == 0
    ensures Dot(CheckedV(c), pk) == Dot(SignedV(c), pk)
  {
    DotZeroTail([c[0], c[1]], |c| - 2, pk);
    assert SignedV(c) == [c[0], c[1]] + Zeros(|c| - 1);
    DotZeroTail([c[0], c[1]], |c| - 1, pk);
  }

  /** The same one-entry truncation for cpf_w's message. */
  lemma CheckedWDropsLastSigned(ek: EncryptKey, c: seq<G1>, pk: seq<G2>)
    requires |c| >= 2
    ensures CheckedW(ek, c) == SignedW(ek, c)[..|c|]
    ensures |SignedW(ek, c)| == |CheckedW(ek, c)| + 1 && SignedW(ek, c)[|c|] == 0
    ensures Dot(CheckedW(ek, c), pk) == Dot(SignedW(ek, c), pk)
  {
    DotZeroTail([ek.f, ek.g], |c| - 2, pk);
    assert SignedW(ek, c) == [ek.f, ek.g] + Zeros(|c| - 1);
    DotZeroTail([ek.f, ek.g], |c| - 1, pk);
  }

  /** The re-randomisation update leaves the decrypted value unchanged: v·h_i = v·alpha_i·g
      cancels against alpha_i·(v·g). */
  lemma RerandomizeKeepsPlaintext(dk: DecryptKey, c: seq<G1>, v: Scalar)
    requires KeysMatch(dk)
    requires 2 <= |c| <= |dk.alpha| + 2
    ensures Unpad(dk.alpha, RerandomizeC(dk.encKey, c, v)) == Unpad(dk.alpha, c)
  {
    var ek := dk.encKey;
    var c' := RerandomizeC(ek, c, v);
    forall i | 0 <= i < |c| - 2
      ensures c'[i + 2] - dk.alpha[i] * c'[1] == c[i + 2] - dk.alpha[i] * c[1]
    {
      calc {
        c'[i + 2] - dk.alpha[i] * c'[1];
        c[i + 2] + v * (dk.alpha[i] * ek.g) - dk.alpha[i] * (c[1] + v * ek.g);
        { MulComm3(v, dk.alpha[i], ek.g); }
        c[i + 2] - dk.alpha[i] * c[1];
      }
    }
  }

  /** Updating an encryption under phi with v gives exactly the encryption under phi + v. */
  lemma RerandomizeIsReencryption(ek: EncryptKey, phi: Scalar, m: seq<G1>, v: Scalar)
    ensures RerandomizeC(ek, Pad(ek, phi, m), v) == Pad(ek, phi + v, m)
  {
    var c, c' := Pad(ek, phi, m), Pad(ek, phi + v, m);
    var r := RerandomizeC(ek, c, v);
    AddMul(phi, v, ek.f);
    AddMul(phi, v, ek.g);
    forall i | 2 <= i < |c|
      ensures r[i] == c'[i]
    {
      var j := i - 2;
      assert r[j + 2] == c[j + 2] + v * ek.h[j];
      assert c[j + 2] == m[j] + phi * ek.h[j];
      assert c'[j + 2] == m[j] + (phi + v) * ek.h[j];
      AddMul(phi, v, ek.h[j]);
    }
  }

  lemma AddMul(a: int, b: int, x: int)
    ensures a * x + b * x == (a + b) * x
  {
  }

  /** Two updates compose into one whose randomness is the sum. */
  lemma RerandomizeComposes(ek: EncryptKey, c: seq<G1>, v1: Scalar, v2: Scalar)
    requires |c| >= 2
    ensures RerandomizeC(ek, RerandomizeC(ek, c, v1), v2) == RerandomizeC(ek, c, v1 + v2)
  {
    var a, b := RerandomizeC(ek, RerandomizeC(ek, c, v1), v2), RerandomizeC(ek, c, v1 + v2);
    forall i | 0 <= i < |c|
      ensures a[i] == b[i]
    {
      if i == 0 {
        AddMul(v1, v2, ek.f);
      } else if i == 1 {
        AddMul(v1, v2, ek.g);
      } else if i - 2 < |ek.h| {
        AddMul(v1, v2, ek.h[i - 2]);
      }
    }
  }

  /** `verify` never looks at the message it is given. */
  lemma VerifyIgnoresMessage(eng: Engine, lp: ProofLayer, ek: EncryptKey, m1: seq<G1>, m2: seq<G1>, ct: Ciphertext)
    ensures Verify(eng, lp, ek, m1, ct) == Verify(eng, lp, ek, m2, ct)
  {
  }

  /** cpf_fgh is checked through zip, so a ciphertext that passes still passes with all
      of its cpf_fgh proofs removed. */
  lemma FghProofsMayBeDropped(eng: Engine, lp: ProofLayer, ek: EncryptKey, ct: Ciphertext)
    requires CheckProofs(eng, lp, ek, ct).Ok?
    ensures CheckProofs(eng, lp, ek, ct.(cpfFgh := [])).Ok?
  {
  }

  /** ... and with any proofs appended after the n + 2 it needs. */
  lemma FghExtraProofsIgnored(eng: Engine, lp: ProofLayer, ek: EncryptKey, ct: Ciphertext, extra: seq<CProof>)
    requires |ct.cpfFgh| >= |ek.h| + 2
    ensures CheckProofs(eng, lp, ek, ct.(cpfFgh := ct.cpfFgh + extra)) == CheckProofs(eng, lp, ek, ct)
  {
    var fs := ct.cpfFgh + extra;
    assert forall i :: 0 <= i < |ek.h| + 2 ==> fs[i] == ct.cpfFgh[i];
  }

  /** As written, the verifier panics on a one-element c that carries no cpf_ps and a
      valid cpf_b: the length guard passes (0 = 1 - 1) and c[1] is then indexed. */
  lemma CheckProofsAsWrittenPanics(eng: Engine, lp: ProofLayer, ek: EncryptKey, x: G1, p: CProof,
                                   v: CProof, fgh: seq<CProof>, w: CProof)
    requires CheckProofAyxb(eng, ek.crs, p, ek.g, ek.crs.g2Gen)
    ensures CheckProofsAsWritten(eng, lp, ek, Ciphertext([x], p, [], v, fgh, w)) == Panicked
    ensures CheckProofs(eng, lp, ek, Ciphertext([x], p, [], v, fgh, w)) == Err
  {
  }

  /** The corrected verifier agrees with the source wherever the source does not panic,
      and the source never panics once c has two elements. */
  lemma CheckProofsMatchesSource(eng: Engine, lp: ProofLayer, ek: EncryptKey, ct: Ciphertext)
    ensures |ct.c| >= 2 ==> CheckProofsAsWritten(eng, lp, ek, ct) != Panicked
    ensures CheckProofsAsWritten(eng, lp, ek, ct) != Panicked ==>
      (CheckProofsAsWritten(eng, lp, ek, ct) == Accepted <==> CheckProofs(eng, lp, ek, ct).Ok?)
  {
  }

  /** On ciphertexts of the key's length n + 2 the source's `decrypt` never aborts, and
      the corrected decryption returns exactly the plaintext it returns. */
  lemma DecryptMatchesSource(eng: Engine, lp: ProofLayer, dk: DecryptKey, ct: Ciphertext)
    requires |ct.c| == |dk.alpha| + 2
    ensures DecryptAsWritten(eng, lp, dk, ct) != Aborted
    ensures Decrypt(eng, lp, dk, ct).Ok? <==> DecryptAsWritten(eng, lp, dk, ct).Plaintext?
    ensures Decrypt(eng, lp, dk, ct).Ok? ==> Decrypt(eng, lp, dk, ct).value == DecryptAsWritten(eng, lp, dk, ct).m
  {
    CheckProofsMatchesSource(eng, lp, dk.encKey, ct);
  }

  /** Completeness of `verify`: under the hypotheses of `EncryptPassesCheck`, verify
      accepts every output of encryption, whatever message it is given. */
  lemma VerifyAcceptsEncryption(eng: Engine, lp: ProofLayer, ek: EncryptKey, tape: Tape, phi: Scalar,
                                m: seq<G1>, m': seq<G1>)
    requires Complete(eng) && ProverTotal(lp) && LayerComplete(lp) && DropsTrailingIdentity(lp)
    requires SignsBasis(ek) && |m| >= |ek.h|
    ensures Encrypt(eng, lp, ek, tape, phi, m).Ok?
    ensures Verify(eng, lp, ek, m', Encrypt(eng, lp, ek, tape, phi, m).value)
  {
    EncryptPassesCheck(eng, lp, ek, tape, phi, m);
  }
}
