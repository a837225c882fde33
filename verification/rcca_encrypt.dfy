/** Encryption, the ciphertext update of re-randomisation, and `verify`
    (src/rcca/encrypt_key.rs). */
module RccaEncrypt {
  import opened Groups
  import opened Outcomes
  import opened GrothSahai
  import opened Lhsps
  import opened Proof
  import opened RccaTypes
  import RccaCheck

  /** c = [phi·f, phi·g, m_1 + phi·h_1, …]: the slots come from zip(m, h), so the
      shorter of the two decides how many there are. */
  function Pad(ek: EncryptKey, phi: Scalar, m: seq<G1>): (c: seq<G1>)
    ensures |c| == 2 + Min(|m|, |ek.h|)
    ensures c[0] == phi * ek.f && c[1] == phi * ek.g
    ensures forall i :: 0 <= i < |c| - 2 ==> c[i + 2] == m[i] + phi * ek.h[i]
  {
    var k := Min(|m|, |ek.h|);
    [phi * ek.f, phi * ek.g] + seq(k, i requires 0 <= i < k => m[i] + phi * ek.h[i])
  }

  /** The vector whose signature backs cpf_v: [c0, c1, 1] followed by |c| - 2 identities. */
  function SignedV(c: seq<G1>): (v: seq<G1>)
    requires |c| >= 2
    ensures |v| == |c| + 1
  {
    [c[0], c[1], 0] + Zeros(|c| - 2)
  }

  /** The vector whose signature backs cpf_w: [f, g, 1] followed by |c| - 2 identities. */
  function SignedW(ek: EncryptKey, c: seq<G1>): (v: seq<G1>)
    requires |c| >= 2
    ensures |v| == |c| + 1
  {
    [ek.f, ek.g, 0] + Zeros(|c| - 2)
  }

  /** The elements whose selector relation cpf_fgh proves at encryption: [f^b, g^b, h…]. */
  function SelectorFgh(ek: EncryptKey): (v: seq<G1>)
    ensures |v| == |ek.h| + 2
  {
    [Selector * ek.f, Selector * ek.g] + ek.h
  }

  /** One selector proof per constant, e(consts[i], g̃^(-b)) + e(wits[i], g̃) = 0, the
      i-th drawing coin start + i; fails as soon as one creation fails (the source
      unwraps each one). */
  function ProveSelectors(eng: Engine, crs: Crs, tape: Tape, start: nat, consts: seq<G1>, wits: seq<G1>)
    : (r: Result<seq<CProof>>)
    requires |consts| == |wits|
    ensures r.Ok? <==>
      forall i :: 0 <= i < |consts| ==>
        CreateProofAyxb(eng, tape(start + i), crs, consts[i], SelectorY(crs), wits[i], crs.g2Gen).Ok?
    ensures r.Ok? ==> |r.value| == |consts|
    ensures r.Ok? ==>
      forall i :: 0 <= i < |consts| ==>
        CreateProofAyxb(eng, tape(start + i), crs, consts[i], SelectorY(crs), wits[i], crs.g2Gen) == Ok(r.value[i])
    decreases |consts|
  {
    if |consts| == 0 then Ok([])
    else
      var p :- CreateProofAyxb(eng, tape(start), crs, consts[0], SelectorY(crs), wits[0], crs.g2Gen);
      var ps :- ProveSelectors(eng, crs, tape, start + 1, consts[1..], wits[1..]);
      assert forall i :: 1 <= i < |consts| ==> consts[1..][i - 1] == consts[i] && wits[1..][i - 1] == wits[i];
      Ok([p] + ps)
  }

  /** cpf_ps[i - 1] is the selector proof for c_i, made with coin i. */
  ghost predicate PsFromTape(eng: Engine, crs: Crs, tape: Tape, c: seq<G1>, ps: seq<CProof>) {
    && |ps| == |c| - 1
    && forall i :: 1 <= i < |c| ==>
         CreateProofAyxb(eng, tape(i), crs, c[i], SelectorY(crs), Selector * c[i], crs.g2Gen) == Ok(ps[i - 1])
  }

  /** cpf_fgh[i] is the selector proof for the i-th of [f, g, h…], made with coin start + i. */
  ghost predicate FghFromTape(eng: Engine, ek: EncryptKey, tape: Tape, start: nat, fghs: seq<CProof>) {
    && |fghs| == |ek.h| + 2
    && forall i :: 0 <= i < |ek.h| + 2 ==>
         CreateProofAyxb(eng, tape(start + i), ek.crs, SelectorFgh(ek)[i], SelectorY(ek.crs),
                         SelectorFgh(ek)[i], ek.crs.g2Gen) == Ok(fghs[i])
  }

  /** The five proof bundles of ct are the ones encryption under phi creates, each
      from its own coin of the tape, in the order the source creates them: cpf_b,
      cpf_ps, cpf_v, cpf_fgh, cpf_w. */
  ghost predicate ProvenFromTape(eng: Engine, lp: ProofLayer, ek: EncryptKey, tape: Tape, phi: Scalar, ct: Ciphertext)
    requires |ct.c| >= 2
  {
    var crs, c := ek.crs, ct.c;
    && CreateProofAyxb(eng, tape(0), crs, ek.g, SelectorY(crs), ek.g, crs.g2Gen) == Ok(ct.cpfB)
    && PsFromTape(eng, crs, tape, c, ct.cpfPs)
    && lp.generateProof(ek.vk, crs, SignedV(c), SignDerive([(phi, ek.sigV1)]), tape(|c|)) == Ok(ct.cpfV)
    && FghFromTape(eng, ek, tape, |c| + 1, ct.cpfFgh)
    && lp.generateProof(ek.vk, crs, SignedW(ek, c), SignDerive([(Selector, ek.sigV1)]),
                        tape(|c| + |ek.h| + 3)) == Ok(ct.cpfW)
  }

  /** Attaches the five proof bundles to an already padded c.  A failed proof
      creation, which the source unwraps, is an error. */
  function Seal(eng: Engine, lp: ProofLayer, ek: EncryptKey, tape: Tape, phi: Scalar, c: seq<G1>)
    : (r: Result<Ciphertext>)
    requires |c| >= 2
    ensures r.Ok? ==> r.value.c == c && ProvenFromTape(eng, lp, ek, tape, phi, r.value)
  {
    var crs := ek.crs;
    var cpfB :- CreateProofAyxb(eng, tape(0), crs, ek.g, SelectorY(crs), ek.g, crs.g2Gen);
    var cpfPs :- ProveSelectors(eng, crs, tape, 1, c[1..], Scale(Selector, c[1..]));
    var cpfV :- lp.generateProof(ek.vk, crs, SignedV(c), SignDerive([(phi, ek.sigV1)]), tape(|c|));
    var fgh := SelectorFgh(ek);
    var cpfFgh :- ProveSelectors(eng, crs, tape, |c| + 1, fgh, fgh);
    var cpfW :- lp.generateProof(ek.vk, crs, SignedW(ek, c), SignDerive([(Selector, ek.sigV1)]),
                                 tape(|c| + |fgh| + 1));
    SelectorIndexShift(eng, crs, tape, c, cpfPs);
    Ok(Ciphertext(c, cpfB, cpfPs, cpfV, cpfFgh, cpfW))
  }

  /** Re-indexes the cpf_ps facts from c[1..] to c. */
  lemma SelectorIndexShift(eng: Engine, crs: Crs, tape: Tape, c: seq<G1>, ps: seq<CProof>)
    requires |c| >= 1 && |ps| == |c| - 1
    requires forall i :: 0 <= i < |c| - 1 ==>
      CreateProofAyxb(eng, tape(1 + i), crs, c[1..][i], SelectorY(crs), Scale(Selector, c[1..])[i], crs.g2Gen) == Ok(ps[i])
    ensures PsFromTape(eng, crs, tape, c, ps)
  {
    forall i | 1 <= i < |c|
      ensures CreateProofAyxb(eng, tape(i), crs, c[i], SelectorY(crs), Selector * c[i], crs.g2Gen) == Ok(ps[i - 1])
    {
      var j := i - 1;
      assert c[1..][j] == c[i];
      assert Scale(Selector, c[1..])[j] == Selector * c[i];
      assert 1 + j == i;
    }
  }

  /** With a complete engine, the selector proof for any element a (witnesses
      Y = g̃^(-b) and X = a^b) is created. */
  lemma SelectorCreated(eng: Engine, coin: Coin, crs: Crs, a: G1)
    requires Complete(eng)
    ensures CreateProofAyxb(eng, coin, crs, a, SelectorY(crs), Selector * a, crs.g2Gen).Ok?
  {
    AyxbCreatedProofChecks(eng, coin, crs, a, SelectorY(crs), Selector * a, crs.g2Gen);
  }

  /** With a complete engine and a proof layer that never fails, every proof creation
      of `Seal` succeeds. */
  lemma SealSucceeds(eng: Engine, lp: ProofLayer, ek: EncryptKey, tape: Tape, phi: Scalar, c: seq<G1>)
    requires |c| >= 2
    ensures Complete(eng) && ProverTotal(lp) ==> Seal(eng, lp, ek, tape, phi, c).Ok?
  {
    if Complete(eng) && ProverTotal(lp) {
      var crs := ek.crs;
      SelectorCreated(eng, tape(0), crs, ek.g);
      var cs := c[1..];
      forall i | 0 <= i < |cs|
        ensures CreateProofAyxb(eng, tape(1 + i), crs, cs[i], SelectorY(crs), Scale(Selector, cs)[i], crs.g2Gen).Ok?
      {
        SelectorCreated(eng, tape(1 + i), crs, cs[i]);
      }
      var fgh := SelectorFgh(ek);
      forall i | 0 <= i < |fgh|
        ensures CreateProofAyxb(eng, tape(|c| + 1 + i), crs, fgh[i], SelectorY(crs), fgh[i], crs.g2Gen).Ok?
      {
        SelectorCreated(eng, tape(|c| + 1 + i), crs, fgh[i]);
      }
      assert ProveSelectors(eng, crs, tape, 1, cs, Scale(Selector, cs)).Ok?;
      assert ProveSelectors(eng, crs, tape, |c| + 1, fgh, fgh).Ok?;
      ProverSucceeds(lp, ek.vk, crs, SignedV(c), SignDerive([(phi, ek.sigV1)]), tape(|c|));
      ProverSucceeds(lp, ek.vk, crs, SignedW(ek, c), SignDerive([(Selector, ek.sigV1)]), tape(|c| + |fgh| + 1));
    }
  }

  /** Encrypts m under phi: pads it, then attaches the proofs. */
  function Encrypt(eng: Engine, lp: ProofLayer, ek: EncryptKey, tape: Tape, phi: Scalar, m: seq<G1>)
    : (r: Result<Ciphertext>)
    ensures r.Ok? ==> r.value.c == Pad(ek, phi, m)
    ensures r.Ok? ==> ProvenFromTape(eng, lp, ek, tape, phi, r.value)
    ensures Complete(eng) && ProverTotal(lp) ==> r.Ok?
  {
    SealSucceeds(eng, lp, ek, tape, phi, Pad(ek, phi, m));
    Seal(eng, lp, ek, tape, phi, Pad(ek, phi, m))
  }

  /** The ciphertext half of re-randomisation: c0 + v·f, c1 + v·g and, for the slots
      that zip(c[2..], h) reaches, c_{i+2} + v·h_i; later slots are left alone. */
  function RerandomizeC(ek: EncryptKey, c: seq<G1>, v: Scalar): (c': seq<G1>)
    requires |c| >= 2
    ensures |c'| == |c|
    ensures c'[0] == c[0] + v * ek.f && c'[1] == c[1] + v * ek.g
    ensures forall i :: 0 <= i < |c| - 2 && i < |ek.h| ==> c'[i + 2] == c[i + 2] + v * ek.h[i]
    ensures forall i :: |ek.h| + 2 <= i < |c| ==> c'[i] == c[i]
  {
    [c[0] + v * ek.f, c[1] + v * ek.g]
      + seq(|c| - 2, i requires 0 <= i < |c| - 2 => if i < |ek.h| then c[i + 2] + v * ek.h[i] else c[i + 2])
  }

  /** Whether the ciphertext encrypts m: only the proof half exists, so the message
      is not looked at. */
  function Verify(eng: Engine, lp: ProofLayer, ek: EncryptKey, m: seq<G1>, ct: Ciphertext): (ok: bool)
    ensures ok <==> RccaCheck.CheckProofs(eng, lp, ek, ct).Ok?
  {
    if RccaCheck.CheckProofs(eng, lp, ek, ct).Err? then false else true
  }
}
