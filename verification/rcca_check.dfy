/** The composed ciphertext verifier `check_proofs` (src/rcca/ciphertext.rs). */
module RccaCheck {
  import opened Groups
  import opened Outcomes
  import opened GrothSahai
  import opened Lhsps
  import opened Proof
  import opened RccaTypes

  /** The LHSPS message checked against cpf_v: [c0, c1] followed by |c| - 2 identities. */
  function CheckedV(c: seq<G1>): (v: seq<G1>)
    requires |c| >= 2
    ensures |v| == |c|
  {
    [c[0], c[1]] + Zeros(|c| - 2)
  }

  /** The LHSPS message checked against cpf_w: [f, g] followed by |c| - 2 identities. */
  function CheckedW(ek: EncryptKey, c: seq<G1>): (v: seq<G1>)
    requires |c| >= 2
    ensures |v| == |c|
  {
    [ek.f, ek.g] + Zeros(|c| - 2)
  }

  /** Every pair that `zip(elems, proofs)` forms passes the selector check
      e(elem, Y) + e(X, g̃) = 0; pairs beyond the shorter sequence are never looked at. */
  predicate SelectorsCheck(eng: Engine, crs: Crs, elems: seq<G1>, proofs: seq<CProof>) {
    forall i :: 0 <= i < Min(|elems|, |proofs|) ==> CheckProofAyxb(eng, crs, proofs[i], elems[i], crs.g2Gen)
  }

  /** What the source's verifier does, including its panics. */
  datatype Verdict = Accepted | Rejected | Panicked

  /** `check_proofs` as written.  `c.len() - 1` underflows on an empty c (a panic in a
      debug build), and `self.c[1]` is indexed after the first two checks, so a
      one-element c with no cpf_ps and a valid cpf_b panics. */
  function CheckProofsAsWritten(eng: Engine, lp: ProofLayer, ek: EncryptKey, ct: Ciphertext): (r: Verdict)
    ensures r == Panicked ==> |ct.c| < 2
  {
    var crs := ek.crs;
    if |ct.c| == 0 then Panicked
    else if |ct.cpfPs| != |ct.c| - 1 then Rejected
    else if !CheckProofAyxb(eng, crs, ct.cpfB, ek.g, crs.g2Gen) then Rejected
    else if !SelectorsCheck(eng, crs, ct.c[1..], ct.cpfPs) then Rejected
    else if |ct.c| < 2 then Panicked
    else if !lp.checkProof(ek.vk, crs, ct.cpfV, CheckedV(ct.c)) then Rejected
    else if !SelectorsCheck(eng, crs, Fgh(ek), ct.cpfFgh) then Rejected
    else if !lp.checkProof(ek.vk, crs, ct.cpfW, CheckedW(ek, ct.c)) then Rejected
    else Accepted
  }

  /** `check_proofs` with a ciphertext shorter than two elements rejected up front;
      on every other input it does what the source does.  Any failure is the same
      unit error. */
  function CheckProofs(eng: Engine, lp: ProofLayer, ek: EncryptKey, ct: Ciphertext): (r: Result<()>)
    ensures r.Ok? ==> |ct.c| >= 2 && |ct.cpfPs| == |ct.c| - 1
    ensures r.Ok? <==>
      && |ct.c| >= 2
      && |ct.cpfPs| == |ct.c| - 1
      && CheckProofAyxb(eng, ek.crs, ct.cpfB, ek.g, ek.crs.g2Gen)
      && (forall i :: 1 <= i < |ct.c| ==> CheckProofAyxb(eng, ek.crs, ct.cpfPs[i - 1], ct.c[i], ek.crs.g2Gen))
      && lp.checkProof(ek.vk, ek.crs, ct.cpfV, CheckedV(ct.c))
      && SelectorsCheck(eng, ek.crs, Fgh(ek), ct.cpfFgh)
      && lp.checkProof(ek.vk, ek.crs, ct.cpfW, CheckedW(ek, ct.c))
  {
    var crs := ek.crs;
    if |ct.c| < 2 then Err
    else if |ct.cpfPs| != |ct.c| - 1 then Err
    else if !CheckProofAyxb(eng, crs, ct.cpfB, ek.g, crs.g2Gen) then Err
    else if !SelectorsCheck(eng, crs, ct.c[1..], ct.cpfPs) then Err
    else if !lp.checkProof(ek.vk, crs, ct.cpfV, CheckedV(ct.c)) then Err
    else if !SelectorsCheck(eng, crs, Fgh(ek), ct.cpfFgh) then Err
    else if !lp.checkProof(ek.vk, crs, ct.cpfW, CheckedW(ek, ct.c)) then Err
    else
      assert forall i :: 1 <= i < |ct.c| ==> ct.c[1..][i - 1] == ct.c[i];
      Ok(())
  }
}
