/** Decryption (src/rcca/decrypt_key.rs). */
module RccaDecrypt {
  import opened Groups
  import opened Outcomes
  import opened GrothSahai
  import opened Lhsps
  import opened RccaTypes
  import opened RccaCheck

  /** Strips the pads: m_i = c_{i+2} - alpha_i·c_1 for every slot past c0, c1. */
  function Unpad(alpha: seq<Scalar>, c: seq<G1>): (m: seq<G1>)
    requires 2 <= |c| <= |alpha| + 2
    ensures |m| == |c| - 2
    ensures forall i :: 0 <= i < |m| ==> m[i] == c[i + 2] - alpha[i] * c[1]
  {
    seq(|c| - 2, i requires 0 <= i < |c| - 2 => c[i + 2] + -(alpha[i] * c[1]))
  }

  /** What the source's `decrypt` does, including its panics. */
  datatype Decryption = Plaintext(m: seq<G1>) | Refused | Aborted

  /** `decrypt` as written: `check_proofs` (with its own panics), then alpha_i is read for
      every slot of c, which aborts once c has more than |alpha| + 2 elements. */
  function DecryptAsWritten(eng: Engine, lp: ProofLayer, dk: DecryptKey, ct: Ciphertext): (r: Decryption)
    ensures r == Aborted <==>
      || CheckProofsAsWritten(eng, lp, dk.encKey, ct) == Panicked
      || (CheckProofsAsWritten(eng, lp, dk.encKey, ct) == Accepted && |ct.c| > |dk.alpha| + 2)
    ensures r.Plaintext? <==> CheckProofsAsWritten(eng, lp, dk.encKey, ct) == Accepted && |ct.c| <= |dk.alpha| + 2
    ensures r.Plaintext? ==> 2 <= |ct.c| && |r.m| == |ct.c| - 2
    ensures r.Plaintext? ==> forall i :: 0 <= i < |r.m| ==> r.m[i] == ct.c[i + 2] - dk.alpha[i] * ct.c[1]
  {
    match CheckProofsAsWritten(eng, lp, dk.encKey, ct)
    case Panicked => Aborted
    case Rejected => Refused
    case Accepted => if |ct.c| > |dk.alpha| + 2 then Aborted else Plaintext(Unpad(dk.alpha, ct.c))
  }

  /** Decryption with the corrected verifier and a ciphertext of any length other than
      the key's n + 2 elements rejected; computes no plaintext unless both checks pass. */
  function Decrypt(eng: Engine, lp: ProofLayer, dk: DecryptKey, ct: Ciphertext): (r: Result<seq<G1>>)
    ensures r.Ok? <==> CheckProofs(eng, lp, dk.encKey, ct).Ok? && |ct.c| == |dk.alpha| + 2
    ensures r.Ok? ==> |r.value| == |dk.alpha|
    ensures r.Ok? ==> forall i :: 0 <= i < |r.value| ==> r.value[i] == ct.c[i + 2] - dk.alpha[i] * ct.c[1]
  {
    if CheckProofs(eng, lp, dk.encKey, ct).Err? then Err
    else if |ct.c| != |dk.alpha| + 2 then Err
    else Ok(Unpad(dk.alpha, ct.c))
  }
}
