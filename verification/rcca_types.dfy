/** Records of the RCCA encryption scheme: keys (src/rcca/encrypt_key.rs,
    src/rcca/decrypt_key.rs) and ciphertexts (src/rcca/ciphertext.rs), plus the
    constants and vectors that key generation, encryption and checking share. */
module RccaTypes {
  import opened Groups
  import opened GrothSahai
  import opened Lhsps

  /** Public key: generators f, g, the per-slot pads h, the CRS, the LHSPS key and
      two LHSPS signatures on the basis vectors v1, v2.  It has no field for the
      LHSPS signing key. */
  datatype EncryptKey = EncryptKey(
    f: G1, g: G1, h: seq<G1>, crs: Crs,
    sigV1: Signature, sigV2: Signature, vk: VerifyKey)

  /** Secret key: a copy of the public key and the trapdoor exponents alpha. */
  datatype DecryptKey = DecryptKey(encKey: EncryptKey, alpha: seq<Scalar>)

  /** Ciphertext c = [c0, c1, c2, …] and its five proof bundles. */
  datatype Ciphertext = Ciphertext(
    c: seq<G1>, cpfB: CProof, cpfPs: seq<CProof>, cpfV: CProof, cpfFgh: seq<CProof>, cpfW: CProof)

  /** The selector exponent b; the scheme always proves the b = 1 branch. */
  const Selector: Scalar := 1

  /** The G2 witness g̃^(-b) of every selector relation e(a, g̃^(-b)) + e(a^b, g̃) = 0. */
  function SelectorY(crs: Crs): G2 {
    (-Selector) * crs.g2Gen
  }

  /** v1 = [f, g] followed by n + 1 identities. */
  function BasisV1(f: G1, g: G1, n: nat): (v: seq<G1>)
    ensures |v| == n + 3
  {
    [f, g] + Zeros(n + 1)
  }

  /** v2 = three identities followed by h_1 … h_n. */
  function BasisV2(h: seq<G1>): (v: seq<G1>)
    ensures |v| == |h| + 3
  {
    Zeros(3) + h
  }

  /** The elements whose selector relation cpf_fgh proves: [f, g, h_1, …, h_n]. */
  function Fgh(ek: EncryptKey): (v: seq<G1>)
    ensures |v| == |ek.h| + 2
  {
    [ek.f, ek.g] + ek.h
  }

  /** The trapdoor opens the pads: h_i = alpha_i·g for every slot. */
  predicate KeysMatch(dk: DecryptKey) {
    && |dk.alpha| == |dk.encKey.h|
    && forall i :: 0 <= i < |dk.alpha| ==> dk.encKey.h[i] == dk.alpha[i] * dk.encKey.g
  }

  /** The LHSPS key has dimension n + 3 and sig_v1 is valid on v1. */
  predicate SignsBasis(ek: EncryptKey) {
    |ek.vk.pk| == |ek.h| + 3 && ValidSignature(ek.vk, BasisV1(ek.f, ek.g, |ek.h|), ek.sigV1)
  }
}
