/** RCCA key generation (src/rcca/mod.rs). */
module RccaKeyGen {
  import opened Groups
  import opened GrothSahai
  import opened Lhsps
  import opened RccaTypes

  /** The pads h_i = alpha_i·g. */
  function Pads(g: G1, alpha: seq<Scalar>): (h: seq<G1>)
    ensures |h| == |alpha|
    ensures forall i :: 0 <= i < |alpha| ==> h[i] == alpha[i] * g
  {
    seq(|alpha|, i requires 0 <= i < |alpha| => alpha[i] * g)
  }

  /** Key generation for n slots from the sampled CRS, generators f and g, trapdoor
      alpha and LHSPS setup randomness (xy, gz, gr).  The LHSPS signing key lives
      only inside this call: it signs v1 and v2 and is then dropped. */
  function KeyGen(n: nat, crs: Crs, f: G1, g: G1, alpha: seq<Scalar>,
                  xy: seq<(Scalar, Scalar)>, gz: G2, gr: G2): (keys: (DecryptKey, EncryptKey))
    requires |alpha| == n
    requires |xy| == n + 3
    ensures keys.0.encKey == keys.1
    ensures keys.0.alpha == alpha
    ensures keys.1.f == f && keys.1.g == g && keys.1.crs == crs
    ensures |keys.1.h| == n && KeysMatch(keys.0)
    ensures |keys.1.vk.pk| == n + 3
    ensures ValidSignature(keys.1.vk, BasisV1(f, g, n), keys.1.sigV1)
    ensures ValidSignature(keys.1.vk, BasisV2(keys.1.h), keys.1.sigV2)
    ensures SignsBasis(keys.1)
  {
    var h := Pads(g, alpha);
    var v1 := BasisV1(f, g, n);
    var v2 := BasisV2(h);
    var (tk, vk) := Setup(n + 3, xy, gz, gr);
    SignIsValid(tk, vk, v1);
    SignIsValid(tk, vk, v2);
    var sigV1 := Sign(tk, v1).value;
    var sigV2 := Sign(tk, v2).value;
    var ek := EncryptKey(f, g, h, crs, sigV1, sigV2, vk);
    (DecryptKey(ek, alpha), ek)
  }
}
