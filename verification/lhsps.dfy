/** One-time linearly homomorphic structure-preserving signature (LHSPS) over vectors
    of G1 elements: key setup (src/lhsps/mod.rs), signing (src/lhsps/signing_key.rs)
    and the signature record (src/lhsps/signature.rs). */
module Lhsps {
  import opened Groups
  import opened Outcomes
  import opened GrothSahai

  datatype Signature = Signature(z: G1, r: G1)

  /** The n secret pairs (x_i, y_i); the dimension n is fixed at setup. */
  datatype SigningKey = SigningKey(xy: seq<(Scalar, Scalar)>)

  /** The two G2 generators and the public values pk_i. */
  datatype VerifyKey = VerifyKey(gz: G2, gr: G2, pk: seq<G2>)

  /** Proof generation and checking for "this signature is valid on this message"
      (`generate_proof` and `check_proof` of the verification key).  Their code is not
      part of this model, so they enter as arbitrary functions. */
  datatype ProofLayer = ProofLayer(
    generateProof: (VerifyKey, Crs, seq<G1>, Signature, Coin) -> Result<CProof>,
    checkProof: (VerifyKey, Crs, CProof, seq<G1>) -> bool)

  /** The first and second components of a sequence of pairs: the x_i and y_i of a
      signing key, or the weights of a list of weighted signatures. */
  function Firsts<S, T>(ps: seq<(S, T)>): (xs: seq<S>)
    ensures |xs| == |ps| && forall i :: 0 <= i < |ps| ==> xs[i] == ps[i].0
  {
    seq(|ps|, i requires 0 <= i < |ps| => ps[i].0)
  }

  function Seconds<S, T>(ps: seq<(S, T)>): (ys: seq<T>)
    ensures |ys| == |ps| && forall i :: 0 <= i < |ps| ==> ys[i] == ps[i].1
  {
    seq(|ps|, i requires 0 <= i < |ps| => ps[i].1)
  }

  /** The public key matches the secret key: one pk_i per secret pair, and
      pk_i = x_i·gz + y_i·gr. */
  predicate KeyPair(sk: SigningKey, vk: VerifyKey) {
    && |vk.pk| == |sk.xy|
    && forall i :: 0 <= i < |sk.xy| ==> vk.pk[i] == sk.xy[i].0 * vk.gz + sk.xy[i].1 * vk.gr
  }

  /** A signature is valid on a message of the key's dimension when
      e(z, gz) + e(r, gr) = Σ e(m_i, pk_i). */
  predicate ValidSignature(vk: VerifyKey, m: seq<G1>, sig: Signature) {
    |m| == |vk.pk| && Pair(sig.z, vk.gz) + Pair(sig.r, vk.gr) == Dot(m, vk.pk)
  }

  /** Key setup for dimension n from the sampled pairs `xy` and generators gz, gr. */
  function Setup(n: nat, xy: seq<(Scalar, Scalar)>, gz: G2, gr: G2): (keys: (SigningKey, VerifyKey))
    requires |xy| == n
    ensures |keys.0.xy| == n && |keys.1.pk| == n
    ensures keys.0.xy == xy
    ensures keys.1.gz == gz && keys.1.gr == gr
    ensures KeyPair(keys.0, keys.1)
  {
    (SigningKey(xy), VerifyKey(gz, gr, seq(n, i requires 0 <= i < n => xy[i].0 * gz + xy[i].1 * gr)))
  }

  /** The fold of `sign`: (z, r) accumulated over zip(m, xy), starting from the identity. */
  function Accumulate(m: seq<G1>, xy: seq<(Scalar, Scalar)>): (s: Signature)
    ensures s.z == Dot(m, Firsts(xy))
    ensures s.r == Dot(m, Seconds(xy))
    decreases |m|
  {
    if |m| == 0 || |xy| == 0 then Signature(0, 0)
    else
      var rest := Accumulate(m[1..], xy[1..]);
      assert Firsts(xy)[1..] == Firsts(xy[1..]) && Seconds(xy)[1..] == Seconds(xy[1..]);
      Signature(rest.z + m[0] * xy[0].0, rest.r + m[0] * xy[0].1)
  }

  /** Fails exactly on a dimension mismatch; otherwise z = Σ x_i·m_i, r = Σ y_i·m_i. */
  function Sign(sk: SigningKey, m: seq<G1>): (r: Result<Signature>)
    ensures r.Err? <==> |m| != |sk.xy|
    ensures r.Ok? ==> r.value.z == Dot(m, Firsts(sk.xy)) && r.value.r == Dot(m, Seconds(sk.xy))
  {
    if |sk.xy| != |m| then Err else Ok(Accumulate(m, sk.xy))
  }

  /** The z-components and r-components of a list of weighted signatures. */
  function Zs(ws: seq<(Scalar, Signature)>): (v: seq<G1>)
    ensures |v| == |ws| && forall i :: 0 <= i < |ws| ==> v[i] == ws[i].1.z
  {
    seq(|ws|, i requires 0 <= i < |ws| => ws[i].1.z)
  }

  function Rs(ws: seq<(Scalar, Signature)>): (v: seq<G1>)
    ensures |v| == |ws| && forall i :: 0 <= i < |ws| ==> v[i] == ws[i].1.r
  {
    seq(|ws|, i requires 0 <= i < |ws| => ws[i].1.r)
  }

  /** Coordinate-wise weighted sum of signatures: (Σ w_i·z_i, Σ w_i·r_i). */
  function SignDerive(ws: seq<(Scalar, Signature)>): (s: Signature)
    ensures s.z == Dot(Firsts(ws), Zs(ws))
    ensures s.r == Dot(Firsts(ws), Rs(ws))
    decreases |ws|
  {
    if |ws| == 0 then Signature(0, 0)
    else
      var rest := SignDerive(ws[1..]);
      assert Firsts(ws)[1..] == Firsts(ws[1..]);
      assert Zs(ws)[1..] == Zs(ws[1..]) && Rs(ws)[1..] == Rs(ws[1..]);
      Signature(ws[0].0 * ws[0].1.z + rest.z, ws[0].0 * ws[0].1.r + rest.r)
  }

  /** Σ w_i·ms[i] coordinate-wise, for messages of dimension n. */
  function WeightedMessage(ws: seq<(Scalar, Signature)>, ms: seq<seq<G1>>, n: nat): (v: seq<G1>)
    requires |ms| == |ws|
    requires forall i :: 0 <= i < |ms| ==> |ms[i]| == n
    ensures |v| == n
    decreases |ws|
  {
    if |ws| == 0 then Zeros(n)
    else Combine(ws[0].0, ms[0], 1, WeightedMessage(ws[1..], ms[1..], n))
  }

  /** Signing with a matching key pair yields a valid signature. */
  lemma SignIsValid(sk: SigningKey, vk: VerifyKey, m: seq<G1>)
    requires KeyPair(sk, vk)
    requires |m| == |sk.xy|
    ensures Sign(sk, m).Ok?
    ensures ValidSignature(vk, m, Sign(sk, m).value)
  {
    var xs, ys := Firsts(sk.xy), Seconds(sk.xy);
    assert vk.pk == Combine(vk.gz, xs, vk.gr, ys);
    DotComm(m, vk.pk);
    DotLinear(vk.gz, xs, vk.gr, ys, m);
    DotComm(xs, m);
    DotComm(ys, m);
  }

  /** The signature of a linear combination is the same combination of the signatures. */
  lemma SignLinear(sk: SigningKey, a: Scalar, m1: seq<G1>, b: Scalar, m2: seq<G1>)
    requires |m1| == |sk.xy| && |m2| == |sk.xy|
    ensures Sign(sk, Combine(a, m1, b, m2)).Ok?
    ensures Sign(sk, Combine(a, m1, b, m2)).value
         == Signature(a * Sign(sk, m1).value.z + b * Sign(sk, m2).value.z,
                      a * Sign(sk, m1).value.r + b * Sign(sk, m2).value.r)
  {
    DotLinear(a, m1, b, m2, Firsts(sk.xy));
    DotLinear(a, m1, b, m2, Seconds(sk.xy));
  }

  /** Signing the all-identity vector yields the identity pair. */
  lemma SignZero(sk: SigningKey)
    ensures Sign(sk, Zeros(|sk.xy|)) == Ok(Signature(0, 0))
  {
    ZerosDot(|sk.xy|, Firsts(sk.xy));
    ZerosDot(|sk.xy|, Seconds(sk.xy));
  }

  /** Homomorphism: a weighted sum of valid signatures is valid on the same weighted
      sum of the messages. */
  lemma {:induction false} SignDeriveValid(vk: VerifyKey, ws: seq<(Scalar, Signature)>, ms: seq<seq<G1>>)
    requires |ms| == |ws|
    requires forall i :: 0 <= i < |ms| ==> |ms[i]| == |vk.pk| && ValidSignature(vk, ms[i], ws[i].1)
    ensures ValidSignature(vk, WeightedMessage(ws, ms, |vk.pk|), SignDerive(ws))
    decreases |ws|
  {
    var n := |vk.pk|;
    if |ws| == 0 {
      ZerosDot(n, vk.pk);
    } else {
      var w, s := ws[0].0, ws[0].1;
      var rest := SignDerive(ws[1..]);
      var restMsg := WeightedMessage(ws[1..], ms[1..], n);
      SignDeriveValid(vk, ws[1..], ms[1..]);
      DotLinear(w, ms[0], 1, restMsg, vk.pk);
      PairsSplit(w, s, rest, vk.gz, vk.gr);
      assert SignDerive(ws) == Signature(w * s.z + rest.z, w * s.r + rest.r);
    }
  }

  /** The pairing side of a weighted sum splits into the weighted pairing sides. */
  lemma PairsSplit(w: Scalar, s: Signature, rest: Signature, gz: G2, gr: G2)
    ensures Pair(w * s.z + rest.z, gz) + Pair(w * s.r + rest.r, gr)
         == w * (Pair(s.z, gz) + Pair(s.r, gr)) + (Pair(rest.z, gz) + Pair(rest.r, gr))
  {
    MulDistrib(w, s.z, 1, rest.z, gz);
    MulDistrib(w, s.r, 1, rest.r, gr);
  }

  /** `generate_proof` never fails. */
  ghost predicate ProverTotal(lp: ProofLayer) {
    forall vk: VerifyKey, crs: Crs, m: seq<G1>, sig: Signature, coin: Coin ::
      lp.generateProof(vk, crs, m, sig, coin).Ok?
  }

  lemma ProverSucceeds(lp: ProofLayer, vk: VerifyKey, crs: Crs, m: seq<G1>, sig: Signature, coin: Coin)
    requires ProverTotal(lp)
    ensures lp.generateProof(vk, crs, m, sig, coin).Ok?
  {
  }

  /** Completeness of the proof layer: a proof generated from a signature valid on m is
      accepted on m. */
  ghost predicate LayerComplete(lp: ProofLayer) {
    forall vk: VerifyKey, crs: Crs, m: seq<G1>, sig: Signature, coin: Coin ::
      ValidSignature(vk, m, sig) && lp.generateProof(vk, crs, m, sig, coin).Ok? ==>
        lp.checkProof(vk, crs, lp.generateProof(vk, crs, m, sig, coin).value, m)
  }

  lemma LayerAccepts(lp: ProofLayer, vk: VerifyKey, crs: Crs, m: seq<G1>, sig: Signature, coin: Coin)
    requires LayerComplete(lp)
    requires ValidSignature(vk, m, sig) && lp.generateProof(vk, crs, m, sig, coin).Ok?
    ensures lp.checkProof(vk, crs, lp.generateProof(vk, crs, m, sig, coin).value, m)
  {
  }

  lemma DropsOne(lp: ProofLayer, vk: VerifyKey, crs: Crs, p: CProof, m: seq<G1>)
    requires DropsTrailingIdentity(lp)
    requires lp.checkProof(vk, crs, p, m + [0])
    ensures lp.checkProof(vk, crs, p, m)
  {
  }

  /** `check_proof` accepts a message with one trailing identity entry removed wherever
      it accepts the full message. */
  ghost predicate DropsTrailingIdentity(lp: ProofLayer) {
    forall vk: VerifyKey, crs: Crs, p: CProof, m: seq<G1> ::
      lp.checkProof(vk, crs, p, m + [0]) ==> lp.checkProof(vk, crs, p, m)
  }

  /** `check_proof` rejects every message whose length is not the key's dimension. */
  ghost predicate ChecksLength(lp: ProofLayer) {
    forall vk: VerifyKey, crs: Crs, p: CProof, m: seq<G1> ::
      lp.checkProof(vk, crs, p, m) ==> |m| == |vk.pk|
  }
}
