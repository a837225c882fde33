/** The interface of the external Groth–Sahai proof crate, as the library uses it.

    The crate's internals (commitments, `commit_and_prove`, `PPE::verify`) are not
    part of this model.  They enter as an `Engine` value whose two functions are
    arbitrary, so every statement proved about the library holds for whatever the
    crate computes.  Where a statement needs the crate to be correct, it says so
    with the hypothesis `Complete(eng)`. */
module GrothSahai {
  import opened Groups

  /** Common reference string: two commitment bases and the group generators. */
  datatype Crs = Crs(u: seq<(G1, G1)>, v: seq<(G2, G2)>, g1Gen: G1, g2Gen: G2, gtGen: GT)

  /** The four kinds of Groth–Sahai equation. */
  datatype EquType = PairingProduct | MultiScalarG1 | MultiScalarG2 | Quadratic

  /** One equation's proof: its type marker and the commitments and proof elements,
      which the library never looks inside. */
  datatype EquProof = EquProof(equType: EquType, elements: seq<int>)

  /** A combined proof holding one entry per proven equation. */
  datatype CProof = CProof(equProofs: seq<EquProof>)

  /** Pairing-product equation
        Σ e(A_i, Y_i) + Σ e(X_j, B_j) + Σ_j Σ_i γ_ji · e(X_j, Y_i) = t
      with public constants A, B, γ, t; the witnesses X, Y are supplied per call. */
  datatype Ppe = Ppe(aConsts: seq<G1>, bConsts: seq<G2>, gamma: seq<seq<Scalar>>, target: GT)

  /** Randomness consumed by one proof creation. */
  type Coin = int

  /** A source of randomness: the k-th coin drawn. */
  type Tape = nat -> Coin

  datatype Engine = Engine(
    commitAndProve: (Ppe, seq<G1>, seq<G2>, Crs, Coin) -> CProof,
    verify: (Ppe, CProof, Crs) -> bool)

  /** The equation's dimensions agree with the witnesses': one A per Y, one B per X,
      and γ is |X| × |Y|. */
  predicate Shaped(equ: Ppe, xs: seq<G1>, ys: seq<G2>) {
    && |equ.aConsts| == |ys|
    && |equ.bConsts| == |xs|
    && |equ.gamma| == |xs|
    && forall j :: 0 <= j < |equ.gamma| ==> |equ.gamma[j]| == |ys|
  }

  /** Σ_j Σ_i γ_ji · e(X_j, Y_i). */
  function GammaSum(gamma: seq<seq<Scalar>>, xs: seq<G1>, ys: seq<G2>): GT
    decreases |gamma|
  {
    if |gamma| == 0 || |xs| == 0 then 0
    else Pair(xs[0], Dot(gamma[0], ys)) + GammaSum(gamma[1..], xs[1..], ys)
  }

  /** Left-hand side of the equation for the given witnesses. */
  function Eval(equ: Ppe, xs: seq<G1>, ys: seq<G2>): GT {
    Dot(equ.aConsts, ys) + Dot(xs, equ.bConsts) + GammaSum(equ.gamma, xs, ys)
  }

  predicate Satisfied(equ: Ppe, xs: seq<G1>, ys: seq<G2>) {
    Eval(equ, xs, ys) == equ.target
  }

  /** The proof's first equation proof exists and is marked as a pairing product. */
  predicate LeadsWithPairingProduct(cp: CProof) {
    |cp.equProofs| > 0 && cp.equProofs[0].equType == PairingProduct
  }

  /** Idealised completeness of the crate: a proof made from witnesses that satisfy a
      well-shaped pairing-product equation verifies against that equation and the same
      CRS, and is one pairing-product equation proof. */
  ghost predicate Complete(eng: Engine) {
    forall equ: Ppe, xs: seq<G1>, ys: seq<G2>, crs: Crs, coin: Coin ::
      Shaped(equ, xs, ys) && Satisfied(equ, xs, ys) ==>
        && eng.verify(equ, eng.commitAndProve(equ, xs, ys, crs, coin), crs)
        && LeadsWithPairingProduct(eng.commitAndProve(equ, xs, ys, crs, coin))
  }
}
