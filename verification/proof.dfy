/** The two fixed pairing-product equation shapes the library proves, and their
    creation and checking (src/proof.rs). */
module Proof {
  import opened Groups
  import opened Outcomes
  import opened GrothSahai

  /** e(a, Y) + e(X, b) = 0 encoded as A = [a], B = [0, b], γ = 2×1 zeros, t = 0,
      for the witnesses X = [0, x], Y = [y]. */
  function AyxbEquation(a: G1, b: G2): Ppe {
    Ppe([a], [0, b], [[0], [0]], 0)
  }

  function AyxbWitnessX(x: G1): seq<G1> {
    [0, x]
  }

  function AyxbWitnessY(y: G2): seq<G2> {
    [y]
  }

  /** e(X1, b1) + e(X2, b2) = t encoded as A = [0], B = [0, b1, b2], γ = 3×1 zeros,
      for the witnesses X = [0, x1, x2], Y = [0]. */
  function XbxbEquation(b1: G2, b2: G2, t: GT): Ppe {
    Ppe([0], [0, b1, b2], [[0], [0], [0]], t)
  }

  function XbxbWitnessX(x1: G1, x2: G1): seq<G1> {
    [0, x1, x2]
  }

  function XbxbWitnessY(): seq<G2> {
    [0]
  }

  /** The ayxb encoding is well shaped and the general equation collapses to
      e(a, y) + e(x, b) = 0. */
  lemma AyxbReduces(a: G1, y: G2, x: G1, b: G2)
    ensures Shaped(AyxbEquation(a, b), AyxbWitnessX(x), AyxbWitnessY(y))
    ensures Eval(AyxbEquation(a, b), AyxbWitnessX(x), AyxbWitnessY(y)) == Pair(a, y) + Pair(x, b)
    ensures Satisfied(AyxbEquation(a, b), AyxbWitnessX(x), AyxbWitnessY(y))
            <==> Pair(a, y) + Pair(x, b) == 0
  {
    var equ := AyxbEquation(a, b);
    var xs, ys := AyxbWitnessX(x), AyxbWitnessY(y);
    assert Dot(equ.aConsts, ys) == a * y;
    assert Dot(xs, equ.bConsts) == x * b by {
      assert xs[1..] == [x] && equ.bConsts[1..] == [b];
      assert Dot([x], [b]) == x * b + Dot([x][1..], [b][1..]);
    }
    assert GammaSum(equ.gamma, xs, ys) == 0 by {
      assert Dot(equ.gamma[0], ys) == 0;
      assert equ.gamma[1..] == [[0]] && xs[1..] == [x];
      assert Dot(equ.gamma[1..][0], ys) == 0;
    }
  }

  /** The xbxb encoding is well shaped and the general equation collapses to
      e(x1, b1) + e(x2, b2) = t. */
  lemma XbxbReduces(x1: G1, b1: G2, x2: G1, b2: G2, t: GT)
    ensures Shaped(XbxbEquation(b1, b2, t), XbxbWitnessX(x1, x2), XbxbWitnessY())
    ensures Eval(XbxbEquation(b1, b2, t), XbxbWitnessX(x1, x2), XbxbWitnessY()) == Pair(x1, b1) + Pair(x2, b2)
    ensures Satisfied(XbxbEquation(b1, b2, t), XbxbWitnessX(x1, x2), XbxbWitnessY())
            <==> Pair(x1, b1) + Pair(x2, b2) == t
  {
    var equ := XbxbEquation(b1, b2, t);
    var xs, ys := XbxbWitnessX(x1, x2), XbxbWitnessY();
    assert Dot(equ.aConsts, ys) == 0;
    assert Dot(xs, equ.bConsts) == x1 * b1 + x2 * b2 by {
      assert xs[1..] == [x1, x2] && equ.bConsts[1..] == [b1, b2];
      assert xs[1..][1..] == [x2] && equ.bConsts[1..][1..] == [b2];
      assert Dot([x2], [b2]) == x2 * b2 + Dot([x2][1..], [b2][1..]);
      assert Dot([x1, x2], [b1, b2]) == x1 * b1 + Dot([x2], [b2]);
    }
    assert GammaSum(equ.gamma, xs, ys) == 0 by {
      assert equ.gamma[1..] == [[0], [0]] && xs[1..] == [x1, x2];
      assert equ.gamma[1..][1..] == [[0]] && xs[1..][1..] == [x2];
    }
  }

  /** Builds e(a, y) + e(x, b) = 0, proves it for the witnesses and returns the proof
      only if it verifies against the equation just built. */
  function CreateProofAyxb(eng: Engine, coin: Coin, crs: Crs, a: G1, y: G2, x: G1, b: G2): (r: Result<CProof>)
    ensures r.Ok? ==> eng.verify(AyxbEquation(a, b), r.value, crs)
    ensures r.Ok? ==> r.value == eng.commitAndProve(AyxbEquation(a, b), AyxbWitnessX(x), AyxbWitnessY(y), crs, coin)
    ensures r.Err? <==>
      !eng.verify(AyxbEquation(a, b),
                  eng.commitAndProve(AyxbEquation(a, b), AyxbWitnessX(x), AyxbWitnessY(y), crs, coin), crs)
  {
    var equ := AyxbEquation(a, b);
    var proof := eng.commitAndProve(equ, AyxbWitnessX(x), AyxbWitnessY(y), crs, coin);
    if eng.verify(equ, proof, crs) then Ok(proof) else Err
  }

  /** Rebuilds e(a, Y) + e(X, b) = 0 and checks the proof against it, after rejecting a
      proof with no equation proof or whose first one is not a pairing product. */
  function CheckProofAyxb(eng: Engine, crs: Crs, cp: CProof, a: G1, b: G2): (ok: bool)
    ensures ok <==> LeadsWithPairingProduct(cp) && eng.verify(AyxbEquation(a, b), cp, crs)
  {
    if |cp.equProofs| == 0 then false
    else if cp.equProofs[0].equType != PairingProduct then false
    else eng.verify(AyxbEquation(a, b), cp, crs)
  }

  /** Builds e(x1, b1) + e(x2, b2) = t, proves it and returns the proof only if it
      verifies against the equation just built. */
  function CreateProofXbxbT(eng: Engine, coin: Coin, crs: Crs, x1: G1, b1: G2, x2: G1, b2: G2, t: GT)
    : (r: Result<CProof>)
    ensures r.Ok? ==> eng.verify(XbxbEquation(b1, b2, t), r.value, crs)
    ensures r.Ok? ==> r.value == eng.commitAndProve(XbxbEquation(b1, b2, t), XbxbWitnessX(x1, x2), XbxbWitnessY(), crs, coin)
    ensures r.Err? <==>
      !eng.verify(XbxbEquation(b1, b2, t),
                  eng.commitAndProve(XbxbEquation(b1, b2, t), XbxbWitnessX(x1, x2), XbxbWitnessY(), crs, coin), crs)
  {
    var equ := XbxbEquation(b1, b2, t);
    var proof := eng.commitAndProve(equ, XbxbWitnessX(x1, x2), XbxbWitnessY(), crs, coin);
    if eng.verify(equ, proof, crs) then Ok(proof) else Err
  }

  /** Rebuilds e(X1, b1) + e(X2, b2) = t and checks the proof against it, with the same
      two rejections as `CheckProofAyxb`. */
  function CheckProofXbxbT(eng: Engine, crs: Crs, cp: CProof, b1: G2, b2: G2, t: GT): (ok: bool)
    ensures ok <==> LeadsWithPairingProduct(cp) && eng.verify(XbxbEquation(b1, b2, t), cp, crs)
  {
    if |cp.equProofs| == 0 then false
    else if cp.equProofs[0].equType != PairingProduct then false
    else eng.verify(XbxbEquation(b1, b2, t), cp, crs)
  }

  /** Creation and checking agree on the equation: with a complete engine, witnesses
      satisfying a·y + x·b = 0 give a proof, and that proof passes the proof check built
      from the same a and b. */
  lemma AyxbCreatedProofChecks(eng: Engine, coin: Coin, crs: Crs, a: G1, y: G2, x: G1, b: G2)
    requires Complete(eng)
    requires Pair(a, y) + Pair(x, b) == 0
    ensures CreateProofAyxb(eng, coin, crs, a, y, x, b).Ok?
    ensures CheckProofAyxb(eng, crs, CreateProofAyxb(eng, coin, crs, a, y, x, b).value, a, b)
  {
    AyxbReduces(a, y, x, b);
  }

  /** Whatever engine is plugged in, a proof that creation accepted and that leads with
      a pairing-product equation proof is accepted by the proof check for the same a, b:
      the proof check rebuilds exactly the equation creation built. */
  lemma AyxbCheckRebuildsEquation(eng: Engine, coin: Coin, crs: Crs, a: G1, y: G2, x: G1, b: G2)
    requires CreateProofAyxb(eng, coin, crs, a, y, x, b).Ok?
    requires LeadsWithPairingProduct(CreateProofAyxb(eng, coin, crs, a, y, x, b).value)
    ensures CheckProofAyxb(eng, crs, CreateProofAyxb(eng, coin, crs, a, y, x, b).value, a, b)
  {
  }

  /** With a complete engine, witnesses satisfying x1·b1 + x2·b2 = t give a proof that
      passes the proof check built from the same b1, b2 and t. */
  lemma XbxbCreatedProofChecks(eng: Engine, coin: Coin, crs: Crs, x1: G1, b1: G2, x2: G1, b2: G2, t: GT)
    requires Complete(eng)
    requires Pair(x1, b1) + Pair(x2, b2) == t
    ensures CreateProofXbxbT(eng, coin, crs, x1, b1, x2, b2, t).Ok?
    ensures CheckProofXbxbT(eng, crs, CreateProofXbxbT(eng, coin, crs, x1, b1, x2, b2, t).value, b1, b2, t)
  {
    XbxbReduces(x1, b1, x2, b2, t);
  }

  /** The proof check rebuilds exactly the equation creation built for the same b1, b2, t. */
  lemma XbxbCheckRebuildsEquation(eng: Engine, coin: Coin, crs: Crs, x1: G1, b1: G2, x2: G1, b2: G2, t: GT)
    requires CreateProofXbxbT(eng, coin, crs, x1, b1, x2, b2, t).Ok?
    requires LeadsWithPairingProduct(CreateProofXbxbT(eng, coin, crs, x1, b1, x2, b2, t).value)
    ensures CheckProofXbxbT(eng, crs, CreateProofXbxbT(eng, coin, crs, x1, b1, x2, b2, t).value, b1, b2, t)
  {
  }
}
