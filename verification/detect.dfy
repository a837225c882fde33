/** Double-spending detection (src/double_spending/detect.rs). */
module Detect {
  import opened Groups
  import opened Outcomes
  import opened DoubleSpending

  /** The registry a searcher walks.  The library only asks of a searcher that it
      returns a key the predicate accepts, or nothing; this one returns the first
      registered key the predicate accepts. */
  datatype Searcher = Searcher(keys: seq<PublicKey>)

  function Search(keys: seq<PublicKey>, pred: PublicKey -> bool): (r: Option<PublicKey>)
    ensures r.Some? ==> r.value in keys && pred(r.value)
    ensures r.None? <==> forall k :: k in keys ==> !pred(k)
    decreases |keys|
  {
    if |keys| == 0 then None
    else if pred(keys[0]) then Some(keys[0])
    else Search(keys[1..], pred)
  }

  /** The values the guilt relation is checked on: (ax, mx, hx) and tx. */
  datatype Evidence = Evidence(ax: G1, mx: G1, hx: G1, tx: G2)

  /** Differences of the two tags, serial numbers and tag proofs; the A-difference is
      used unless it is the identity, in which case the B-difference is. */
  function Gather(params: Params, sn0: SerialNumber, sn1: SerialNumber,
                  tag0: Tag, tag0Pf: TagProof, tag1: Tag, tag1Pf: TagProof): Evidence
  {
    var a := tag0.a + -tag1.a;
    var b := tag0.b + -tag1.b;
    var m := sn0.m + -sn1.m;
    var n := sn0.n + -sn1.n;
    var tx := tag0Pf.tPf + -tag1Pf.tPf;
    if a == 0 then Evidence(b, n, params.h2, tx) else Evidence(a, m, params.h1, tx)
  }

  function Detect(searcher: Searcher, params: Params, sn0: SerialNumber, sn1: SerialNumber,
                  tag0: Tag, tag0Pf: TagProof, tag1: Tag, tag1Pf: TagProof)
    : (r: Option<(PublicKey, DetectionProof)>)
    ensures r.Some? ==> r.value.0 in searcher.keys
    ensures r.Some? ==>
      var ev := Gather(params, sn0, sn1, tag0, tag0Pf, tag1, tag1Pf);
      r.value.1 == DetectionProof(ev.ax, ev.mx, ev.tx) && GuiltEquation(params, r.value.0, ev.ax, ev.mx, ev.hx, ev.tx)
    ensures r.Some? ==> VerifyGuilt(params, r.value.0, r.value.1)
    ensures r.None? <==>
      var ev := Gather(params, sn0, sn1, tag0, tag0Pf, tag1, tag1Pf);
      forall k :: k in searcher.keys ==> !GuiltEquation(params, k, ev.ax, ev.mx, ev.hx, ev.tx)
  {
    var ev := Gather(params, sn0, sn1, tag0, tag0Pf, tag1, tag1Pf);
    var found := Search(searcher.keys, (pk: PublicKey) => Pair(ev.ax, params.g) == Pair(ev.mx, pk.pk) + Pair(ev.hx, ev.tx));
    match found
    case None => None
    case Some(pk) => Some((pk, DetectionProof(ev.ax, ev.mx, ev.tx)))
  }

  lemma DiffTimes(s: int, m0: int, m1: int, n0: int, n1: int, h: int, g: int)
    ensures ((s * m0 + n0 * h) + -(s * m1 + n1 * h)) * g
         == (m0 + -m1) * (s * g) + h * (n0 * g + -(n1 * g))
  {
    assert (s * m0 + n0 * h) + -(s * m1 + n1 * h) == s * (m0 - m1) + (n0 - n1) * h;
    assert (s * (m0 - m1) + (n0 - n1) * h) * g == (m0 - m1) * (s * g) + h * ((n0 - n1) * g);
  }

  /** When both tags come from the same secret key, that key's public key sk·g satisfies
      the guilt relation, whichever of the two branches Gather takes. */
  lemma CulpritSatisfiesGuilt(params: Params, key: SecretKey, sn0: SerialNumber, sn1: SerialNumber,
                              n0: Scalar, n1: Scalar)
    ensures
      var (tag0, pf0) := GenerateTag(params, key, n0, sn0);
      var (tag1, pf1) := GenerateTag(params, key, n1, sn1);
      var ev := Gather(params, sn0, sn1, tag0, pf0, tag1, pf1);
      GuiltEquation(params, PublicKey(key.sk * params.g), ev.ax, ev.mx, ev.hx, ev.tx)
  {
    DiffTimes(key.sk, sn0.m, sn1.m, n0, n1, params.h1, params.g);
    DiffTimes(key.sk, sn0.n, sn1.n, n0, n1, params.h2, params.g);
  }

  /** Completeness: if both tags come from one secret key whose public key is
      registered, detection returns a key, and that key passes `verify_guilt`. */
  lemma DetectFindsDoubleSpender(searcher: Searcher, params: Params, key: SecretKey,
                                 sn0: SerialNumber, sn1: SerialNumber, n0: Scalar, n1: Scalar)
    requires PublicKey(key.sk * params.g) in searcher.keys
    ensures
      var (tag0, pf0) := GenerateTag(params, key, n0, sn0);
      var (tag1, pf1) := GenerateTag(params, key, n1, sn1);
      var r := Detect(searcher, params, sn0, sn1, tag0, pf0, tag1, pf1);
      r.Some? && VerifyGuilt(params, r.value.0, r.value.1)
  {
    CulpritSatisfiesGuilt(params, key, sn0, sn1, n0, n1);
  }
}
