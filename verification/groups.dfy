/** Exponent model of the bilinear group triple (G1, G2, GT) and its scalar field.

    Every group element is represented by its discrete logarithm with respect to a
    fixed generator, so group addition is `+`, scalar multiplication `k·P` is `k * P`,
    the identity is `0`, and the pairing e(x, y) is the product `x * y`.  Bilinearity,
    e(a·P, b·Q) = (a·b)·e(P, Q), then holds by construction.  Integers are not reduced
    modulo the group order: an identity proved over the integers also holds modulo
    any prime, which is all the correctness statements need. */
module Groups {

  type Scalar = int
  type G1 = int
  type G2 = int
  type GT = int

  /** e : G1 × G2 → GT */
  function Pair(x: G1, y: G2): GT {
    x * y
  }

  function Min(a: nat, b: nat): nat {
    if a <= b then a else b
  }

  /** Σ xs[i]·ys[i] over the pairs that `zip` forms: the tail of the longer
      sequence is ignored, exactly as Rust's `Iterator::zip` does. */
  function Dot(xs: seq<int>, ys: seq<int>): int
    decreases |xs|
  {
    if |xs| == 0 || |ys| == 0 then 0 else xs[0] * ys[0] + Dot(xs[1..], ys[1..])
  }

  /** `n` copies of the identity element. */
  function Zeros(n: nat): (z: seq<int>)
    ensures |z| == n
    ensures forall i :: 0 <= i < n ==> z[i] == 0
  {
    seq(n, _ => 0)
  }

  /** Coordinate-wise scalar multiple k·v. */
  function Scale(k: Scalar, v: seq<int>): (r: seq<int>)
    ensures |r| == |v|
    ensures forall i :: 0 <= i < |v| ==> r[i] == k * v[i]
  {
    seq(|v|, i requires 0 <= i < |v| => k * v[i])
  }

  /** Coordinate-wise linear combination a·u + b·v of two vectors of one dimension. */
  function Combine(a: Scalar, u: seq<int>, b: Scalar, v: seq<int>): (r: seq<int>)
    requires |u| == |v|
    ensures |r| == |u|
    ensures forall i :: 0 <= i < |u| ==> r[i] == a * u[i] + b * v[i]
  {
    seq(|u|, i requires 0 <= i < |u| => a * u[i] + b * v[i])
  }

  /** The zip-sum is linear in its first argument. */
  lemma {:induction false} DotLinear(a: Scalar, u: seq<int>, b: Scalar, v: seq<int>, w: seq<int>)
    requires |u| == |v|
    ensures Dot(Combine(a, u, b, v), w) == a * Dot(u, w) + b * Dot(v, w)
    decreases |u|
  {
    if |u| == 0 || |w| == 0 {
    } else {
      var c := Combine(a, u, b, v);
      assert c[1..] == Combine(a, u[1..], b, v[1..]);
      DotLinear(a, u[1..], b, v[1..], w[1..]);
      calc {
        Dot(c, w);
        c[0] * w[0] + Dot(c[1..], w[1..]);
        (a * u[0] + b * v[0]) * w[0] + a * Dot(u[1..], w[1..]) + b * Dot(v[1..], w[1..]);
        { MulDistrib(a, u[0], b, v[0], w[0]); }
        a * (u[0] * w[0] + Dot(u[1..], w[1..])) + b * (v[0] * w[0] + Dot(v[1..], w[1..]));
      }
    }
  }

  lemma MulDistrib(a: int, x: int, b: int, y: int, w: int)
    ensures (a * x + b * y) * w == a * (x * w) + b * (y * w)
  {
  }

  /** Scaling a vector scales its zip-sum. */
  lemma {:induction false} DotScale(k: Scalar, u: seq<int>, w: seq<int>)
    ensures Dot(Scale(k, u), w) == k * Dot(u, w)
    decreases |u|
  {
    if |u| == 0 || |w| == 0 {
    } else {
      assert Scale(k, u)[1..] == Scale(k, u[1..]);
      DotScale(k, u[1..], w[1..]);
      assert (k * u[0]) * w[0] == k * (u[0] * w[0]);
    }
  }

  /** Identity entries contribute nothing to a zip-sum, so appending them changes nothing. */
  lemma {:induction false} DotZeroTail(u: seq<int>, k: nat, w: seq<int>)
    ensures Dot(u + Zeros(k), w) == Dot(u, w)
    decreases |u|
  {
    if |u| == 0 {
      assert u + Zeros(k) == Zeros(k);
      ZerosDot(k, w);
    } else if |w| == 0 {
    } else {
      assert (u + Zeros(k))[1..] == u[1..] + Zeros(k);
      DotZeroTail(u[1..], k, w[1..]);
    }
  }

  lemma {:induction false} ZerosDot(k: nat, w: seq<int>)
    ensures Dot(Zeros(k), w) == 0
    decreases k
  {
    if k == 0 || |w| == 0 {
    } else {
      assert Zeros(k)[1..] == Zeros(k - 1);
      ZerosDot(k - 1, w[1..]);
    }
  }

  /** `zip` is symmetric, so the zip-sum is too. */
  lemma {:induction false} DotComm(u: seq<int>, w: seq<int>)
    ensures Dot(u, w) == Dot(w, u)
    decreases |u|
  {
    if |u| == 0 || |w| == 0 {
    } else {
      DotComm(u[1..], w[1..]);
    }
  }
}
