/** Polynomials over GF(2^8): sequences of coefficients, highest power first. */
module Polynomials {
  import opened Bits
  import opened Gf256

  type Poly = seq<Byte>

  function Zeros(n: nat): (z: Poly)
    ensures |z| == n
  {
    seq(n, _ => 0)
  }

  function AddPoly(p: Poly, q: Poly): (r: Poly)
    requires |p| == |q|
    ensures |r| == |p|
  {
    seq(|p|, i requires 0 <= i < |p| => Add(p[i], q[i]))
  }

  function Scale(c: Byte, p: Poly): (r: Poly)
    ensures |r| == |p|
  {
    seq(|p|, i requires 0 <= i < |p| => Mul(c, p[i]))
  }

  /** The schoolbook product: shift, then add a multiple of `g`, for each coefficient of `q` in turn. */
  function MulPoly(q: Poly, g: Poly): (r: Poly)
    requires g != []
    ensures |r| == |q| + |g| - 1
  {
    if q == [] then Zeros(|g| - 1)
    else
      var n := |q| - 1;
      AddPoly(MulPoly(q[..n], g) + [0], Zeros(n) + Scale(q[n], g))
  }

  /** Horner evaluation. */
  function Eval(p: Poly, x: Byte): Byte {
    if p == [] then 0 else Add(Mul(Eval(p[..|p| - 1], x), x), p[|p| - 1])
  }

  // ---------------------------------------------------------------------------
  // Evaluation is a ring homomorphism
  // ---------------------------------------------------------------------------

  lemma EvalSnoc(p: Poly, c: Byte, x: Byte)
    ensures Eval(p + [c], x) == Add(Mul(Eval(p, x), x), c)
  {
    assert (p + [c])[..|p|] == p;
  }

  lemma {:induction false} EvalZeros(n: nat, p: Poly, x: Byte)
    ensures Eval(Zeros(n) + p, x) == Eval(p, x)
    decreases n + |p|
  {
    MulZero(x);
    AddZero(0);
    if p != [] {
      var m := |p| - 1;
      EvalZeros(n, p[..m], x);
      assert Zeros(n) + p == (Zeros(n) + p[..m]) + [p[m]];
      EvalSnoc(Zeros(n) + p[..m], p[m], x);
    } else if n > 0 {
      EvalZeros(n - 1, [], x);
      assert Zeros(n) + [] == (Zeros(n - 1) + []) + [0];
      EvalSnoc(Zeros(n - 1) + [], 0, x);
    }
  }

  lemma {:induction false} EvalAdds(p: Poly, q: Poly, x: Byte)
    requires |p| == |q|
    ensures Eval(AddPoly(p, q), x) == Add(Eval(p, x), Eval(q, x))
  {
    AddZero(0);
    if p != [] {
      var n := |p| - 1;
      EvalAdds(p[..n], q[..n], x);
      assert AddPoly(p, q)[..n] == AddPoly(p[..n], q[..n]);
      var a, b := Eval(p[..n], x), Eval(q[..n], x);
      MulAddsLeft(a, b, x);
      AddSwap(Mul(a, x), Mul(b, x), p[n], q[n]);
    }
  }

  lemma {:induction false} EvalScales(c: Byte, p: Poly, x: Byte)
    ensures Eval(Scale(c, p), x) == Mul(c, Eval(p, x))
  {
    if p == [] {
      MulCommutes(c, 0);
      MulZero(c);
    } else {
      var n := |p| - 1;
      EvalScales(c, p[..n], x);
      assert Scale(c, p)[..n] == Scale(c, p[..n]);
      var a := Eval(p[..n], x);
      MulAssociates(c, a, x);
      MulAddsRight(c, Mul(a, x), p[n]);
    }
  }

  lemma {:induction false} EvalMultiplies(q: Poly, g: Poly, x: Byte)
    requires g != []
    ensures Eval(MulPoly(q, g), x) == Mul(Eval(q, x), Eval(g, x))
  {
    if q == [] {
      EvalZeros(|g| - 1, [], x);
      assert Zeros(|g| - 1) + [] == Zeros(|g| - 1);
      MulZero(Eval(g, x));
    } else {
      var n := |q| - 1;
      var e, a := Eval(g, x), Eval(q[..n], x);
      var p := MulPoly(q[..n], g);
      EvalMultiplies(q[..n], g, x);
      EvalAdds(p + [0], Zeros(n) + Scale(q[n], g), x);
      EvalSnoc(p, 0, x);
      EvalZeros(n, Scale(q[n], g), x);
      EvalScales(q[n], g, x);
      AddZero(Mul(Mul(a, e), x));
      MulAssociates(a, e, x);
      MulCommutes(e, x);
      MulAssociates(a, x, e);
      MulAddsLeft(Mul(a, x), q[n], e);
    }
  }

  /** Multiplying by a linear factor, coefficient by coefficient. */
  lemma {:induction false} MulLinearAt(p: Poly, r: Byte, k: nat)
    requires k <= |p|
    ensures MulPoly(p, [1, r])[k] ==
            Add(if k > 0 then Mul(p[k - 1], r) else 0, if k < |p| then p[k] else 0)
  {
    hide Mul, Xor;
    AddZero(0);
    if p != [] {
      var n := |p| - 1;
      var q := MulPoly(p[..n], [1, r]);
      var s := Scale(p[n], [1, r]);
      assert s == [Mul(p[n], 1), Mul(p[n], r)];
      MulOne(p[n]);
      if k <= n {
        MulLinearAt(p[..n], r, k);
        AddZero(q[k]);
        if k == n {
          AddZero(if k > 0 then Mul(p[k - 1], r) else 0);
        }
      } else {
        AddZero(Mul(p[n], r));
      }
    }
  }
}
