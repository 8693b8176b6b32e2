/** Reed-Solomon codewords (section 7.5.2 of ISO/IEC 18004:2015). */
module ReedSolomon {
  import opened Bits
  import opened Gf256
  import opened Polynomials

  /** The powers of the primitive element 2. */
  function Alpha(i: nat): Byte {
    if i == 0 then 1 else Mul(Alpha(i - 1), 2)
  }

  /** The product of x - 2^i for i below `degree`. */
  function Generator(degree: nat): (g: Poly)
    ensures |g| == degree + 1
  {
    if degree == 0 then [1] else MulPoly(Generator(degree - 1), [1, Alpha(degree - 1)])
  }

  ghost predicate IsMultiple(p: Poly, g: Poly)
    requires g != []
  {
    exists q: Poly :: p == MulPoly(q, g)
  }

  // ---------------------------------------------------------------------------
  // The generator polynomial
  // ---------------------------------------------------------------------------

  lemma {:induction false} GeneratorIsMonic(degree: nat)
    ensures Generator(degree)[0] == 1
  {
    hide Mul, Xor;
    if degree > 0 {
      GeneratorIsMonic(degree - 1);
      MulLinearAt(Generator(degree - 1), Alpha(degree - 1), 0);
      AddZero(1);
    }
  }

  lemma {:induction false} GeneratorVanishes(degree: nat, i: nat)
    requires i < degree
    ensures Eval(Generator(degree), Alpha(i)) == 0
  {
    hide Mul, Xor;
    var r := Alpha(degree - 1);
    var f: Poly := [1, r];
    EvalMultiplies(Generator(degree - 1), f, Alpha(i));
    if i < degree - 1 {
      GeneratorVanishes(degree - 1, i);
      MulZero(Eval(f, Alpha(i)));
    } else {
      assert f[..1] == [1];
      calc {
        Eval(f, r);
        Add(Mul(Eval([1], r), r), r);
        { MulZero(r); AddZero(1); assert [1][..0] == []; }
        Add(Mul(1, r), r);
        { MulOne(r); AddZero(r); }
        0;
      }
      MulCommutes(Eval(Generator(degree - 1), r), 0);
      MulZero(Eval(Generator(degree - 1), r));
    }
  }

  /** The working array of length `n` after `i` rounds: the product so far, aligned right and cut off left. */
  ghost predicate HoldsProduct(a: seq<Byte>, i: nat) {
    i <= |a| && forall j :: 0 <= j < |a| ==> a[j] == ProductCell(|a|, i, j)
  }

  function ProductCell(n: nat, i: nat, j: nat): Byte
    requires i <= n && j < n
  {
    if j < n - 1 - i then 0 else Generator(i)[j - (n - 1 - i)]
  }

  lemma ProductCellStep(n: nat, i: nat, j: nat)
    requires i < n && j < n
    ensures ProductCell(n, i + 1, j) ==
            Add(Mul(ProductCell(n, i, j), Alpha(i)), if j + 1 < n then ProductCell(n, i, j + 1) else 0)
  {
    hide Mul, Xor, Alpha;
    MulZero(Alpha(i));
    AddZero(0);
    if j >= n - 2 - i {
      MulLinearAt(Generator(i), Alpha(i), j - (n - 2 - i));
    }
  }

  method RsComputeDivisor(degree: nat) returns (result: array<Byte>)
    requires degree >= 1
    ensures fresh(result)
    ensures result[..] == Generator(degree)[1..]
  {
    result := new Byte[degree](_ => 0);
    result[degree - 1] := 1;
    var root: Byte := 1;
    for i := 0 to degree
      invariant root == Alpha(i)
      invariant HoldsProduct(result[..], i)
    {
      MultiplyByRoot(result, root, i);
      root := GfMultiply(root, 2);
    }
  }

  /** The inner loop: one pass from left to right, each cell reading its neighbour before that changes. */
  method MultiplyByRoot(result: array<Byte>, root: Byte, ghost i: nat)
    requires i < result.Length && root == Alpha(i)
    requires HoldsProduct(result[..], i)
    modifies result
    ensures HoldsProduct(result[..], i + 1)
  {
    hide Mul, Xor, Alpha, Generator, ProductCell;
    ghost var before := result[..];
    for j := 0 to result.Length
      invariant result[j..] == before[j..]
      invariant forall k :: 0 <= k < j ==> result[k] == ProductCell(result.Length, i + 1, k)
    {
      assert result[j] == before[j] && (j + 1 < result.Length ==> result[j + 1] == before[j + 1]);
      ProductCellStep(result.Length, i, j);
      var m := GfMultiply(result[j], root);
      AddZero(m);
      result[j] := m;
      if j + 1 < result.Length {
        result[j] := Add(result[j], result[j + 1]);
      }
    }
  }

  // ---------------------------------------------------------------------------
  // The remainder
  // ---------------------------------------------------------------------------

  /** The register after one data byte, and the quotient digit it produced. */
  function Factor(rem: Poly, b: Byte): Byte
    requires rem != []
  {
    Add(b, rem[0])
  }

  function Shifted(rem: Poly, b: Byte, divisor: Poly): (r: Poly)
    requires |rem| == |divisor| > 0
    ensures |r| == |divisor|
  {
    AddPoly(rem[1..] + [0], Scale(Factor(rem, b), divisor))
  }

  function Remainder(data: Poly, divisor: Poly): (r: Poly)
    requires divisor != []
    ensures |r| == |divisor|
  {
    if data == [] then Zeros(|divisor|)
    else Shifted(Remainder(data[..|data| - 1], divisor), data[|data| - 1], divisor)
  }

  function Quotient(data: Poly, divisor: Poly): (q: Poly)
    requires divisor != []
    ensures |q| == |data|
  {
    if data == [] then []
    else
      var d := data[..|data| - 1];
      Quotient(d, divisor) + [Factor(Remainder(d, divisor), data[|data| - 1])]
  }

  method RsComputeRemainder(data: seq<Byte>, divisor: array<Byte>) returns (result: seq<Byte>)
    requires divisor.Length > 0
    ensures result == Remainder(data, divisor[..])
  {
    var n := divisor.Length;
    result := Zeros(n);
    assert data[..0] == [];
    for d := 0 to |data|
      invariant result == Remainder(data[..d], divisor[..])
    {
      assert data[..d + 1][..d] == data[..d];
      ghost var before := result;
      var factor := Add(data[d], result[0]);
      result := result[1..] + [0];
      for i := 0 to n
        invariant |result| == n
        invariant forall k :: i <= k < n ==> result[k] == (before[1..] + [0])[k]
        invariant forall k :: 0 <= k < i ==> result[k] == Shifted(before, data[d], divisor[..])[k]
      {
        var m := GfMultiply(divisor[i], factor);
        MulCommutes(divisor[i], factor);
        result := result[i := Add(result[i], m)];
      }
      assert result == Shifted(before, data[d], divisor[..]);
    }
    assert data[..|data|] == data;
  }

  /** One step of long division adds a multiple of the monic divisor. */
  lemma DivisionStep(d: Poly, b: Byte, rem: Poly, divisor: Poly)
    requires |rem| == |divisor| > 0
    ensures d + [b] + Shifted(rem, b, divisor) ==
            AddPoly(d + rem + [0], Zeros(|d|) + Scale(Factor(rem, b), [1] + divisor))
  {
    hide Mul, Add;
    var n, f, g := |d|, Factor(rem, b), [1] + divisor;
    var left := d + [b] + Shifted(rem, b, divisor);
    var shifted, added := d + rem + [0], Zeros(n) + Scale(f, g);
    forall k | 0 <= k < |left|
      ensures left[k] == Add(shifted[k], added[k])
    {
      if k < n {
        AddZero(d[k]);
      } else if k == n {
        MulOne(f);
        AddCommutes(b, rem[0]);
        AddCancels(b, rem[0]);
      } else {
        assert shifted[k] == (rem[1..] + [0])[k - n - 1];
      }
    }
  }

  /** Long division: data followed by its remainder is the quotient times the divisor. */
  lemma {:induction false} DivisionIdentity(data: Poly, divisor: Poly)
    requires divisor != []
    ensures data + Remainder(data, divisor) == MulPoly(Quotient(data, divisor), [1] + divisor)
  {
    hide Mul, Add, Alpha, Generator, Eval, Scale, Shifted, AddPoly;
    if data != [] {
      var n := |data| - 1;
      var d, b := data[..n], data[n];
      var rem := Remainder(d, divisor);
      DivisionIdentity(d, divisor);
      var q := Quotient(data, divisor);
      assert q[..n] == Quotient(d, divisor) && q[n] == Factor(rem, b);
      DivisionStep(d, b, rem, divisor);
      assert d + [b] == data;
    }
  }

  /** What the error correction bytes are for: a block is a multiple of the generator and has its roots. */
  lemma CodewordVanishes(data: Poly, degree: nat, i: nat)
    requires i < degree
    ensures var block := data + Remainder(data, Generator(degree)[1..]);
            IsMultiple(block, Generator(degree)) && Eval(block, Alpha(i)) == 0
  {
    var g := Generator(degree);
    GeneratorIsMonic(degree);
    assert [1] + g[1..] == g;
    var q := Quotient(data, g[1..]);
    DivisionIdentity(data, g[1..]);
    EvalMultiplies(q, g, Alpha(i));
    GeneratorVanishes(degree, i);
    MulCommutes(Eval(q, Alpha(i)), 0);
    MulZero(Eval(q, Alpha(i)));
  }
}
