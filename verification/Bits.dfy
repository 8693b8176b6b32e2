/** Bit operations on the non-negative integers that the encoder stores in JavaScript numbers. */
module Bits {

  type Byte = n: nat | n < 256

  /** `x >>> i` */
  function Shr(x: nat, i: nat): nat {
    if i == 0 then x else Shr(x / 2, i - 1)
  }

  /** `1 << i` */
  function Pow2(i: nat): (p: nat)
    ensures p > 0
  {
    if i == 0 then 1 else 2 * Pow2(i - 1)
  }

  /** `((x >>> i) & 1) !== 0` */
  predicate GetBit(x: nat, i: nat) {
    Shr(x, i) % 2 == 1
  }

  /** `a ^ b` */
  function Xor(a: nat, b: nat): nat
    decreases a + b
  {
    if a == 0 && b == 0 then 0 else (if a % 2 == b % 2 then 0 else 1) + 2 * Xor(a / 2, b / 2)
  }

  function BitVal(b: bool): nat {
    if b then 1 else 0
  }

  /** The `len` low bits of `val`, most significant first. */
  function ToBits(val: nat, len: nat): (s: seq<bool>)
    ensures |s| == len
  {
    if len == 0 then [] else ToBits(val / 2, len - 1) + [val % 2 == 1]
  }

  /** The number whose binary digits are `s`, most significant first. */
  function FromBits(s: seq<bool>): nat {
    if s == [] then 0 else 2 * FromBits(s[..|s| - 1]) + BitVal(s[|s| - 1])
  }

  // ---------------------------------------------------------------------------
  // Exclusive or
  // ---------------------------------------------------------------------------

  lemma {:induction false} XorZero(a: nat)
    ensures Xor(a, 0) == a
    ensures Xor(0, a) == a
  {
    if a != 0 {
      XorZero(a / 2);
    }
  }

  lemma {:induction false} XorSelf(a: nat)
    ensures Xor(a, a) == 0
  {
    if a != 0 {
      XorSelf(a / 2);
    }
  }

  lemma {:induction false} XorCommutes(a: nat, b: nat)
    ensures Xor(a, b) == Xor(b, a)
    decreases a + b
  {
    if a != 0 || b != 0 {
      XorCommutes(a / 2, b / 2);
    }
  }

  lemma {:induction false} XorHalves(a: nat, b: nat)
    ensures Xor(a, b) / 2 == Xor(a / 2, b / 2)
    ensures Xor(a, b) % 2 == 0 <==> a % 2 == b % 2
  {
  }

  lemma {:induction false} XorAssociates(a: nat, b: nat, c: nat)
    ensures Xor(Xor(a, b), c) == Xor(a, Xor(b, c))
    decreases a + b + c
  {
    if a + b + c != 0 {
      XorHalves(a, b);
      XorHalves(b, c);
      XorHalves(Xor(a, b), c);
      XorHalves(a, Xor(b, c));
      XorAssociates(a / 2, b / 2, c / 2);
    }
  }

  lemma {:induction false} XorShr(a: nat, b: nat, i: nat)
    ensures Shr(Xor(a, b), i) == Xor(Shr(a, i), Shr(b, i))
  {
    if i > 0 {
      XorHalves(a, b);
      XorShr(a / 2, b / 2, i - 1);
    }
  }

  lemma {:induction false} ShrBelow(x: nat, i: nat)
    ensures Shr(x, i) == 0 <==> x < Pow2(i)
  {
    if i > 0 {
      ShrBelow(x / 2, i - 1);
    }
  }

  lemma {:induction false} ShrAdd(x: nat, i: nat, j: nat)
    ensures Shr(Shr(x, i), j) == Shr(x, i + j)
  {
    if i > 0 {
      ShrAdd(x / 2, i - 1, j);
    }
  }

  lemma {:induction false} ShrDiv(x: nat, i: nat)
    ensures Shr(x, i) == x / Pow2(i)
  {
    if i > 0 {
      ShrDiv(x / 2, i - 1);
      var p := Pow2(i - 1);
      assert Shr(x, i) == x / 2 / p && Pow2(i) == 2 * p;
      hide Shr, Pow2;
      HalveTwice(x, p);
    }
  }

  lemma HalveTwice(x: nat, p: nat)
    requires p > 0
    ensures x / 2 / p == x / (2 * p)
  {
    var half := x / 2;
    var q, r := half / p, half % p;
    assert half == q * p + r;
    assert 2 * half == q * (2 * p) + 2 * r;
    DivUnique(x, 2 * p, q, 2 * r + x % 2);
  }

  lemma HalfOf(n: nat, b: nat)
    requires b < 2
    ensures (2 * n + b) / 2 == n && (2 * n + b) % 2 == b
  {
  }

  /** Doubling both numbers doubles their exclusive or. */
  lemma XorDouble(a: nat, b: nat)
    ensures Xor(2 * a, 2 * b) == 2 * Xor(a, b)
  {
    hide Xor;
    HalfOf(a, 0);
    HalfOf(b, 0);
    XorHalves(2 * a, 2 * b);
  }

  lemma MulMonotone(a: int, b: int, c: nat)
    ensures a <= b ==> a * c <= b * c
  {
    if a <= b {
      assert b * c == a * c + (b - a) * c;
    }
  }

  lemma DivUnique(x: int, d: nat, q: int, r: int)
    requires x == q * d + r && 0 <= r < d
    ensures x / d == q && x % d == r
  {
    var q', r' := x / d, x % d;
    assert x == q' * d + r';
    MulMonotone(q' + 1, q, d);
    MulMonotone(q + 1, q', d);
    assert (q' + 1) * d == q' * d + d && (q + 1) * d == q * d + d;
  }

  lemma DivAtLeast(x: int, d: nat, q: int)
    requires d > 0 && q * d <= x
    ensures x / d >= q
  {
    assert x == x / d * d + x % d;
    MulMonotone(x / d + 1, q, d);
    assert (x / d + 1) * d == x / d * d + d;
  }

  lemma DivBelow(x: int, d: nat, q: int)
    requires d > 0 && x < q * d
    ensures x / d < q
  {
    assert x == x / d * d + x % d;
    MulMonotone(q, x / d, d);
  }

  /** Two numbers below a power of two stay below it. */
  lemma XorBelow(a: nat, b: nat, i: nat)
    requires a < Pow2(i) && b < Pow2(i)
    ensures Xor(a, b) < Pow2(i)
  {
    ShrBelow(a, i);
    ShrBelow(b, i);
    XorShr(a, b, i);
    ShrBelow(Xor(a, b), i);
  }

  lemma XorCancels(a: nat, b: nat)
    ensures Xor(Xor(a, b), b) == a
  {
    XorAssociates(a, b, b);
    XorSelf(b);
    XorZero(a);
  }

  // ---------------------------------------------------------------------------
  // Binary digits
  // ---------------------------------------------------------------------------

  /** Reading back the low `len` bits of a number that fits gives the number. */
  lemma {:induction false} FromToBits(val: nat, len: nat)
    requires val < Pow2(len)
    ensures FromBits(ToBits(val, len)) == val
  {
    if len > 0 {
      var s := ToBits(val, len);
      assert s == ToBits(val / 2, len - 1) + [val % 2 == 1] && Pow2(len) == 2 * Pow2(len - 1);
      hide ToBits, Pow2;
      FromToBits(val / 2, len - 1);
      assert s[..len - 1] == ToBits(val / 2, len - 1) && s[len - 1] == (val % 2 == 1);
    }
  }

  lemma {:induction false} ToFromBits(s: seq<bool>)
    ensures FromBits(s) < Pow2(|s|)
    ensures ToBits(FromBits(s), |s|) == s
  {
    if s != [] {
      var m := |s| - 1;
      ToFromBits(s[..m]);
      var n, v, bit := FromBits(s[..m]), FromBits(s), BitVal(s[m]);
      assert v == 2 * n + bit && Pow2(|s|) == 2 * Pow2(m);
      hide FromBits, Pow2;
      HalfOf(n, bit);
      assert s[..m] + [s[m]] == s;
    }
  }

  /** `ToBits` lists the bits that `GetBit` reads. */
  lemma {:induction false} ToBitsAt(val: nat, len: nat, k: nat)
    requires k < len
    ensures ToBits(val, len)[k] == GetBit(val, len - 1 - k)
  {
    if k < len - 1 {
      ToBitsAt(val / 2, len - 1, k);
    }
  }
}
