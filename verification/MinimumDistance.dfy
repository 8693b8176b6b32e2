/**
 * Why the error correction bytes correct errors: blocks of at most 255 bytes that carry different data
 * differ in more places than there are error correction bytes.
 */
module MinimumDistance {
  import opened Bits
  import opened Gf256
  import opened Polynomials
  import opened ReedSolomon

  // ---------------------------------------------------------------------------
  // Concrete sums
  // ---------------------------------------------------------------------------

  predicate DigitDiffers(a: nat, b: nat, r: nat) {
    r % 2 == 1 <==> a % 2 != b % 2
  }

  /** A check that `r` is the exclusive or of `a` and `b`, cheap to evaluate on concrete numbers. */
  predicate XorCheck(a: nat, b: nat, r: nat)
    decreases b
  {
    if b == 0 then r == a
    else if b == 8 && 8 <= a < 16 then r == a - 8
    else DigitDiffers(a, b, r) && XorCheck(a / 2, b / 2, r / 2)
  }

  lemma XorEight(a: nat)
    requires 8 <= a < 16
    ensures Xor(a, 8) == a - 8
  {
    hide Xor;
    XorSelf(1);
    XorHalves(a / 4, 2);
    XorHalves(a / 2, 4);
    XorHalves(a, 8);
  }

  lemma {:induction false} XorIs(a: nat, b: nat, r: nat)
    requires XorCheck(a, b, r)
    ensures Xor(a, b) == r
    decreases b
  {
    if b == 0 {
      XorZero(a);
    } else if b == 8 && 8 <= a < 16 {
      XorEight(a);
    } else {
      assert DigitDiffers(a, b, r) && XorCheck(a / 2, b / 2, r / 2);
      hide Xor, XorCheck;
      XorIs(a / 2, b / 2, r / 2);
      XorHalves(a, b);
    }
  }

  // ---------------------------------------------------------------------------
  // The powers of 2 are distinct and are all the non-zero bytes
  // ---------------------------------------------------------------------------

  lemma {:induction false} AlphaAdds(i: nat, j: nat)
    ensures Alpha(i + j) == Mul(Alpha(i), Alpha(j))
  {
    hide Mul;
    MulOne(Alpha(i));
    if j > 0 {
      AlphaAdds(i, j - 1);
      MulAssociates(Alpha(i), Alpha(j - 1), 2);
    }
  }

  lemma AlphaDoubles(i: nat)
    ensures Alpha(i + 1) == Xtime(Alpha(i))
  {
    MulXtimeRight(Alpha(i), 1);
    MulOne(Alpha(i));
    assert Xtime(1) == 2;
  }

  lemma AlphaNext(i: nat, x: Byte, r: Byte)
    requires Alpha(i) == x
    requires if x < 128 then r == 2 * x else XorCheck(2 * x, 285, r)
    ensures Alpha(i + 1) == r
  {
    AlphaDoubles(i);
    if x >= 128 {
      XorIs(2 * x, 285, r);
    }
  }

  lemma AlphaTo7()
    ensures Alpha(1) == 2 && Alpha(2) == 4 && Alpha(3) == 8 && Alpha(4) == 16 && Alpha(6) == 64 && Alpha(7) == 128
  {
    assert Alpha(0) == 1;
    hide Alpha;
    AlphaNext(0, 1, 2);
    AlphaNext(1, 2, 4);
    AlphaNext(2, 4, 8);
    AlphaNext(3, 8, 16);
    AlphaNext(4, 16, 32);
    AlphaNext(5, 32, 64);
    AlphaNext(6, 64, 128);
  }

  lemma AlphaTo15()
    ensures Alpha(15) == 38
  {
    hide Alpha;
    AlphaTo7();
    AlphaNext(7, 128, 29);
    AlphaNext(8, 29, 58);
    AlphaNext(9, 58, 116);
    AlphaNext(10, 116, 232);
    AlphaNext(11, 232, 205);
    AlphaNext(12, 205, 135);
    AlphaNext(13, 135, 19);
    AlphaNext(14, 19, 38);
  }

  lemma AlphaTo24()
    ensures Alpha(17) == 152 && Alpha(18) == 45 && Alpha(19) == 90 && Alpha(20) == 180 && Alpha(21) == 117
    ensures Alpha(23) == 201 && Alpha(24) == 143
  {
    hide Alpha;
    AlphaTo15();
    AlphaNext(15, 38, 76);
    AlphaNext(16, 76, 152);
    AlphaNext(17, 152, 45);
    AlphaNext(18, 45, 90);
    AlphaNext(19, 90, 180);
    AlphaNext(20, 180, 117);
    AlphaNext(21, 117, 234);
    AlphaNext(22, 234, 201);
    AlphaNext(23, 201, 143);
  }

  /** A sum of powers stays one when every exponent grows by `e`. */
  lemma AlphaSum(e: nat, i: nat, j: nat, k: nat)
    requires Alpha(k) == Add(Alpha(i), Alpha(j))
    ensures Alpha(e + k) == Add(Alpha(e + i), Alpha(e + j))
  {
    hide Alpha, Mul, Xor;
    MulAddsRight(Alpha(e), Alpha(i), Alpha(j));
    AlphaAdds(e, i);
    AlphaAdds(e, j);
    AlphaAdds(e, k);
  }

  lemma AlphaSum3(e: nat, h: nat, i: nat, j: nat, k: nat)
    requires Alpha(k) == Add(Alpha(h), Add(Alpha(i), Alpha(j)))
    ensures Alpha(e + k) == Add(Alpha(e + h), Add(Alpha(e + i), Alpha(e + j)))
  {
    hide Alpha, Mul, Xor;
    MulAddsRight(Alpha(e), Alpha(h), Add(Alpha(i), Alpha(j)));
    MulAddsRight(Alpha(e), Alpha(i), Alpha(j));
    AlphaAdds(e, h);
    AlphaAdds(e, i);
    AlphaAdds(e, j);
    AlphaAdds(e, k);
  }

  lemma Alpha34()
    ensures Alpha(34) == 78
  {
    hide Alpha, Xor;
    AlphaTo7();
    AlphaTo24();
    XorIs(16, 8, 24);
    XorIs(128, 24, 152);
    AlphaSum3(17, 7, 4, 3, 17);
    XorIs(117, 180, 193);
    XorIs(143, 193, 78);
  }

  lemma Alpha51()
    ensures Alpha(51) == 10
  {
    hide Alpha, Xor, Mul;
    AlphaTo7();
    AlphaTo24();
    Alpha34();
    XorIs(4, 2, 6);
    XorIs(8, 6, 14);
    XorIs(64, 14, 78);
    MulAddsRight(152, 64, 14);
    MulAddsRight(152, 8, 6);
    MulAddsRight(152, 4, 2);
    AlphaAdds(17, 6);
    AlphaAdds(17, 3);
    AlphaAdds(17, 2);
    AlphaAdds(17, 1);
    AlphaAdds(17, 34);
    XorIs(90, 45, 119);
    XorIs(180, 119, 195);
    XorIs(201, 195, 10);
  }

  /** The power 51 is 2 + 8, so going 51 steps on adds what lies one and three steps on. */
  lemma Plus51(e: nat, x: Byte, x1: Byte, x2: Byte, x3: Byte, r: Byte)
    requires Alpha(e) == x
    requires if x < 128 then x1 == 2 * x else XorCheck(2 * x, 285, x1)
    requires if x1 < 128 then x2 == 2 * x1 else XorCheck(2 * x1, 285, x2)
    requires if x2 < 128 then x3 == 2 * x2 else XorCheck(2 * x2, 285, x3)
    requires XorCheck(x3, x1, r)
    ensures Alpha(e + 51) == r
  {
    hide Alpha, Xor, XorCheck;
    AlphaNext(e, x, x1);
    AlphaNext(e + 1, x1, x2);
    AlphaNext(e + 2, x2, x3);
    AlphaTo7();
    Alpha51();
    XorIs(8, 2, 10) by {
      XorEightTwo();
    }
    AlphaSum(e, 3, 1, 51);
    XorIs(x3, x1, r);
  }

  lemma XorEightTwo()
    ensures XorCheck(8, 2, 10)
  {
  }

  lemma Sum85()
    ensures XorCheck(74, 156, 214)
  {
    assert XorCheck(9, 19, 26);
  }

  lemma Alpha85()
    ensures Alpha(85) == 214
  {
    hide Alpha, Xor, Mul;
    Alpha34();
    assert XorCheck(312, 285, 37);
    Sum85();
    hide XorCheck;
    Plus51(34, 78, 156, 37, 74, 214);
  }

  lemma Alpha102()
    ensures Alpha(102) == 68
  {
    hide Alpha, Xor, Mul;
    Alpha51();
    assert XorCheck(80, 20, 68);
    Plus51(51, 10, 20, 40, 80, 68);
  }

  lemma Sum153()
    ensures XorCheck(26, 136, 146)
  {
    assert XorCheck(3, 17, 18);
  }

  lemma Alpha153()
    ensures Alpha(153) == 146
  {
    hide Alpha, Xor, Mul;
    Alpha102();
    assert XorCheck(272, 285, 13);
    Sum153();
    hide XorCheck;
    Plus51(102, 68, 136, 13, 26, 146);
  }

  lemma Alpha204()
    ensures Alpha(204) == 221
  {
    hide Alpha, Xor, Mul;
    Alpha153();
    assert XorCheck(292, 285, 57);
    assert XorCheck(228, 57, 221);
    Plus51(153, 146, 57, 114, 228, 221);
  }

  lemma Alpha255()
    ensures Alpha(255) == 1
  {
    hide Alpha, Xor, Mul;
    Alpha204();
    assert XorCheck(442, 285, 167);
    assert XorCheck(334, 285, 83);
    assert XorCheck(166, 167, 1);
    Plus51(204, 221, 167, 83, 166, 1);
  }

  // ---------------------------------------------------------------------------
  // Order and inverses
  // ---------------------------------------------------------------------------

  lemma {:induction false} AlphaPeriod(d: nat, k: nat)
    requires d > 0 && Alpha(d) == 1
    ensures Alpha(k) == Alpha(k % d)
  {
    hide Alpha, Mul;
    if k >= d {
      AlphaPeriod(d, k - d);
      AlphaAdds(d, k - d);
      MulOne(Alpha(k - d));
      ModMinus(k, d);
    } else {
      DivUnique(k, d, 0, k);
    }
  }

  lemma ModMinus(k: nat, d: nat)
    requires 0 < d <= k
    ensures k % d == (k - d) % d
  {
    var q, r := (k - d) / d, (k - d) % d;
    assert k == (q + 1) * d + r;
    DivUnique(k, d, q + 1, r);
  }

  /** The least positive exponent not above `k` whose power is 1. */
  lemma {:induction false} LeastPeriod(k: nat, n: nat) returns (d: nat)
    requires 0 < n <= k && Alpha(k) == 1
    requires forall j :: 0 < j < n ==> Alpha(j) != 1
    ensures 0 < d <= k && Alpha(d) == 1
    ensures forall j :: 0 < j < d ==> Alpha(j) != 1
    decreases k - n
  {
    if Alpha(n) == 1 {
      d := n;
    } else {
      d := LeastPeriod(k, n + 1);
    }
  }

  lemma ProperDivisor(d: nat)
    requires 0 < d < 255 && 255 % d == 0
    ensures 85 % d == 0 || 51 % d == 0 || 15 % d == 0
  {
    var q := 255 / d;
    assert q * d == 255 && q > 1;
    if d <= 17 {
      assert d in {1, 2, 3, 4, 5, 6, 7, 8, 9, 10, 11, 12, 13, 14, 15, 16, 17};
    } else {
      assert q <= 14;
      assert q in {2, 3, 4, 5, 6, 7, 8, 9, 10, 11, 12, 13, 14};
    }
  }

  lemma AlphaOrder(k: nat)
    requires 0 < k < 255
    ensures Alpha(k) != 1
  {
    hide Alpha;
    if Alpha(k) == 1 {
      AlphaTo15();
      Alpha51();
      Alpha85();
      Alpha255();
      var d := LeastPeriod(k, 1);
      AlphaPeriod(d, 255);
      assert Alpha(0) == 1 by {
        AlphaAtZero();
      }
      assert 255 % d == 0;
      ProperDivisor(d);
      AlphaPeriod(d, 85);
      AlphaPeriod(d, 51);
      AlphaPeriod(d, 15);
      assert false;
    }
  }

  lemma AlphaAtZero()
    ensures Alpha(0) == 1
  {
  }

  lemma HalfIsUnique(a: Byte, b: Byte)
    ensures Xtime(a) == Xtime(b) ==> a == b
  {
    XorZero(0);
    XtimeAdds(a, b);
    AddZero(Xtime(a));
    var c := Add(a, b);
    AddCancels(a, b);
    AddZero(b);
  }

  lemma {:induction false} AlphaIsNonZero(i: nat)
    ensures Alpha(i) != 0
  {
    hide Mul;
    if i > 0 {
      AlphaIsNonZero(i - 1);
      AlphaDoubles(i - 1);
      HalfIsUnique(Alpha(i - 1), 0);
    }
  }

  lemma {:induction false} AlphaDistinct(i: nat, j: nat)
    requires i < j < 255
    ensures Alpha(i) != Alpha(j)
    decreases i
  {
    if i == 0 {
      AlphaOrder(j);
    } else {
      AlphaDistinct(i - 1, j - 1);
      AlphaDoubles(i - 1);
      AlphaDoubles(j - 1);
      HalfIsUnique(Alpha(i - 1), Alpha(j - 1));
    }
  }

  ghost function Powers(n: nat): set<nat> {
    if n == 0 then {} else Powers(n - 1) + {Alpha(n - 1)}
  }

  lemma {:induction false} PowersExponent(n: nat, x: nat) returns (i: nat)
    requires x in Powers(n)
    ensures i < n && Alpha(i) == x
  {
    hide Alpha;
    if x == Alpha(n - 1) {
      i := n - 1;
    } else {
      i := PowersExponent(n - 1, x);
    }
  }

  ghost function NonZeroBelow(n: nat): (s: set<nat>)
    ensures forall x :: x in s <==> 0 < x < n
    ensures n > 0 ==> |s| == n - 1
  {
    if n <= 1 then {} else NonZeroBelow(n - 1) + {n - 1}
  }

  lemma {:induction false} PowersCount(n: nat)
    requires n <= 255
    ensures |Powers(n)| == n && Powers(n) <= NonZeroBelow(256)
  {
    hide Alpha, NonZeroBelow;
    if n > 0 {
      PowersCount(n - 1);
      AlphaIsNonZero(n - 1);
      if Alpha(n - 1) in Powers(n - 1) {
        var i := PowersExponent(n - 1, Alpha(n - 1));
        AlphaDistinct(i, n - 1);
      }
    }
  }

  lemma SubsetOfSameSize(a: set<nat>, b: set<nat>)
    requires a <= b && |a| == |b|
    ensures a == b
  {
    var c := b - a;
    assert b == a + c;
    assert |b| == |a| + |c|;
  }

  /** Every non-zero byte is a power of 2. */
  lemma Logarithm(x: Byte) returns (k: nat)
    requires x != 0
    ensures k < 255 && Alpha(k) == x
  {
    hide Alpha;
    PowersCount(255);
    hide Powers, NonZeroBelow;
    SubsetOfSameSize(Powers(255), NonZeroBelow(256));
    assert x in Powers(255);
    k := PowersExponent(255, x);
  }

  /** GF(2^8) has no zero divisors. */
  lemma NoZeroDivisors(x: Byte, y: Byte)
    requires Mul(x, y) == 0
    ensures x == 0 || y == 0
  {
    hide Mul, Alpha;
    if x != 0 && y != 0 {
      var i := Logarithm(x);
      var j := Logarithm(y);
      AlphaAdds(i, j);
      AlphaIsNonZero(i + j);
    }
  }

  // ---------------------------------------------------------------------------
  // Sums of weighted powers: a few distinct locators admit no non-trivial relation
  // ---------------------------------------------------------------------------

  datatype Term = Term(coef: Byte, exponent: nat)

  /** The sum of coef * (2^exponent)^i. */
  function PowerSum(ts: seq<Term>, i: nat): Byte {
    if ts == [] then 0
    else Add(PowerSum(ts[..|ts| - 1], i), Mul(ts[|ts| - 1].coef, Alpha(ts[|ts| - 1].exponent * i)))
  }

  ghost predicate DistinctLocators(ts: seq<Term>) {
    && (forall j :: 0 <= j < |ts| ==> ts[j].exponent < 255)
    && (forall j, k :: 0 <= j < k < |ts| ==> ts[j].exponent != ts[k].exponent)
  }

  /** Each coefficient times its locator minus the locator 2^e. */
  function Eliminate(ts: seq<Term>, e: nat): (r: seq<Term>)
    ensures |r| == |ts|
  {
    seq(|ts|, j requires 0 <= j < |ts| =>
      Term(Mul(ts[j].coef, Add(Alpha(ts[j].exponent), Alpha(e))), ts[j].exponent))
  }

  lemma {:induction false} EliminateSum(ts: seq<Term>, e: nat, i: nat)
    ensures PowerSum(Eliminate(ts, e), i) == Add(PowerSum(ts, i + 1), Mul(Alpha(e), PowerSum(ts, i)))
  {
    hide Mul, Alpha, Xor;
    if ts == [] {
      MulCommutes(Alpha(e), 0);
      MulZero(Alpha(e));
      AddZero(0);
    } else {
      var n := |ts| - 1;
      var head, t := ts[..n], ts[n];
      EliminateSum(head, e, i);
      assert Eliminate(ts, e)[..n] == Eliminate(head, e);
      var x, y := Alpha(t.exponent), Alpha(t.exponent * i);
      calc {
        Mul(Mul(t.coef, Add(x, Alpha(e))), y);
        { MulAddsRight(t.coef, x, Alpha(e)); }
        Mul(Add(Mul(t.coef, x), Mul(t.coef, Alpha(e))), y);
        { MulAddsLeft(Mul(t.coef, x), Mul(t.coef, Alpha(e)), y); }
        Add(Mul(Mul(t.coef, x), y), Mul(Mul(t.coef, Alpha(e)), y));
        { MulAssociates(t.coef, x, y); AlphaAdds(t.exponent, t.exponent * i);
          assert t.exponent + t.exponent * i == t.exponent * (i + 1); }
        Add(Mul(t.coef, Alpha(t.exponent * (i + 1))), Mul(Mul(t.coef, Alpha(e)), y));
        { MulCommutes(t.coef, Alpha(e)); MulAssociates(Alpha(e), t.coef, y); }
        Add(Mul(t.coef, Alpha(t.exponent * (i + 1))), Mul(Alpha(e), Mul(t.coef, y)));
      }
      MulAddsRight(Alpha(e), PowerSum(head, i), Mul(t.coef, y));
      AddSwap(PowerSum(head, i + 1), Mul(Alpha(e), PowerSum(head, i)),
              Mul(t.coef, Alpha(t.exponent * (i + 1))), Mul(Alpha(e), Mul(t.coef, y)));
    }
  }

  /** If as many power sums vanish as there are terms, every coefficient is zero. */
  lemma {:induction false} NoRelation(ts: seq<Term>)
    requires DistinctLocators(ts)
    requires forall i :: 0 <= i < |ts| ==> PowerSum(ts, i) == 0
    ensures forall j :: 0 <= j < |ts| ==> ts[j].coef == 0
    decreases |ts|
  {
    hide Mul, Alpha, Xor;
    if ts != [] {
      var n := |ts| - 1;
      var head, t := ts[..n], ts[n];
      var reduced := Eliminate(head, t.exponent);
      forall i | 0 <= i < n
        ensures PowerSum(reduced, i) == 0
      {
        EliminateLast(ts, i);
      }
      NoRelation(reduced);
      forall j | 0 <= j < n
        ensures ts[j].coef == 0
      {
        var a, b := ts[j].exponent, t.exponent;
        assert reduced[j].coef == 0;
        NoZeroDivisors(ts[j].coef, Add(Alpha(a), Alpha(b)));
        AlphaDistinct(if a < b then a else b, if a < b then b else a);
        if Add(Alpha(a), Alpha(b)) == 0 {
          AddCancels(Alpha(a), Alpha(b));
          AddZero(Alpha(b));
        }
      }
      AllZeroSum(head, 0);
      assert PowerSum(ts, 0) == 0;
      AddZero(Mul(t.coef, Alpha(t.exponent * 0)));
      AlphaIsNonZero(t.exponent * 0);
      NoZeroDivisors(t.coef, Alpha(t.exponent * 0));
    }
  }

  lemma EliminateLast(ts: seq<Term>, i: nat)
    requires ts != [] && PowerSum(ts, i) == 0 && PowerSum(ts, i + 1) == 0
    ensures PowerSum(Eliminate(ts[..|ts| - 1], ts[|ts| - 1].exponent), i) == 0
  {
    hide Mul, Alpha, Xor;
    var n := |ts| - 1;
    var e := ts[n].exponent;
    EliminateSum(ts, e, i);
    var all := Eliminate(ts, e);
    assert all[..n] == Eliminate(ts[..n], e);
    MulCommutes(Alpha(e), 0);
    MulZero(Alpha(e));
    AddZero(0);
    AddZero(Alpha(e));
    MulCommutes(ts[n].coef, 0);
    MulZero(ts[n].coef);
    MulZero(Alpha(e * i));
    AddZero(PowerSum(all[..n], i));
  }

  lemma {:induction false} AllZeroSum(ts: seq<Term>, i: nat)
    requires forall j :: 0 <= j < |ts| ==> ts[j].coef == 0
    ensures PowerSum(ts, i) == 0
  {
    hide Mul, Alpha;
    if ts != [] {
      var n := |ts| - 1;
      AllZeroSum(ts[..n], i);
      MulZero(Alpha(ts[n].exponent * i));
      AddZero(0);
    }
  }

  // ---------------------------------------------------------------------------
  // The distance of the code
  // ---------------------------------------------------------------------------

  /** The non-zero coefficients of `p * X^shift` with their exponents. */
  function Support(p: Poly, shift: nat): (ts: seq<Term>)
    ensures |ts| <= |p|
    ensures forall t :: t in ts ==> t.coef != 0 && shift <= t.exponent < shift + |p|
  {
    if p == [] then []
    else
      var n := |p| - 1;
      var head := Support(p[..n], shift + 1);
      if p[n] == 0 then head else head + [Term(p[n], shift)]
  }

  /** The number of places in which two blocks of equal length differ. */
  function Distance(p: Poly, q: Poly): (d: nat)
    requires |p| == |q|
  {
    if p == [] then 0
    else Distance(p[..|p| - 1], q[..|q| - 1]) + (if p[|p| - 1] == q[|q| - 1] then 0 else 1)
  }

  lemma {:induction false} SupportDistinct(p: Poly, shift: nat)
    requires shift + |p| <= 255
    ensures DistinctLocators(Support(p, shift))
  {
    if p != [] {
      SupportDistinct(p[..|p| - 1], shift + 1);
    }
  }

  lemma {:induction false} SupportSize(p: Poly, q: Poly, shift: nat)
    requires |p| == |q|
    ensures |Support(AddPoly(p, q), shift)| == Distance(p, q)
  {
    if p != [] {
      var n := |p| - 1;
      SupportSize(p[..n], q[..n], shift + 1);
      assert AddPoly(p, q)[..n] == AddPoly(p[..n], q[..n]);
      AddZero(p[n]);
      AddCancels(p[n], q[n]);
      AddZero(q[n]);
    }
  }

  lemma {:induction false} SupportSum(p: Poly, shift: nat, i: nat)
    ensures PowerSum(Support(p, shift), i) == Mul(Eval(p, Alpha(i)), Alpha(shift * i))
  {
    hide Mul, Alpha, Xor;
    if p == [] {
      MulZero(Alpha(shift * i));
    } else {
      var n := |p| - 1;
      var head := Support(p[..n], shift + 1);
      SupportSum(p[..n], shift + 1, i);
      var e := Eval(p[..n], Alpha(i));
      assert (shift + 1) * i == i + shift * i;
      AlphaAdds(i, shift * i);
      MulAssociates(e, Alpha(i), Alpha(shift * i));
      MulAddsLeft(Mul(e, Alpha(i)), p[n], Alpha(shift * i));
      if p[n] == 0 {
        MulZero(Alpha(shift * i));
        AddZero(PowerSum(head, i));
      } else {
        assert (head + [Term(p[n], shift)])[..|head|] == head;
      }
    }
  }

  lemma {:induction false} ZeroDistance(p: Poly, q: Poly)
    requires |p| == |q| && Distance(p, q) == 0
    ensures p == q
  {
    if p != [] {
      ZeroDistance(p[..|p| - 1], q[..|q| - 1]);
    }
  }

  function Block(data: Poly, degree: nat): (b: Poly)
    requires degree > 0
    ensures |b| == |data| + degree
  {
    data + Remainder(data, Generator(degree)[1..])
  }

  lemma CloseBlocksAgree(data1: Poly, data2: Poly, degree: nat)
    requires degree > 0 && |data1| == |data2| && |data1| + degree <= 255
    requires Distance(Block(data1, degree), Block(data2, degree)) <= degree
    ensures data1 == data2
  {
    hide Mul, Alpha, Xor, Generator, Remainder, Eval, PowerSum, Support, Distance;
    var c1, c2 := Block(data1, degree), Block(data2, degree);
    var c := AddPoly(c1, c2);
    var ts := Support(c, 0);
    SupportSize(c1, c2, 0);
    SupportDistinct(c, 0);
    forall i | 0 <= i < |ts|
      ensures PowerSum(ts, i) == 0
    {
      SupportSum(c, 0, i);
      EvalAdds(c1, c2, Alpha(i));
      CodewordVanishes(data1, degree, i);
      CodewordVanishes(data2, degree, i);
      AddZero(0);
      MulZero(Alpha(0 * i));
    }
    assert ts != [] ==> ts[0] in ts && ts[0].coef != 0;
    NoRelation(ts);
    ZeroDistance(c1, c2);
    assert data1 == c1[..|data1|] && data2 == c2[..|data1|];
  }

  /** Blocks of at most 255 bytes with different data differ in more than `degree` places. */
  lemma MinimumDistance(data1: Poly, data2: Poly, degree: nat)
    requires degree > 0 && |data1| == |data2| && |data1| + degree <= 255
    requires data1 != data2
    ensures Distance(Block(data1, degree), Block(data2, degree)) > degree
  {
    if Distance(Block(data1, degree), Block(data2, degree)) <= degree {
      CloseBlocksAgree(data1, data2, degree);
    }
  }

  /** Two blocks that each differ from what was read in at most half of `degree` places carry the same data. */
  lemma UniqueDecoding(read: Poly, data1: Poly, data2: Poly, degree: nat)
    requires degree > 0 && |data1| == |data2| && |data1| + degree <= 255
    requires |read| == |data1| + degree
    requires 2 * Distance(read, Block(data1, degree)) <= degree
    requires 2 * Distance(read, Block(data2, degree)) <= degree
    ensures data1 == data2
  {
    Triangle(Block(data1, degree), read, Block(data2, degree));
    DistanceCommutes(read, Block(data1, degree));
    CloseBlocksAgree(data1, data2, degree);
  }

  lemma {:induction false} Triangle(p: Poly, q: Poly, r: Poly)
    requires |p| == |q| == |r|
    ensures Distance(p, r) <= Distance(p, q) + Distance(q, r)
  {
    if p != [] {
      Triangle(p[..|p| - 1], q[..|q| - 1], r[..|r| - 1]);
    }
  }

  lemma {:induction false} DistanceCommutes(p: Poly, q: Poly)
    requires |p| == |q|
    ensures Distance(p, q) == Distance(q, p)
  {
    if p != [] {
      DistanceCommutes(p[..|p| - 1], q[..|q| - 1]);
    }
  }
}
