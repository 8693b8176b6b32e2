/** The field GF(2^8) with reduction polynomial 0x11d (section 7.5.2 of ISO/IEC 18004:2015). */
module Gf256 {
  import opened Bits

  function Add(a: Byte, b: Byte): Byte {
    XorBelow(a, b, 8);
    Xor(a, b)
  }

  lemma ShrSeven(x: nat)
    ensures Shr(x, 7) == x / 128
    ensures Shr(x, 8) == x / 256
  {
    ShrDiv(x, 7);
    ShrDiv(x, 8);
    assert Pow2(7) == 128 && Pow2(8) == 256;
  }

  lemma ReduceBelow(x: nat)
    requires 128 <= x < 256
    ensures Xor(2 * x, 0x11d) < 256
  {
    XorShr(2 * x, 0x11d, 8);
    ShrSeven(2 * x);
    ShrSeven(0x11d);
    assert Xor(1, 1) == 0;
    ShrBelow(Xor(2 * x, 0x11d), 8);
  }

  /** Multiplication by the indeterminate. */
  function Xtime(x: Byte): Byte {
    if x < 128 then 2 * x else ReduceBelow(x); Xor(2 * x, 0x11d)
  }

  /** The sum of x * X^i over the binary digits i of y. */
  function Mul(x: Byte, y: nat): Byte
    decreases y
  {
    if y == 0 then 0 else Add(if y % 2 == 1 then x else 0, Mul(Xtime(x), y / 2))
  }

  /** The loop keeps `z` equal to the product with the high bits of `y` read so far. */
  method GfMultiply(x: Byte, y: Byte) returns (r: Byte)
    ensures r == Mul(x, y)
  {
    hide Mul, Xor, Shr;
    var z: nat := 0;
    var i := 7;
    MulLoopEnds(x, y);
    while i >= 0
      invariant -1 <= i <= 7
      invariant z == Mul(x, Shr(y, i + 1))
    {
      MulLoopStep(x, y, i);
      z := Xor(2 * z, Shr(z, 7) * 0x11d);
      z := Xor(z, Shr(y, i) % 2 * x);
      i := i - 1;
    }
    r := z % 256;
  }

  // ---------------------------------------------------------------------------
  // Addition
  // ---------------------------------------------------------------------------

  lemma AddCommutes(a: Byte, b: Byte)
    ensures Add(a, b) == Add(b, a)
  {
    XorCommutes(a, b);
  }

  lemma AddAssociates(a: Byte, b: Byte, c: Byte)
    ensures Add(Add(a, b), c) == Add(a, Add(b, c))
  {
    XorAssociates(a, b, c);
  }

  lemma AddZero(a: Byte)
    ensures Add(a, 0) == a && Add(0, a) == a && Add(a, a) == 0
  {
    XorZero(a);
    XorSelf(a);
  }

  lemma AddSwap(a: Byte, b: Byte, c: Byte, d: Byte)
    ensures Add(Add(a, b), Add(c, d)) == Add(Add(a, c), Add(b, d))
  {
    AddAssociates(a, b, Add(c, d));
    AddAssociates(b, c, d);
    AddCommutes(b, c);
    AddAssociates(c, b, d);
    AddAssociates(a, c, Add(b, d));
  }

  lemma AddCancels(a: Byte, b: Byte)
    ensures Add(Add(a, b), b) == a && Add(b, Add(b, a)) == a
  {
    XorCancels(a, b);
    XorCommutes(a, b);
    XorCommutes(Xor(a, b), b);
  }

  // ---------------------------------------------------------------------------
  // Multiplication
  // ---------------------------------------------------------------------------

  lemma XtimeAdds(a: Byte, b: Byte)
    ensures Xtime(Add(a, b)) == Add(Xtime(a), Xtime(b))
  {
    XorDouble(a, b);
    XorShr(a, b, 7);
    ShrSeven(a);
    ShrSeven(b);
    ShrSeven(Xor(a, b));
    assert Xor(0, 0) == 0 && Xor(0, 1) == 1 && Xor(1, 0) == 1 && Xor(1, 1) == 0;
    if a < 128 && b < 128 {
    } else if a < 128 {
      XorAssociates(2 * a, 2 * b, 0x11d);
    } else if b < 128 {
      XorAssociates(2 * a, 2 * b, 0x11d);
      XorAssociates(2 * a, 0x11d, 2 * b);
      XorCommutes(2 * b, 0x11d);
    } else {
      XorAssociates(2 * a, 0x11d, Xor(2 * b, 0x11d));
      XorCommutes(2 * b, 0x11d);
      XorAssociates(0x11d, 0x11d, 2 * b);
      XorSelf(0x11d);
      XorZero(2 * b);
    }
  }

  lemma {:induction false} MulAddsLeft(a: Byte, b: Byte, y: nat)
    ensures Mul(Add(a, b), y) == Add(Mul(a, y), Mul(b, y))
    decreases y
  {
    AddZero(0);
    if y > 0 {
      XtimeAdds(a, b);
      MulAddsLeft(Xtime(a), Xtime(b), y / 2);
      var d := if y % 2 == 1 then a else 0;
      var e := if y % 2 == 1 then b else 0;
      AddSwap(d, e, Mul(Xtime(a), y / 2), Mul(Xtime(b), y / 2));
    }
  }

  lemma {:induction false} MulAddsRight(x: Byte, a: nat, b: nat)
    ensures Mul(x, Xor(a, b)) == Add(Mul(x, a), Mul(x, b))
    decreases a + b
  {
    AddZero(0);
    if a + b > 0 {
      MulAddsRight(Xtime(x), a / 2, b / 2);
      XorHalves(a, b);
      var d := if a % 2 == 1 then x else 0;
      var e := if b % 2 == 1 then x else 0;
      AddZero(x);
      AddSwap(d, e, Mul(Xtime(x), a / 2), Mul(Xtime(x), b / 2));
      AddZero(Mul(x, a));
      AddZero(Mul(x, b));
      MulDigit(x, a);
      MulDigit(x, b);
      MulDigit(x, Xor(a, b));
    }
  }

  /** The defining step of the product also holds when no digit is left. */
  lemma MulDigit(x: Byte, y: nat)
    ensures Mul(x, y) == Add(if y % 2 == 1 then x else 0, Mul(Xtime(x), y / 2))
  {
    AddZero(0);
  }

  lemma {:induction false} MulXtimeLeft(x: Byte, y: nat)
    ensures Mul(Xtime(x), y) == Xtime(Mul(x, y))
    decreases y
  {
    if y > 0 {
      var d := if y % 2 == 1 then x else 0;
      MulXtimeLeft(Xtime(x), y / 2);
      XtimeAdds(d, Mul(Xtime(x), y / 2));
    }
  }

  /** The branch-free form of `Xtime` that the loop uses. */
  lemma XtimeByShift(z: Byte)
    ensures Xtime(z) == Xor(2 * z, Shr(z, 7) * 0x11d)
  {
    ShrSeven(z);
    hide Xor, Shr;
    if z < 128 {
      XorZero(2 * z);
      assert z / 128 == 0;
    } else {
      assert z / 128 == 1;
    }
  }

  /** One step of the multiplication loop. */
  lemma MulHorner(x: Byte, y: nat)
    ensures Mul(x, y) == Xor(Xtime(Mul(x, y / 2)), y % 2 * x)
  {
    MulDigit(x, y);
    MulXtimeLeft(x, y / 2);
    var d := if y % 2 == 1 then x else 0;
    AddCommutes(d, Xtime(Mul(x, y / 2)));
    assert y % 2 * x == d;
  }

  lemma MulLoopEnds(x: Byte, y: Byte)
    ensures Mul(x, Shr(y, 8)) == 0
    ensures Shr(y, 0) == y
  {
    ShrSeven(y);
  }

  lemma MulLoopStep(x: Byte, y: Byte, i: nat)
    ensures var z := Mul(x, Shr(y, i + 1));
            Mul(x, Shr(y, i)) == Xor(Xor(2 * z, Shr(z, 7) * 0x11d), Shr(y, i) % 2 * x)
  {
    ShrAdd(y, i, 1);
    assert Shr(Shr(y, i), 1) == Shr(Shr(y, i) / 2, 0);
    MulHorner(x, Shr(y, i));
    XtimeByShift(Mul(x, Shr(y, i + 1)));
  }

  lemma {:induction false} MulZero(y: nat)
    ensures Mul(0, y) == 0
  {
    AddZero(0);
    if y > 0 {
      MulZero(y / 2);
    }
  }

  lemma {:induction false} MulOne(x: Byte)
    ensures Mul(x, 1) == x && Mul(1, x) == x
  {
    AddZero(x);
    if x > 0 {
      MulOne(x / 2);
      MulXtimeLeft(1, x / 2);
      SplitDigit(x);
    }
  }

  /** A byte is its low digit plus the indeterminate times the rest. */
  lemma SplitDigit(x: Byte)
    ensures x == Add(x % 2, Xtime(x / 2)) == Add(Xtime(x / 2), x % 2)
  {
    XorHalves(x % 2, 2 * (x / 2));
    XorZero(x / 2);
    AddCommutes(x % 2, Xtime(x / 2));
  }

  lemma XtimeTop()
    ensures Xtime(128) == 0x1d
  {
    XorSelf(8);
    assert Xor(16, 17) == 1;
    assert Xor(32, 35) == 3;
    assert Xor(64, 71) == 7;
    assert Xor(128, 142) == 14;
    assert Xor(256, 285) == 29;
  }

  lemma MulModulusOne()
    ensures Mul(1, 0x11d) == 0
  {
    AddLow();
    hide Mul, Xor;
    XtimeTop();
    MulDigit(1, 0x11d);
    MulDigit(2, 0x8e);
    MulDigit(4, 0x47);
    MulDigit(8, 0x23);
    MulDigit(16, 0x11);
    MulDigit(32, 8);
    MulDigit(64, 4);
    MulDigit(128, 2);
    MulOne(0x1d);
    AddZero(0x1d);
    AddZero(Mul(4, 0x47));
  }

  lemma AddLow()
    ensures Add(16, 0x1d) == 0xd && Add(8, 0xd) == 5 && Add(4, 5) == 1 && Add(1, 1) == 0
  {
  }

  /** The reduction polynomial itself multiplies everything to zero. */
  lemma {:induction false} MulModulus(x: Byte)
    ensures Mul(x, 0x11d) == 0
  {
    AddZero(0);
    if x > 1 {
      MulModulus(x / 2);
      MulModulus(x % 2);
      MulXtimeLeft(x / 2, 0x11d);
      MulAddsLeft(Xtime(x / 2), x % 2, 0x11d);
      SplitDigit(x);
    } else if x == 1 {
      MulModulusOne();
    } else {
      MulZero(0x11d);
    }
  }

  lemma MulXtimeRight(x: Byte, y: Byte)
    ensures Mul(x, Xtime(y)) == Xtime(Mul(x, y))
  {
    hide Mul, Xor;
    MulDigit(x, 2 * y);
    AddZero(Mul(Xtime(x), y));
    MulXtimeLeft(x, y);
    if y >= 128 {
      MulAddsRight(x, 2 * y, 0x11d);
      MulModulus(x);
      AddZero(Mul(x, 2 * y));
    }
  }

  lemma {:induction false} MulCommutes(x: Byte, y: Byte)
    ensures Mul(x, y) == Mul(y, x)
    decreases y
  {
    if y == 0 {
      MulZero(x);
    } else {
      var d := y % 2;
      MulDigit(x, y);
      MulCommutes(x, y / 2);
      MulXtimeLeft(x, y / 2);
      MulXtimeLeft(y / 2, x);
      MulAddsLeft(d, Xtime(y / 2), x);
      SplitDigit(y);
      MulOne(x);
      MulZero(x);
    }
  }

  lemma {:induction false} MulAssociates(a: Byte, b: Byte, c: Byte)
    ensures Mul(Mul(a, b), c) == Mul(a, Mul(b, c))
    decreases c
  {
    if c > 0 {
      MulDigit(Mul(a, b), c);
      MulDigit(b, c);
      MulXtimeLeft(Mul(a, b), c / 2);
      MulXtimeLeft(b, c / 2);
      MulAssociates(a, b, c / 2);
      MulXtimeRight(a, Mul(b, c / 2));
      MulAddsRight(a, if c % 2 == 1 then b else 0, Xtime(Mul(b, c / 2)));
    }
  }
}
