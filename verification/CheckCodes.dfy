/** The check bits of the format and version words (annexes C and D of ISO/IEC 18004:2015). */
module CheckCodes {
  import opened Bits
  import opened Versions
  import opened Colours

  /** The product of two polynomials over the field of two elements, each written as the number of its coefficients. */
  function Product2(q: nat, p: nat): nat {
    if q == 0 then 0 else Xor(2 * Product2(q / 2, p), if q % 2 == 1 then p else 0)
  }

  lemma ProductDigit(q: nat, t: nat, p: nat)
    requires t < 2
    ensures Product2(2 * q + t, p) == Xor(2 * Product2(q, p), t * p)
  {
    if q == 0 && t == 0 {
      XorZero(0);
    } else {
      assert (2 * q + t) / 2 == q && (2 * q + t) % 2 == t;
    }
  }

  lemma ShiftOne(data: nat, rounds: nat)
    requires rounds > 0
    ensures data * Pow2(rounds) == 2 * (data * Pow2(rounds - 1))
  {
  }

  lemma DivideStep(high: nat, rem: nat, top: nat, r: nat, poly: nat)
    requires top < 2 && Xor(high, rem) == Product2(r, poly)
    ensures Xor(2 * high, Xor(rem * 2, top * poly)) == Product2(2 * r + top, poly)
  {
    hide Xor, Product2;
    ProductDigit(r, top, poly);
    XorDouble(high, rem);
    XorAssociates(2 * high, 2 * rem, top * poly);
  }

  /** The register divides: the data, shifted, with the check bits below it is a multiple of the polynomial. */
  lemma {:induction false} CheckBitsDivide(data: nat, width: nat, poly: nat, rounds: nat) returns (q: nat)
    requires width > 0 && data < Pow2(width) && Pow2(width) <= poly < 2 * Pow2(width)
    ensures Xor(data * Pow2(rounds), CheckBits(data, width, poly, rounds)) == Product2(q, poly)
  {
    hide Xor, Shr;
    if rounds == 0 {
      q := 0;
      XorSelf(data);
    } else {
      var r := CheckBitsDivide(data, width, poly, rounds - 1);
      CheckBitsBelow(data, width, poly, rounds - 1);
      var rem := CheckBits(data, width, poly, rounds - 1);
      var top := Shr(rem, width - 1);
      TopBit(rem, width);
      q := 2 * r + top;
      ShiftOne(data, rounds);
      hide Product2, Pow2;
      DivideStep(data * Pow2(rounds - 1), rem, top, r, poly);
    }
  }

  lemma TopBit(rem: nat, width: nat)
    requires width > 0 && rem < Pow2(width)
    ensures Shr(rem, width - 1) < 2
  {
    ShrDiv(rem, width - 1);
    DivBelow(rem, Pow2(width - 1), 2);
  }

  /** Adding below the lowest bit of a shifted number is an exclusive or. */
  lemma {:induction false} JoinFields(high: nat, low: nat, width: nat)
    requires low < Pow2(width)
    ensures high * Pow2(width) + low == Xor(high * Pow2(width), low)
  {
    if width == 0 {
      XorZero(high);
    } else {
      ShiftOne(high, width);
      JoinFields(high, low / 2, width - 1);
      var h := high * Pow2(width - 1);
      assert low == 2 * (low / 2) + low % 2;
      assert (2 * h) / 2 == h && (2 * h) % 2 == 0;
      hide Pow2;
      if h != 0 || low != 0 {
        XorHalves(2 * h, low);
      } else {
        XorZero(0);
      }
    }
  }

  ghost predicate IsCodeword(word: nat, poly: nat) {
    exists q :: word == Product2(q, poly)
  }

  /** Every format word, its mask taken off, is a multiple of its polynomial: a codeword of the BCH code. */
  lemma FormatIsCodeword(ecl: Ecl, mask: Mask)
    ensures IsCodeword(Xor(FormatBits(ecl, mask), FORMAT_MASK), 0x537)
  {
    hide Xor, CheckBits, Product2;
    PowersOfTwo();
    hide Pow2;
    var data := FormatData(ecl, mask);
    var rem := CheckBits(data, 10, 0x537, 10);
    FormatBitsBelow(ecl, mask);
    XorCancels(data * 1024 + rem, FORMAT_MASK);
    JoinFields(data, rem, 10);
    var q := CheckBitsDivide(data, 10, 0x537, 10);
  }

  /** Every version word is a multiple of its polynomial. */
  lemma VersionIsCodeword(ver: Version)
    ensures IsCodeword(VersionBits(ver), 0x1f25)
  {
    hide Xor, CheckBits, Product2;
    PowersOfTwo();
    hide Pow2;
    CheckBitsBelow(ver, 12, 0x1f25, 12);
    JoinFields(ver, CheckBits(ver, 12, 0x1f25, 12), 12);
    var q := CheckBitsDivide(ver, 12, 0x1f25, 12);
  }
}
