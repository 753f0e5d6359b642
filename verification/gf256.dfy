/** Arithmetic in GF(2^8) with the AES reduction polynomial
    x^8 + x^4 + x^3 + x + 1 (0x11B), section 4 of FIPS 197.

    Both Python loops (the inverse search in app/utils/math_gf2.py and
    AESEngine._gmul in app/utils/aes_engine.py) compute the shift-and-add
    product below; each is proved equal to `Mul` where it is modelled. */
module GF256 {
  import opened Char2

  /** The reduction polynomial with its x^8 term. */
  const ReductionPoly: bv16 := 0x11B

  /** Multiplication by x (section 4.2.1 of FIPS 197), written branch-free:
      shift left and add 0x1B exactly when bit 7 was set. */
  function Xtime(a: bv8): bv8 {
    (a << 1) ^ (0x1B & (0 - (a >> 7)))
  }

  /** n rounds of the shift-and-add loop from state (a, b, p): when bit 0 of b
      is set, add a to p; then multiply a by x and shift b right. */
  function MulRounds(a: bv8, b: bv8, p: bv8, n: nat): bv8
    decreases n
  {
    if n == 0 then p else MulRounds(Xtime(a), b >> 1, p ^ (a & (0 - (b & 1))), n - 1)
  }

  /** The product of a and b in GF(2^8): eight rounds from p = 0. */
  function Mul(a: bv8, b: bv8): bv8 {
    MulRounds(a, b, 0, 8)
  }

  /** Addition in GF(2^8) is bitwise exclusive or. */
  function Add(x: bv8, y: bv8): bv8 {
    x ^ y
  }

  /** xtime is the unreduced shift followed by reduction modulo 0x11B. */
  lemma XtimeReduces(a: bv8)
    ensures var wide := (a as bv16) << 1;
      Xtime(a) as bv16 == if wide & 0x100 == 0 then wide else wide ^ ReductionPoly
    ensures Xtime(a) == if a & 0x80 == 0 then a << 1 else (a << 1) ^ 0x1B
  {}

  lemma MulByOne(a: bv8)
    ensures Mul(a, 1) == a
    ensures Mul(a, 0) == 0 && Mul(0, a) == 0
  {}

  lemma MulByTwo(a: bv8)
    ensures Mul(a, 2) == Xtime(a)
  {}

  lemma MulByThree(a: bv8)
    ensures Mul(a, 3) == Xtime(a) ^ a
  {}

  lemma MulByNine(a: bv8)
    ensures Mul(a, 9) == Xtime(Xtime(Xtime(a))) ^ a
  {}

  lemma MulByEleven(a: bv8)
    ensures Mul(a, 11) == Xtime(Xtime(Xtime(a))) ^ Xtime(a) ^ a
  {}

  lemma MulByThirteen(a: bv8)
    ensures Mul(a, 13) == Xtime(Xtime(Xtime(a))) ^ Xtime(Xtime(a)) ^ a
  {}

  lemma MulByFourteen(a: bv8)
    ensures Mul(a, 14) == Xtime(Xtime(Xtime(a))) ^ Xtime(Xtime(a)) ^ Xtime(a)
  {}

  /** Multiplication by x distributes over addition. */
  lemma XtimeAdds(x: bv8, y: bv8)
    ensures Xtime(x ^ y) == Xtime(x) ^ Xtime(y)
  {}

  lemma AddGroup()
    ensures Group(Add, 0)
  {}

  // Multiplication by the constants of MixColumns and InvMixColumns, as
  // function values for the generic column lemma of module Char2.
  function Mul2(a: bv8): bv8 { Mul(a, 2) }
  function Mul3(a: bv8): bv8 { Mul(a, 3) }
  function Mul9(a: bv8): bv8 { Mul(a, 9) }
  function Mul11(a: bv8): bv8 { Mul(a, 11) }
  function Mul13(a: bv8): bv8 { Mul(a, 13) }
  function Mul14(a: bv8): bv8 { Mul(a, 14) }

  // Powers of x and their sums, the building blocks of the constants above.
  function Identity(a: bv8): bv8 { a }
  function X2(a: bv8): bv8 { Xtime(Xtime(a)) }
  function X3(a: bv8): bv8 { Xtime(Xtime(Xtime(a))) }
  function X31(a: bv8): bv8 { X3(a) ^ Xtime(a) }
  function X32(a: bv8): bv8 { X3(a) ^ X2(a) }

  lemma XtimeIsAdditive()
    ensures Additive(Add, Xtime)
  {
    forall x, y ensures Xtime(Add(x, y)) == Add(Xtime(x), Xtime(y)) {
      XtimeAdds(x, y);
    }
  }

  lemma IdentityIsAdditive()
    ensures Additive(Add, Identity)
  {}

  lemma X2IsAdditive()
    ensures Additive(Add, X2)
  {
    XtimeIsAdditive();
    ComposeAdditive(Add, Xtime, Xtime, X2);
  }

  lemma X3IsAdditive()
    ensures Additive(Add, X3)
  {
    XtimeIsAdditive();
    X2IsAdditive();
    ComposeAdditive(Add, Xtime, X2, X3);
  }

  lemma X31IsAdditive()
    ensures Additive(Add, X31)
  {
    X3IsAdditive();
    XtimeIsAdditive();
    AddGroup();
    SumAdditive(Add, 0, X3, Xtime, X31);
  }

  lemma X32IsAdditive()
    ensures Additive(Add, X32)
  {
    X3IsAdditive();
    X2IsAdditive();
    AddGroup();
    SumAdditive(Add, 0, X3, X2, X32);
  }

  lemma Mul9IsAdditive()
    ensures Additive(Add, Mul9)
  {
    X3IsAdditive();
    IdentityIsAdditive();
    AddGroup();
    forall a ensures Mul9(a) == Add(X3(a), Identity(a)) {
      MulByNine(a);
    }
    SumAdditive(Add, 0, X3, Identity, Mul9);
  }

  lemma Mul11IsAdditive()
    ensures Additive(Add, Mul11)
  {
    X31IsAdditive();
    IdentityIsAdditive();
    AddGroup();
    forall a ensures Mul11(a) == Add(X31(a), Identity(a)) {
      MulByEleven(a);
    }
    SumAdditive(Add, 0, X31, Identity, Mul11);
  }

  lemma Mul13IsAdditive()
    ensures Additive(Add, Mul13)
  {
    X32IsAdditive();
    IdentityIsAdditive();
    AddGroup();
    forall a ensures Mul13(a) == Add(X32(a), Identity(a)) {
      MulByThirteen(a);
    }
    SumAdditive(Add, 0, X32, Identity, Mul13);
  }

  lemma Mul14IsAdditive()
    ensures Additive(Add, Mul14)
  {
    X32IsAdditive();
    XtimeIsAdditive();
    AddGroup();
    forall a ensures Mul14(a) == Add(X32(a), Xtime(a)) {
      MulByFourteen(a);
    }
    SumAdditive(Add, 0, X32, Xtime, Mul14);
  }

  // The sixteen entries of the product of the InvMixColumns and MixColumns
  // matrices, one lemma each: the diagonal is 1, the rest is 0.
  lemma Coefficient0(s: bv8) ensures Sum4(Add, Mul14(Mul2(s)), Mul11(s), Mul13(s), Mul9(Mul3(s))) == s
  { MulByTwo(s); MulByFourteen(Mul(s, 2)); MulByEleven(s); MulByThirteen(s); MulByThree(s); MulByNine(Mul(s, 3)); }
  lemma Coefficient1(s: bv8) ensures Sum4(Add, Mul14(Mul3(s)), Mul11(Mul2(s)), Mul13(s), Mul9(s)) == 0
  { MulByThree(s); MulByFourteen(Mul(s, 3)); MulByTwo(s); MulByEleven(Mul(s, 2)); MulByThirteen(s); MulByNine(s); }
  lemma Coefficient2(s: bv8) ensures Sum4(Add, Mul14(s), Mul11(Mul3(s)), Mul13(Mul2(s)), Mul9(s)) == 0
  { MulByFourteen(s); MulByThree(s); MulByEleven(Mul(s, 3)); MulByTwo(s); MulByThirteen(Mul(s, 2)); MulByNine(s); }
  lemma Coefficient3(s: bv8) ensures Sum4(Add, Mul14(s), Mul11(s), Mul13(Mul3(s)), Mul9(Mul2(s))) == 0
  { MulByFourteen(s); MulByEleven(s); MulByThree(s); MulByThirteen(Mul(s, 3)); MulByTwo(s); MulByNine(Mul(s, 2)); }
  lemma Coefficient4(s: bv8) ensures Sum4(Add, Mul9(Mul2(s)), Mul14(s), Mul11(s), Mul13(Mul3(s))) == 0
  { MulByTwo(s); MulByNine(Mul(s, 2)); MulByFourteen(s); MulByEleven(s); MulByThree(s); MulByThirteen(Mul(s, 3)); }
  lemma Coefficient5(s: bv8) ensures Sum4(Add, Mul9(Mul3(s)), Mul14(Mul2(s)), Mul11(s), Mul13(s)) == s
  { MulByThree(s); MulByNine(Mul(s, 3)); MulByTwo(s); MulByFourteen(Mul(s, 2)); MulByEleven(s); MulByThirteen(s); }
  lemma Coefficient6(s: bv8) ensures Sum4(Add, Mul9(s), Mul14(Mul3(s)), Mul11(Mul2(s)), Mul13(s)) == 0
  { MulByNine(s); MulByThree(s); MulByFourteen(Mul(s, 3)); MulByTwo(s); MulByEleven(Mul(s, 2)); MulByThirteen(s); }
  lemma Coefficient7(s: bv8) ensures Sum4(Add, Mul9(s), Mul14(s), Mul11(Mul3(s)), Mul13(Mul2(s))) == 0
  { MulByNine(s); MulByFourteen(s); MulByThree(s); MulByEleven(Mul(s, 3)); MulByTwo(s); MulByThirteen(Mul(s, 2)); }
  lemma Coefficient8(s: bv8) ensures Sum4(Add, Mul13(Mul2(s)), Mul9(s), Mul14(s), Mul11(Mul3(s))) == 0
  { MulByTwo(s); MulByThirteen(Mul(s, 2)); MulByNine(s); MulByFourteen(s); MulByThree(s); MulByEleven(Mul(s, 3)); }
  lemma Coefficient9(s: bv8) ensures Sum4(Add, Mul13(Mul3(s)), Mul9(Mul2(s)), Mul14(s), Mul11(s)) == 0
  { MulByThree(s); MulByThirteen(Mul(s, 3)); MulByTwo(s); MulByNine(Mul(s, 2)); MulByFourteen(s); MulByEleven(s); }
  lemma Coefficient10(s: bv8) ensures Sum4(Add, Mul13(s), Mul9(Mul3(s)), Mul14(Mul2(s)), Mul11(s)) == s
  { MulByThirteen(s); MulByThree(s); MulByNine(Mul(s, 3)); MulByTwo(s); MulByFourteen(Mul(s, 2)); MulByEleven(s); }
  lemma Coefficient11(s: bv8) ensures Sum4(Add, Mul13(s), Mul9(s), Mul14(Mul3(s)), Mul11(Mul2(s))) == 0
  { MulByThirteen(s); MulByNine(s); MulByThree(s); MulByFourteen(Mul(s, 3)); MulByTwo(s); MulByEleven(Mul(s, 2)); }
  lemma Coefficient12(s: bv8) ensures Sum4(Add, Mul11(Mul2(s)), Mul13(s), Mul9(s), Mul14(Mul3(s))) == 0
  { MulByTwo(s); MulByEleven(Mul(s, 2)); MulByThirteen(s); MulByNine(s); MulByThree(s); MulByFourteen(Mul(s, 3)); }
  lemma Coefficient13(s: bv8) ensures Sum4(Add, Mul11(Mul3(s)), Mul13(Mul2(s)), Mul9(s), Mul14(s)) == 0
  { MulByThree(s); MulByEleven(Mul(s, 3)); MulByTwo(s); MulByThirteen(Mul(s, 2)); MulByNine(s); MulByFourteen(s); }
  lemma Coefficient14(s: bv8) ensures Sum4(Add, Mul11(s), Mul13(Mul3(s)), Mul9(Mul2(s)), Mul14(s)) == 0
  { MulByEleven(s); MulByThree(s); MulByThirteen(Mul(s, 3)); MulByTwo(s); MulByNine(Mul(s, 2)); MulByFourteen(s); }
  lemma Coefficient15(s: bv8) ensures Sum4(Add, Mul11(s), Mul13(s), Mul9(Mul3(s)), Mul14(Mul2(s))) == s
  { MulByEleven(s); MulByThirteen(s); MulByThree(s); MulByNine(Mul(s, 3)); MulByTwo(s); MulByFourteen(Mul(s, 2)); }

  lemma Coefficients(s: bv8)
    ensures CoefficientsAt(Add, 0, Mul2, Mul3, Mul9, Mul11, Mul13, Mul14, s)
  {
    Coefficient0(s); Coefficient1(s); Coefficient2(s); Coefficient3(s);
    Coefficient4(s); Coefficient5(s); Coefficient6(s); Coefficient7(s);
    Coefficient8(s); Coefficient9(s); Coefficient10(s); Coefficient11(s);
    Coefficient12(s); Coefficient13(s); Coefficient14(s); Coefficient15(s);
  }

  /** MixColumns on one column of bytes (section 5.1.3 of FIPS 197). */
  function MixColumn(q: Quad<bv8>): Quad<bv8> {
    Mix(Add, Mul2, Mul3, q)
  }

  /** InvMixColumns on one column of bytes (section 5.3.3 of FIPS 197). */
  function InvMixColumn(q: Quad<bv8>): Quad<bv8> {
    Unmix(Add, Mul9, Mul11, Mul13, Mul14, q)
  }

  /** InvMixColumns undoes MixColumns on every column. */
  lemma InvMixColumnUndoesMixColumn(q: Quad<bv8>)
    ensures InvMixColumn(MixColumn(q)) == q
  {
    AddGroup();
    Mul9IsAdditive();
    Mul11IsAdditive();
    Mul13IsAdditive();
    Mul14IsAdditive();
    forall s ensures CoefficientsAt(Add, 0, Mul2, Mul3, Mul9, Mul11, Mul13, Mul14, s) {
      Coefficients(s);
    }
    UnmixMix(Add, 0, Mul2, Mul3, Mul9, Mul11, Mul13, Mul14, q);
  }
}
