/** Algebra behind the inverse of MixColumns.

    InvMixColumns undoes MixColumns because the polynomial
    {0e}x^3 + {0b}x^2 + {0d}x + {09} is the inverse of {03}x^3 + x^2 + x + {02}
    modulo x^4 + 1 (section 5.3.3 of FIPS 197). The identity only uses that
    byte addition is XOR (an abelian group in which every element is its own
    negative) and that multiplication by a constant distributes over it. It is
    therefore stated here once for any type T with such an addition and any
    additive maps m2, m3, m9, m11, m13, m14 obeying the sixteen coefficient
    identities; the byte instance lives in module GF256. */
module Char2 {

  /** `add` is commutative and associative, has `zero` as unit, and every
      element is its own negative (characteristic 2). */
  ghost predicate Group<T(!new)>(add: (T, T) -> T, zero: T) {
    (forall x, y {:trigger add(x, y), add(y, x)} :: add(x, y) == add(y, x)) &&
    (forall x, y, z {:trigger add(add(x, y), z), add(x, add(y, z))} :: add(add(x, y), z) == add(x, add(y, z))) &&
    (forall x :: add(x, zero) == x) &&
    (forall x :: add(x, x) == zero)
  }

  /** `f` distributes over `add`. */
  ghost predicate Additive<T(!new)>(add: (T, T) -> T, f: T -> T) {
    forall x, y {:trigger f(add(x, y)), add(f(x), f(y))} :: f(add(x, y)) == add(f(x), f(y))
  }

  /** a + b + c + d, grouped from the left as a program evaluates it. */
  function Sum4<T>(add: (T, T) -> T, a: T, b: T, c: T, d: T): T {
    add(add(add(a, b), c), d)
  }

  lemma Swap<T(!new)>(add: (T, T) -> T, zero: T, a: T, b: T, c: T, d: T)
    requires Group(add, zero)
    ensures add(add(a, b), add(c, d)) == add(add(a, c), add(b, d))
  {
    calc {
      add(add(a, b), add(c, d));
      add(a, add(b, add(c, d)));
      add(a, add(add(b, c), d));
      add(a, add(add(c, b), d));
      add(a, add(c, add(b, d)));
      add(add(a, c), add(b, d));
    }
  }

  /** Sums of four pairwise sums regroup into two sums of four. */
  lemma Sum4Split<T(!new)>(add: (T, T) -> T, zero: T, a: T, b: T, c: T, d: T, e: T, f: T, g: T, h: T)
    requires Group(add, zero)
    ensures Sum4(add, add(a, e), add(b, f), add(c, g), add(d, h)) == add(Sum4(add, a, b, c, d), Sum4(add, e, f, g, h))
  {
    Swap(add, zero, a, e, b, f);
    Swap(add, zero, add(a, b), add(e, f), c, g);
    Swap(add, zero, add(add(a, b), c), add(add(e, f), g), d, h);
  }

  lemma Sum4Additive<T(!new)>(add: (T, T) -> T, zero: T, f: T -> T, a: T, b: T, c: T, d: T)
    requires Group(add, zero) && Additive(add, f)
    ensures f(Sum4(add, a, b, c, d)) == Sum4(add, f(a), f(b), f(c), f(d))
  {
    assert f(add(a, b)) == add(f(a), f(b));
    assert f(add(add(a, b), c)) == add(f(add(a, b)), f(c));
    assert f(add(add(add(a, b), c), d)) == add(f(add(add(a, b), c)), f(d));
  }

  /** A 4x4 sum may be added up row by row or column by column. */
  lemma Transpose<T(!new)>(add: (T, T) -> T, zero: T,
                           x00: T, x01: T, x02: T, x03: T, x10: T, x11: T, x12: T, x13: T,
                           x20: T, x21: T, x22: T, x23: T, x30: T, x31: T, x32: T, x33: T)
    requires Group(add, zero)
    ensures Sum4(add, Sum4(add, x00, x01, x02, x03), Sum4(add, x10, x11, x12, x13),
                      Sum4(add, x20, x21, x22, x23), Sum4(add, x30, x31, x32, x33))
         == Sum4(add, Sum4(add, x00, x10, x20, x30), Sum4(add, x01, x11, x21, x31),
                      Sum4(add, x02, x12, x22, x32), Sum4(add, x03, x13, x23, x33))
  {
    Sum4Split(add, zero, x00, x01, x02, x03, x10, x11, x12, x13);
    Sum4Split(add, zero, add(x00, x10), add(x01, x11), add(x02, x12), add(x03, x13), x20, x21, x22, x23);
    Sum4Split(add, zero, add(add(x00, x10), x20), add(add(x01, x11), x21), add(add(x02, x12), x22),
              add(add(x03, x13), x23), x30, x31, x32, x33);
  }

  /** One column of the state: four elements, top to bottom. */
  datatype Quad<T> = Quad(a0: T, a1: T, a2: T, a3: T)

  /** MixColumns on one column: the circulant matrix with first row (2, 3, 1, 1). */
  function Mix<T>(add: (T, T) -> T, m2: T -> T, m3: T -> T, q: Quad<T>): Quad<T> {
    Quad(Sum4(add, m2(q.a0), m3(q.a1), q.a2, q.a3),
         Sum4(add, q.a0, m2(q.a1), m3(q.a2), q.a3),
         Sum4(add, q.a0, q.a1, m2(q.a2), m3(q.a3)),
         Sum4(add, m3(q.a0), q.a1, q.a2, m2(q.a3)))
  }

  /** InvMixColumns on one column: the circulant matrix with first row (14, 11, 13, 9). */
  function Unmix<T>(add: (T, T) -> T, m9: T -> T, m11: T -> T, m13: T -> T, m14: T -> T, q: Quad<T>): Quad<T> {
    Quad(Sum4(add, m14(q.a0), m11(q.a1), m13(q.a2), m9(q.a3)),
         Sum4(add, m9(q.a0), m14(q.a1), m11(q.a2), m13(q.a3)),
         Sum4(add, m13(q.a0), m9(q.a1), m14(q.a2), m11(q.a3)),
         Sum4(add, m11(q.a0), m13(q.a1), m9(q.a2), m14(q.a3)))
  }

  /** The sixteen entries of the product of the two circulant matrices, applied
      to one element s: the diagonal entries give s back, the others give zero. */
  ghost predicate CoefficientsAt<T>(add: (T, T) -> T, zero: T, m2: T -> T, m3: T -> T,
                                    m9: T -> T, m11: T -> T, m13: T -> T, m14: T -> T, s: T) {
    (Sum4(add, m14(m2(s)), m11(s), m13(s), m9(m3(s))) == s) &&
    (Sum4(add, m14(m3(s)), m11(m2(s)), m13(s), m9(s)) == zero) &&
    (Sum4(add, m14(s), m11(m3(s)), m13(m2(s)), m9(s)) == zero) &&
    (Sum4(add, m14(s), m11(s), m13(m3(s)), m9(m2(s))) == zero) &&
    (Sum4(add, m9(m2(s)), m14(s), m11(s), m13(m3(s))) == zero) &&
    (Sum4(add, m9(m3(s)), m14(m2(s)), m11(s), m13(s)) == s) &&
    (Sum4(add, m9(s), m14(m3(s)), m11(m2(s)), m13(s)) == zero) &&
    (Sum4(add, m9(s), m14(s), m11(m3(s)), m13(m2(s))) == zero) &&
    (Sum4(add, m13(m2(s)), m9(s), m14(s), m11(m3(s))) == zero) &&
    (Sum4(add, m13(m3(s)), m9(m2(s)), m14(s), m11(s)) == zero) &&
    (Sum4(add, m13(s), m9(m3(s)), m14(m2(s)), m11(s)) == s) &&
    (Sum4(add, m13(s), m9(s), m14(m3(s)), m11(m2(s))) == zero) &&
    (Sum4(add, m11(m2(s)), m13(s), m9(s), m14(m3(s))) == zero) &&
    (Sum4(add, m11(m3(s)), m13(m2(s)), m9(s), m14(s)) == zero) &&
    (Sum4(add, m11(s), m13(m3(s)), m9(m2(s)), m14(s)) == zero) &&
    (Sum4(add, m11(s), m13(s), m9(m3(s)), m14(m2(s))) == s)
  }

  lemma Unit<T(!new)>(add: (T, T) -> T, zero: T, s: T)
    requires Group(add, zero)
    ensures Sum4(add, s, zero, zero, zero) == s
    ensures Sum4(add, zero, s, zero, zero) == s
    ensures Sum4(add, zero, zero, s, zero) == s
    ensures Sum4(add, zero, zero, zero, s) == s
  {}

  /** Row (f0, f1, f2, f3) of the inverse matrix applied to Mix(q), once each
      f_i has been distributed over the sums of Mix(q). */
  lemma RowOfProduct<T(!new)>(add: (T, T) -> T, zero: T, f0: T -> T, f1: T -> T, f2: T -> T, f3: T -> T,
                              m2: T -> T, m3: T -> T, q: Quad<T>, e0: T, e1: T, e2: T, e3: T)
    requires Group(add, zero)
    requires f0(Sum4(add, m2(q.a0), m3(q.a1), q.a2, q.a3)) == Sum4(add, f0(m2(q.a0)), f0(m3(q.a1)), f0(q.a2), f0(q.a3))
    requires f1(Sum4(add, q.a0, m2(q.a1), m3(q.a2), q.a3)) == Sum4(add, f1(q.a0), f1(m2(q.a1)), f1(m3(q.a2)), f1(q.a3))
    requires f2(Sum4(add, q.a0, q.a1, m2(q.a2), m3(q.a3))) == Sum4(add, f2(q.a0), f2(q.a1), f2(m2(q.a2)), f2(m3(q.a3)))
    requires f3(Sum4(add, m3(q.a0), q.a1, q.a2, m2(q.a3))) == Sum4(add, f3(m3(q.a0)), f3(q.a1), f3(q.a2), f3(m2(q.a3)))
    requires Sum4(add, f0(m2(q.a0)), f1(q.a0), f2(q.a0), f3(m3(q.a0))) == e0
    requires Sum4(add, f0(m3(q.a1)), f1(m2(q.a1)), f2(q.a1), f3(q.a1)) == e1
    requires Sum4(add, f0(q.a2), f1(m3(q.a2)), f2(m2(q.a2)), f3(q.a2)) == e2
    requires Sum4(add, f0(q.a3), f1(q.a3), f2(m3(q.a3)), f3(m2(q.a3))) == e3
    ensures var m := Mix(add, m2, m3, q);
      Sum4(add, f0(m.a0), f1(m.a1), f2(m.a2), f3(m.a3)) == Sum4(add, e0, e1, e2, e3)
  {
    Transpose(add, zero, f0(m2(q.a0)), f0(m3(q.a1)), f0(q.a2), f0(q.a3),
                         f1(q.a0), f1(m2(q.a1)), f1(m3(q.a2)), f1(q.a3),
                         f2(q.a0), f2(q.a1), f2(m2(q.a2)), f2(m3(q.a3)),
                         f3(m3(q.a0)), f3(q.a1), f3(q.a2), f3(m2(q.a3)));
  }

  /** Row (f0, f1, f2, f3) of the inverse matrix applied to Mix(q) for additive f_i. */
  lemma Row<T(!new)>(add: (T, T) -> T, zero: T, f0: T -> T, f1: T -> T, f2: T -> T, f3: T -> T,
                     m2: T -> T, m3: T -> T, q: Quad<T>, e0: T, e1: T, e2: T, e3: T)
    requires Group(add, zero)
    requires Additive(add, f0) && Additive(add, f1) && Additive(add, f2) && Additive(add, f3)
    requires Sum4(add, f0(m2(q.a0)), f1(q.a0), f2(q.a0), f3(m3(q.a0))) == e0
    requires Sum4(add, f0(m3(q.a1)), f1(m2(q.a1)), f2(q.a1), f3(q.a1)) == e1
    requires Sum4(add, f0(q.a2), f1(m3(q.a2)), f2(m2(q.a2)), f3(q.a2)) == e2
    requires Sum4(add, f0(q.a3), f1(q.a3), f2(m3(q.a3)), f3(m2(q.a3))) == e3
    ensures var m := Mix(add, m2, m3, q);
      Sum4(add, f0(m.a0), f1(m.a1), f2(m.a2), f3(m.a3)) == Sum4(add, e0, e1, e2, e3)
  {
    Sum4Additive(add, zero, f0, m2(q.a0), m3(q.a1), q.a2, q.a3);
    Sum4Additive(add, zero, f1, q.a0, m2(q.a1), m3(q.a2), q.a3);
    Sum4Additive(add, zero, f2, q.a0, q.a1, m2(q.a2), m3(q.a3));
    Sum4Additive(add, zero, f3, m3(q.a0), q.a1, q.a2, m2(q.a3));
    RowOfProduct(add, zero, f0, f1, f2, f3, m2, m3, q, e0, e1, e2, e3);
  }

  lemma UnmixMix0<T(!new)>(add: (T, T) -> T, zero: T, m2: T -> T, m3: T -> T,
                           m9: T -> T, m11: T -> T, m13: T -> T, m14: T -> T, q: Quad<T>)
    requires Group(add, zero)
    requires Additive(add, m9) && Additive(add, m11) && Additive(add, m13) && Additive(add, m14)
    requires Sum4(add, m14(m2(q.a0)), m11(q.a0), m13(q.a0), m9(m3(q.a0))) == q.a0
    requires Sum4(add, m14(m3(q.a1)), m11(m2(q.a1)), m13(q.a1), m9(q.a1)) == zero
    requires Sum4(add, m14(q.a2), m11(m3(q.a2)), m13(m2(q.a2)), m9(q.a2)) == zero
    requires Sum4(add, m14(q.a3), m11(q.a3), m13(m3(q.a3)), m9(m2(q.a3))) == zero
    ensures Unmix(add, m9, m11, m13, m14, Mix(add, m2, m3, q)).a0 == q.a0
  {
    Unit(add, zero, q.a0);
    Row(add, zero, m14, m11, m13, m9, m2, m3, q, q.a0, zero, zero, zero);
  }

  lemma UnmixMix1<T(!new)>(add: (T, T) -> T, zero: T, m2: T -> T, m3: T -> T,
                           m9: T -> T, m11: T -> T, m13: T -> T, m14: T -> T, q: Quad<T>)
    requires Group(add, zero)
    requires Additive(add, m9) && Additive(add, m11) && Additive(add, m13) && Additive(add, m14)
    requires Sum4(add, m9(m2(q.a0)), m14(q.a0), m11(q.a0), m13(m3(q.a0))) == zero
    requires Sum4(add, m9(m3(q.a1)), m14(m2(q.a1)), m11(q.a1), m13(q.a1)) == q.a1
    requires Sum4(add, m9(q.a2), m14(m3(q.a2)), m11(m2(q.a2)), m13(q.a2)) == zero
    requires Sum4(add, m9(q.a3), m14(q.a3), m11(m3(q.a3)), m13(m2(q.a3))) == zero
    ensures Unmix(add, m9, m11, m13, m14, Mix(add, m2, m3, q)).a1 == q.a1
  {
    Unit(add, zero, q.a1);
    Row(add, zero, m9, m14, m11, m13, m2, m3, q, zero, q.a1, zero, zero);
  }

  lemma UnmixMix2<T(!new)>(add: (T, T) -> T, zero: T, m2: T -> T, m3: T -> T,
                           m9: T -> T, m11: T -> T, m13: T -> T, m14: T -> T, q: Quad<T>)
    requires Group(add, zero)
    requires Additive(add, m9) && Additive(add, m11) && Additive(add, m13) && Additive(add, m14)
    requires Sum4(add, m13(m2(q.a0)), m9(q.a0), m14(q.a0), m11(m3(q.a0))) == zero
    requires Sum4(add, m13(m3(q.a1)), m9(m2(q.a1)), m14(q.a1), m11(q.a1)) == zero
    requires Sum4(add, m13(q.a2), m9(m3(q.a2)), m14(m2(q.a2)), m11(q.a2)) == q.a2
    requires Sum4(add, m13(q.a3), m9(q.a3), m14(m3(q.a3)), m11(m2(q.a3))) == zero
    ensures Unmix(add, m9, m11, m13, m14, Mix(add, m2, m3, q)).a2 == q.a2
  {
    Unit(add, zero, q.a2);
    Row(add, zero, m13, m9, m14, m11, m2, m3, q, zero, zero, q.a2, zero);
  }

  lemma UnmixMix3<T(!new)>(add: (T, T) -> T, zero: T, m2: T -> T, m3: T -> T,
                           m9: T -> T, m11: T -> T, m13: T -> T, m14: T -> T, q: Quad<T>)
    requires Group(add, zero)
    requires Additive(add, m9) && Additive(add, m11) && Additive(add, m13) && Additive(add, m14)
    requires Sum4(add, m11(m2(q.a0)), m13(q.a0), m9(q.a0), m14(m3(q.a0))) == zero
    requires Sum4(add, m11(m3(q.a1)), m13(m2(q.a1)), m9(q.a1), m14(q.a1)) == zero
    requires Sum4(add, m11(q.a2), m13(m3(q.a2)), m9(m2(q.a2)), m14(q.a2)) == zero
    requires Sum4(add, m11(q.a3), m13(q.a3), m9(m3(q.a3)), m14(m2(q.a3))) == q.a3
    ensures Unmix(add, m9, m11, m13, m14, Mix(add, m2, m3, q)).a3 == q.a3
  {
    Unit(add, zero, q.a3);
    Row(add, zero, m11, m13, m9, m14, m2, m3, q, zero, zero, zero, q.a3);
  }

  /** The inverse circulant matrix undoes the forward one on every column. */
  lemma UnmixMix<T(!new)>(add: (T, T) -> T, zero: T, m2: T -> T, m3: T -> T,
                          m9: T -> T, m11: T -> T, m13: T -> T, m14: T -> T, q: Quad<T>)
    requires Group(add, zero)
    requires Additive(add, m9) && Additive(add, m11) && Additive(add, m13) && Additive(add, m14)
    requires forall s :: CoefficientsAt(add, zero, m2, m3, m9, m11, m13, m14, s)
    ensures Unmix(add, m9, m11, m13, m14, Mix(add, m2, m3, q)) == q
  {
    assert CoefficientsAt(add, zero, m2, m3, m9, m11, m13, m14, q.a0);
    assert CoefficientsAt(add, zero, m2, m3, m9, m11, m13, m14, q.a1);
    assert CoefficientsAt(add, zero, m2, m3, m9, m11, m13, m14, q.a2);
    assert CoefficientsAt(add, zero, m2, m3, m9, m11, m13, m14, q.a3);
    UnmixMix0(add, zero, m2, m3, m9, m11, m13, m14, q);
    UnmixMix1(add, zero, m2, m3, m9, m11, m13, m14, q);
    UnmixMix2(add, zero, m2, m3, m9, m11, m13, m14, q);
    UnmixMix3(add, zero, m2, m3, m9, m11, m13, m14, q);
  }

  /** The composition of additive maps is additive. */
  lemma ComposeAdditive<T(!new)>(add: (T, T) -> T, f: T -> T, g: T -> T, h: T -> T)
    requires Additive(add, f) && Additive(add, g)
    requires forall x :: h(x) == f(g(x))
    ensures Additive(add, h)
  {
    forall x, y ensures h(add(x, y)) == add(h(x), h(y)) {
      assert g(add(x, y)) == add(g(x), g(y));
      assert f(add(g(x), g(y))) == add(f(g(x)), f(g(y)));
    }
  }

  /** The pointwise sum of additive maps is additive. */
  lemma SumAdditive<T(!new)>(add: (T, T) -> T, zero: T, f: T -> T, g: T -> T, h: T -> T)
    requires Group(add, zero) && Additive(add, f) && Additive(add, g)
    requires forall x :: h(x) == add(f(x), g(x))
    ensures Additive(add, h)
  {
    forall x, y ensures h(add(x, y)) == add(h(x), h(y)) {
      assert f(add(x, y)) == add(f(x), f(y));
      assert g(add(x, y)) == add(g(x), g(y));
      Swap(add, zero, f(x), f(y), g(x), g(y));
    }
  }
}
