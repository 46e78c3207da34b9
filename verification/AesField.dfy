/**
  Bytes as elements of the finite field of section 4.2 of FIPS 197, the field
  multiplication of own/pyaes.py, its two S-boxes and its round constants.
 */
module AesField {

  /** A byte. The wrapper keeps bit-vector reasoning inside the lemmas that need it. */
  datatype Byte = Byte(v: bv8)

  const ZERO := Byte(0)

  function Xor(a: Byte, b: Byte): Byte {
    Byte(a.v ^ b.v)
  }

  lemma XorZero(a: Byte)
    ensures Xor(a, ZERO) == a && Xor(ZERO, a) == a
  {}

  lemma XorSelf(a: Byte, b: Byte)
    ensures Xor(Xor(a, b), b) == a
  {}

  lemma XorAssociates(a: Byte, b: Byte, c: Byte)
    ensures Xor(a, Xor(b, c)) == Xor(Xor(a, b), c)
  {}

  lemma Interchange(a: Byte, b: Byte, c: Byte, d: Byte)
    ensures Xor(Xor(a, b), Xor(c, d)) == Xor(Xor(a, c), Xor(b, d))
  {}

  lemma XorValue(a: Byte, b: Byte)
    ensures Xor(a, b).v == a.v ^ b.v
  {}

  lemma Xor3Value(a: Byte, b: Byte, c: Byte)
    ensures Xor(Xor(a, b), c).v == a.v ^ b.v ^ c.v
  {}

  // ---------------------------------------------------------------------
  // Multiplication
  // ---------------------------------------------------------------------

  /** Multiplication by x, section 4.2.1 of FIPS 197. */
  function Xtime(a: bv8): bv8 {
    (a << 1) ^ (if a & 0x80 != 0 then 0x1b else 0)
  }

  function X(a: Byte): Byte {
    Byte(Xtime(a.v))
  }

  function Term(b: bv8, bit: bv8, a: bv8): bv8 {
    if b & bit != 0 then a else 0
  }

  /** The sum in the field. */
  function Plus(a: bv8, b: bv8): bv8 {
    a ^ b
  }

  lemma PlusZero(a: bv8)
    ensures Plus(a, 0) == a
  {}

  /** The product: the sum of x^k * a over the bits k of `b`. */
  function Product(a: bv8, b: bv8): bv8 {
    var a1 := Xtime(a);
    var a2 := Xtime(a1);
    var a3 := Xtime(a2);
    var a4 := Xtime(a3);
    var a5 := Xtime(a4);
    var a6 := Xtime(a5);
    var a7 := Xtime(a6);
    Plus(Term(b, 0x01, a), Plus(Term(b, 0x02, a1), Plus(Term(b, 0x04, a2), Plus(Term(b, 0x08, a3),
      Plus(Term(b, 0x10, a4), Plus(Term(b, 0x20, a5), Plus(Term(b, 0x40, a6), Term(b, 0x80, a7))))))))
  }

  function Mul(a: Byte, b: bv8): Byte {
    Byte(Product(a.v, b))
  }

  lemma TermShift(b: bv8, bit: bv8, a: bv8)
    requires bit & 0x80 == 0
    ensures Term(b >> 1, bit, a) == Term(b, bit << 1, a)
  {}

  lemma TermGone(b: bv8, a: bv8)
    ensures Term(b >> 1, 0x80, a) == 0
  {}

  lemma ProductStep(a: bv8, b: bv8)
    ensures Product(a, b) == Plus(Term(b, 1, a), Product(Xtime(a), b >> 1))
  {
    hide Xtime, Term, Plus;
    var a1 := Xtime(a);
    var a2 := Xtime(a1);
    var a3 := Xtime(a2);
    var a4 := Xtime(a3);
    var a5 := Xtime(a4);
    var a6 := Xtime(a5);
    var a7 := Xtime(a6);
    TermShift(b, 0x01, a1);
    TermShift(b, 0x02, a2);
    TermShift(b, 0x04, a3);
    TermShift(b, 0x08, a4);
    TermShift(b, 0x10, a5);
    TermShift(b, 0x20, a6);
    TermShift(b, 0x40, a7);
    TermGone(b, Xtime(a7));
    PlusZero(Term(b, 0x80, a7));
  }

  /** One round of the multiplication loop: use a bit of `b`, multiply `a` by x. */
  lemma MulStep(a: Byte, b: bv8)
    ensures Mul(a, b) == if b & 1 != 0 then Xor(a, Mul(X(a), b >> 1)) else Mul(X(a), b >> 1)
  {
    ProductStep(a.v, b);
    hide Product, Xtime;
    if b & 1 != 0 {
    } else {
    }
  }

  lemma MulZero(a: Byte)
    ensures Mul(a, 0) == ZERO
  {
    hide Xtime;
  }

  function Low(a: bv16): Byte {
    Byte((a & 0xff) as bv8)
  }

  /** What the loop does to its multiplicand, whose bits above the eighth are never cleared. */
  function Shifted(a: bv16): bv16 {
    var b := a << 1;
    if b & 0x100 != 0 then b ^ 0x1b else b
  }

  lemma LowShifted(a: bv16)
    ensures Low(Shifted(a)) == X(Low(a))
  {
    if a & 0x80 != 0 {
    } else {
    }
  }

  lemma LowXor(a: bv16, b: bv16)
    ensures Low(a ^ b) == Xor(Low(a), Low(b))
  {}

  method GaloisRound(p: bv16, a: bv16, b: bv8) returns (p': bv16, a': bv16, b': bv8)
    ensures Low(p') == if b & 1 != 0 then Xor(Low(p), Low(a)) else Low(p)
    ensures Low(a') == X(Low(a)) && b' == b >> 1
    ensures b != 0 ==> b' < b
  {
    p' := p;
    if b & 1 != 0 {
      p' := p ^ a;
      LowXor(p, a);
    }
    a' := a << 1;
    if a' & 0x100 != 0 {
      a' := a' ^ 0x1b;
    }
    assert a' == Shifted(a);
    LowShifted(a);
    b' := b >> 1;
  }

  /** The multiplication loop; sixteen bits are enough, since only the low nine are ever looked at. */
  method GaloisMultiply(a0: bv8, b0: bv8) returns (r: bv8)
    ensures Byte(r) == Mul(Byte(a0), b0)
  {
    var p: bv16, a: bv16, b: bv8 := 0, a0 as bv16, b0;
    assert Low(0) == ZERO;
    assert Low(a) == Byte(a0);
    XorZero(Mul(Low(a), b));
    hide Mul, X, Low, Xor;
    while b != 0
      invariant Xor(Low(p), Mul(Low(a), b)) == Mul(Byte(a0), b0)
      decreases b
    {
      MulStep(Low(a), b);
      XorAssociates(Low(p), Low(a), Mul(X(Low(a)), b >> 1));
      p, a, b := GaloisRound(p, a, b);
    }
    MulZero(Low(a));
    XorZero(Low(p));
    r := LowByte(p);
  }

  method LowByte(a: bv16) returns (r: bv8)
    ensures Byte(r) == Low(a)
  {
    r := (a & 0xff) as bv8;
  }

  lemma XtimeLinear(a: bv8, b: bv8)
    ensures Xtime(a ^ b) == Xtime(a) ^ Xtime(b)
  {
    if a & 0x80 != 0 {
      if b & 0x80 != 0 {} else {}
    } else {
      if b & 0x80 != 0 {} else {}
    }
  }

  lemma XLinear(a: Byte, b: Byte)
    ensures X(Xor(a, b)) == Xor(X(a), X(b))
  {
    XtimeLinear(a.v, b.v);
    hide Xtime;
  }

  lemma XOfZero()
    ensures X(ZERO) == ZERO
  {}

  function X2(a: Byte): Byte {
    X(X(a))
  }

  function X3(a: Byte): Byte {
    X(X2(a))
  }

  lemma X2Linear(a: Byte, b: Byte)
    ensures X2(Xor(a, b)) == Xor(X2(a), X2(b))
  {
    hide X, Xor;
    XLinear(a, b);
    XLinear(X(a), X(b));
  }

  lemma X3Linear(a: Byte, b: Byte)
    ensures X3(Xor(a, b)) == Xor(X3(a), X3(b))
  {
    hide X, X2, Xor;
    X2Linear(a, b);
    XLinear(X2(a), X2(b));
  }

  // The multiples that the two mixing steps use, written with X.

  lemma Times2(a: Byte)
    ensures Mul(a, 2) == X(a)
  {
    hide Xtime;
  }

  lemma Times3(a: Byte)
    ensures Mul(a, 3) == Xor(X(a), a)
  {
    hide Xtime;
  }

  lemma Times9(a: Byte)
    ensures Mul(a, 9) == Xor(X3(a), a)
  {
    hide Xtime;
  }

  lemma Times11(a: Byte)
    ensures Mul(a, 11) == Xor(Xor(X3(a), X(a)), a)
  {
    hide Xtime, Plus;
    ThreeTerms(a.v, X(a).v, X3(a).v);
  }

  lemma ThreeTerms(x: bv8, y: bv8, z: bv8)
    ensures Plus(x, Plus(y, Plus(0, Plus(z, Plus(0, Plus(0, Plus(0, 0))))))) == z ^ y ^ x
  {}

  lemma Times13(a: Byte)
    ensures Mul(a, 13) == Xor(Xor(X3(a), X2(a)), a)
  {
    hide Xtime;
  }

  lemma Times14(a: Byte)
    ensures Mul(a, 14) == Xor(Xor(X3(a), X2(a)), X(a))
  {
    hide Xtime;
  }

  lemma TimesLinear(a: Byte, b: Byte)
    ensures Mul(Xor(a, b), 9) == Xor(Mul(a, 9), Mul(b, 9))
    ensures Mul(Xor(a, b), 11) == Xor(Mul(a, 11), Mul(b, 11))
    ensures Mul(Xor(a, b), 13) == Xor(Mul(a, 13), Mul(b, 13))
    ensures Mul(Xor(a, b), 14) == Xor(Mul(a, 14), Mul(b, 14))
  {
    hide X, X2, X3, Xor, Mul;
    XLinear(a, b);
    X2Linear(a, b);
    X3Linear(a, b);
    Interchange(X3(a), X3(b), a, b);
    Interchange(X3(a), X3(b), X(a), X(b));
    Interchange(Xor(X3(a), X(a)), Xor(X3(b), X(b)), a, b);
    Interchange(X3(a), X3(b), X2(a), X2(b));
    Interchange(Xor(X3(a), X2(a)), Xor(X3(b), X2(b)), a, b);
    Interchange(Xor(X3(a), X2(a)), Xor(X3(b), X2(b)), X(a), X(b));
    InverseMultiples(a);
    InverseMultiples(b);
    InverseMultiples(Xor(a, b));
  }

  lemma InverseMultiples(a: Byte)
    ensures Mul(a, 9) == Xor(X3(a), a) && Mul(a, 11) == Xor(Xor(X3(a), X(a)), a)
    ensures Mul(a, 13) == Xor(Xor(X3(a), X2(a)), a) && Mul(a, 14) == Xor(Xor(X3(a), X2(a)), X(a))
  {
    hide X, X2, X3, Xor, Mul;
    Times9(a);
    Times11(a);
    Times13(a);
    Times14(a);
  }

  // ---------------------------------------------------------------------
  // Mixing a column, sections 5.1.3 and 5.3.3 of FIPS 197
  // ---------------------------------------------------------------------

  /** The first byte of a mixed column; the others follow by turning the column. */
  function MixByte(a: Byte, b: Byte, c: Byte, d: Byte): Byte {
    Xor(Xor(Mul(a, 2), Mul(b, 3)), Xor(c, d))
  }

  function UnmixByte(a: Byte, b: Byte, c: Byte, d: Byte): Byte {
    Xor(Xor(Mul(a, 14), Mul(b, 11)), Xor(Mul(c, 13), Mul(d, 9)))
  }

  /** The first byte of a column that is mixed and then unmixed. */
  function MixUnmix(a: Byte, b: Byte, c: Byte, d: Byte): Byte {
    UnmixByte(MixByte(a, b, c, d), MixByte(b, c, d, a), MixByte(c, d, a, b), MixByte(d, a, b, c))
  }

  lemma MixLinear(a: Byte, b: Byte, c: Byte, d: Byte, a': Byte, b': Byte, c': Byte, d': Byte)
    ensures MixByte(Xor(a, a'), Xor(b, b'), Xor(c, c'), Xor(d, d')) == Xor(MixByte(a, b, c, d), MixByte(a', b', c', d'))
  {
    hide X, Xor, Mul;
    Times2(a);
    Times2(a');
    Times2(Xor(a, a'));
    Times3(b);
    Times3(b');
    Times3(Xor(b, b'));
    XLinear(a, a');
    XLinear(b, b');
    Interchange(X(b), X(b'), b, b');
    Interchange(X(a), X(a'), Xor(X(b), b), Xor(X(b'), b'));
    Interchange(c, c', d, d');
    Interchange(Xor(X(a), Xor(X(b), b)), Xor(X(a'), Xor(X(b'), b')), Xor(c, d), Xor(c', d'));
  }

  lemma UnmixLinear(a: Byte, b: Byte, c: Byte, d: Byte, a': Byte, b': Byte, c': Byte, d': Byte)
    ensures UnmixByte(Xor(a, a'), Xor(b, b'), Xor(c, c'), Xor(d, d'))
      == Xor(UnmixByte(a, b, c, d), UnmixByte(a', b', c', d'))
  {
    hide Xor, Mul;
    TimesLinear(a, a');
    TimesLinear(b, b');
    TimesLinear(c, c');
    TimesLinear(d, d');
    Interchange(Mul(a, 14), Mul(a', 14), Mul(b, 11), Mul(b', 11));
    Interchange(Mul(c, 13), Mul(c', 13), Mul(d, 9), Mul(d', 9));
    Interchange(Xor(Mul(a, 14), Mul(b, 11)), Xor(Mul(a', 14), Mul(b', 11)),
      Xor(Mul(c, 13), Mul(d, 9)), Xor(Mul(c', 13), Mul(d', 9)));
  }

  lemma MixUnmixLinear(a: Byte, b: Byte, c: Byte, d: Byte, a': Byte, b': Byte, c': Byte, d': Byte)
    ensures MixUnmix(Xor(a, a'), Xor(b, b'), Xor(c, c'), Xor(d, d'))
      == Xor(MixUnmix(a, b, c, d), MixUnmix(a', b', c', d'))
  {
    hide Xor, MixByte, UnmixByte;
    MixLinear(a, b, c, d, a', b', c', d');
    MixLinear(b, c, d, a, b', c', d', a');
    MixLinear(c, d, a, b, c', d', a', b');
    MixLinear(d, a, b, c, d', a', b', c');
    UnmixLinear(MixByte(a, b, c, d), MixByte(b, c, d, a), MixByte(c, d, a, b), MixByte(d, a, b, c),
      MixByte(a', b', c', d'), MixByte(b', c', d', a'), MixByte(c', d', a', b'), MixByte(d', a', b', c'));
  }

  /** Mixing a column with a single byte that is not zero. */
  lemma MixSingle(a: Byte)
    ensures MixByte(a, ZERO, ZERO, ZERO) == X(a) && MixByte(ZERO, a, ZERO, ZERO) == Xor(X(a), a)
    ensures MixByte(ZERO, ZERO, a, ZERO) == a && MixByte(ZERO, ZERO, ZERO, a) == a
  {
    hide X, Xor, Mul;
    Times2(a);
    Times3(a);
    Times2(ZERO);
    Times3(ZERO);
    XOfZero();
    XorZero(a);
    XorZero(X(a));
    XorZero(ZERO);
    XorZero(Xor(X(a), a));
  }

  /** Unmixing it leaves only that byte; `x`, `y`, `z`, `w` stand for its products with x to x^4. */
  lemma SingleCancels(a: Byte, x: Byte, y: Byte, z: Byte, w: Byte)
    ensures Xor(Xor(Xor(Xor(w, z), y), Xor(Xor(z, x), a)), Xor(Xor(Xor(z, y), a), Xor(Xor(w, x), Xor(z, a)))) == a
  {
    Xor3Value(w, z, y);
    Xor3Value(z, x, a);
    Xor3Value(z, y, a);
    XorValue(w, x);
    XorValue(z, a);
    hide Xor;
    XorValue(Xor(w, x), Xor(z, a));
    XorValue(Xor(Xor(w, z), y), Xor(Xor(z, x), a));
    XorValue(Xor(Xor(z, y), a), Xor(Xor(w, x), Xor(z, a)));
    XorValue(Xor(Xor(Xor(w, z), y), Xor(Xor(z, x), a)), Xor(Xor(Xor(z, y), a), Xor(Xor(w, x), Xor(z, a))));
  }

  lemma SecondCancels(a: Byte, x: Byte, y: Byte, z: Byte, w: Byte)
    ensures Xor(Xor(Xor(Xor(Xor(w, z), y), Xor(Xor(z, y), x)), Xor(Xor(w, y), x)), Xor(Xor(Xor(z, y), a), Xor(z, a)))
      == ZERO
  {
    Xor3Value(w, z, y);
    Xor3Value(z, y, x);
    Xor3Value(w, y, x);
    Xor3Value(z, y, a);
    XorValue(z, a);
    hide Xor;
    XorValue(Xor(Xor(w, z), y), Xor(Xor(z, y), x));
    XorValue(Xor(Xor(Xor(w, z), y), Xor(Xor(z, y), x)), Xor(Xor(w, y), x));
    XorValue(Xor(Xor(z, y), a), Xor(z, a));
    XorValue(Xor(Xor(Xor(Xor(w, z), y), Xor(Xor(z, y), x)), Xor(Xor(w, y), x)), Xor(Xor(Xor(z, y), a), Xor(z, a)));
  }

  lemma ThirdCancels(a: Byte, x: Byte, y: Byte, z: Byte, w: Byte)
    ensures Xor(Xor(Xor(Xor(z, y), x), Xor(Xor(Xor(w, y), x), Xor(Xor(z, x), a))), Xor(Xor(Xor(w, z), x), Xor(z, a)))
      == ZERO
  {
    Xor3Value(z, y, x);
    Xor3Value(w, y, x);
    Xor3Value(z, x, a);
    Xor3Value(w, z, x);
    XorValue(z, a);
    hide Xor;
    XorValue(Xor(Xor(w, y), x), Xor(Xor(z, x), a));
    XorValue(Xor(Xor(z, y), x), Xor(Xor(Xor(w, y), x), Xor(Xor(z, x), a)));
    XorValue(Xor(Xor(w, z), x), Xor(z, a));
    XorValue(Xor(Xor(Xor(z, y), x), Xor(Xor(Xor(w, y), x), Xor(Xor(z, x), a))), Xor(Xor(Xor(w, z), x), Xor(z, a)));
  }

  lemma FourthCancels(a: Byte, x: Byte, y: Byte, z: Byte, w: Byte)
    ensures Xor(Xor(Xor(Xor(z, y), x), Xor(Xor(z, x), a)), Xor(Xor(Xor(Xor(w, z), x), Xor(Xor(z, y), a)), Xor(w, x)))
      == ZERO
  {
    Xor3Value(z, y, x);
    Xor3Value(z, x, a);
    Xor3Value(w, z, x);
    Xor3Value(z, y, a);
    XorValue(w, x);
    hide Xor;
    XorValue(Xor(Xor(z, y), x), Xor(Xor(z, x), a));
    XorValue(Xor(Xor(w, z), x), Xor(Xor(z, y), a));
    XorValue(Xor(Xor(Xor(w, z), x), Xor(Xor(z, y), a)), Xor(w, x));
    XorValue(Xor(Xor(Xor(z, y), x), Xor(Xor(z, x), a)), Xor(Xor(Xor(Xor(w, z), x), Xor(Xor(z, y), a)), Xor(w, x)));
  }

  /** The multiples of a byte, of its double and of the sum of the two, in the same five bytes. */
  lemma DoubledMultiples(a: Byte)
    ensures Mul(X(a), 9) == Xor(X(X3(a)), X(a))
    ensures Mul(X(a), 11) == Xor(Xor(X(X3(a)), X2(a)), X(a))
    ensures Mul(X(a), 13) == Xor(Xor(X(X3(a)), X3(a)), X(a))
    ensures Mul(X(a), 14) == Xor(Xor(X(X3(a)), X3(a)), X2(a))
  {
    hide X, Xor, Mul;
    InverseMultiples(X(a));
  }

  lemma FirstReturns(a: Byte)
    ensures MixUnmix(a, ZERO, ZERO, ZERO) == a
  {
    hide X, X2, X3, Xor, Mul, MixByte;
    MixSingle(a);
    InverseMultiples(a);
    DoubledMultiples(a);
    TimesLinear(X(a), a);
    SingleCancels(a, X(a), X2(a), X3(a), X(X3(a)));
  }

  lemma OthersVanish(a: Byte)
    ensures MixUnmix(ZERO, a, ZERO, ZERO) == ZERO
    ensures MixUnmix(ZERO, ZERO, a, ZERO) == ZERO
    ensures MixUnmix(ZERO, ZERO, ZERO, a) == ZERO
  {
    hide X, X2, X3, Xor, Mul, MixByte;
    MixSingle(a);
    InverseMultiples(a);
    DoubledMultiples(a);
    TimesLinear(X(a), a);
    SecondCancels(a, X(a), X2(a), X3(a), X(X3(a)));
    ThirdCancels(a, X(a), X2(a), X3(a), X(X3(a)));
    FourthCancels(a, X(a), X2(a), X3(a), X(X3(a)));
  }

  /** The two mixing steps undo each other: by superposition, from columns with one byte. */
  lemma MixUnmixReturns(a: Byte, b: Byte, c: Byte, d: Byte)
    ensures MixUnmix(a, b, c, d) == a
  {
    hide Xor, MixUnmix;
    XorZero(a);
    XorZero(b);
    XorZero(c);
    XorZero(d);
    XorZero(ZERO);
    FirstReturns(a);
    OthersVanish(b);
    OthersVanish(c);
    OthersVanish(d);
    MixUnmixLinear(a, ZERO, ZERO, ZERO, ZERO, b, ZERO, ZERO);
    MixUnmixLinear(a, b, ZERO, ZERO, ZERO, ZERO, c, ZERO);
    MixUnmixLinear(a, b, c, ZERO, ZERO, ZERO, ZERO, d);
  }
}
