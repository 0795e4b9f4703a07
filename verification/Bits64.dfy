/** Setting, clearing and selecting bits of a 64-bit word. */
module Bits64 {
  /** a with the bits of mask set. */
  function With(a: bv64, mask: bv64): bv64 {
    a | mask
  }

  /** a with the bits of mask cleared. */
  function Without(a: bv64, mask: bv64): bv64 {
    a & !mask
  }

  /** The bits of a that mask selects. */
  function Field(a: bv64, mask: bv64): bv64 {
    a & mask
  }

  lemma Distribute(a: bv64, m: bv64, o: bv64)
    ensures Field(With(a, m), o) == With(Field(a, o), Field(m, o))
  {
    assert (a | m) & o == (a & o) | (m & o);
  }

  lemma Absorb(x: bv64, o: bv64)
    ensures With(x, 0) == x && With(0, x) == x
    ensures Field(x, o) == x ==> With(x, o) == o
    ensures Field(x, 0) == 0
  {
  }

  lemma FieldTwice(a: bv64, o: bv64)
    ensures Field(Field(a, o), o) == Field(a, o)
  {
  }

  lemma FieldOfWith(a: bv64, m: bv64, o: bv64)
    ensures m & o == 0 ==> Field(With(a, m), o) == Field(a, o)
    ensures m & o == o ==> Field(With(a, m), o) == o
  {
    assert Field(m, o) == m & o;
    hide With, Field;
    Distribute(a, m, o);
    Absorb(Field(a, o), o);
    FieldTwice(a, o);
  }

  lemma Clear(a: bv64, m: bv64)
    ensures Without(a, m) == Field(a, !m)
  {
  }

  lemma FieldRegroup(a: bv64, m: bv64, o: bv64)
    ensures Field(Field(a, m), o) == Field(a, Field(o, m))
  {
    assert (a & m) & o == a & (o & m);
  }

  lemma ClearCases(m: bv64, o: bv64)
    ensures m & o == 0 ==> o & !m == o
    ensures m & o == o ==> o & !m == 0
  {
  }

  lemma ClearPart(m: bv64, n: bv64)
    requires m & n == m
    ensures m & !n == 0
  {
    assert (m & n) & !n == 0;
  }

  lemma FieldIs(a: bv64, m: bv64)
    ensures Field(a, m) == a & m
  {
  }

  lemma FieldOfWithout(a: bv64, m: bv64, o: bv64)
    ensures m & o == 0 ==> Field(Without(a, m), o) == Field(a, o)
    ensures m & o == o ==> Field(Without(a, m), o) == 0
  {
    hide Without, Field;
    Clear(a, m);
    FieldRegroup(a, !m, o);
    FieldIs(o, !m);
    ClearCases(m, o);
    Absorb(a, 0);
  }

  lemma WithNothing(a: bv64, m: bv64)
    ensures Field(a, m) == m ==> With(a, m) == a
    ensures Field(a, m) == 0 ==> Without(a, m) == a
  {
    assert a & m == m ==> a | m == a;
    assert a & m == 0 ==> a & !m == a;
  }
}
