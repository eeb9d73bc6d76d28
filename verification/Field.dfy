/** Arithmetic modulo p: congruence, powers, and what follows when p satisfies Fermat's little
    theorem. Everything is stated for an arbitrary modulus. */
module Field {

  type Modulus = m: nat | m > 1 witness 2

  ghost predicate Cong(a: int, b: int, p: Modulus) {
    a % p == b % p
  }

  lemma {:induction false} Distribute(x: int, y: int, p: int)
    ensures (x + y) * p == x * p + y * p
    ensures (x - y) * p == x * p - y * p
  {
  }

  lemma {:induction false} AtLeastOnce(k: int, p: nat)
    requires k >= 1
    ensures k * p >= p
  {
    Distribute(k - 1, 1, p);
  }

  lemma {:induction false} Regroup(a: int, b: int, x: int, y: int)
    ensures (a * b) * (x * y) == (a * x) * (b * y)
  {
    assert (a * b) * (x * y) == a * (b * x) * y;
  }

  lemma {:induction false} QuotientUnique(q: int, r: int, q': int, r': int, p: Modulus)
    requires q * p + r == q' * p + r' && 0 <= r < p && 0 <= r' < p
    ensures q == q' && r == r'
  {
    Distribute(q, q', p);
    Distribute(q', q, p);
    if q > q' {
      AtLeastOnce(q - q', p);
    } else if q < q' {
      AtLeastOnce(q' - q, p);
    }
  }

  lemma {:induction false} ModShift(x: int, k: int, p: Modulus)
    ensures Cong(x + k * p, x, p)
  {
    var q, r := x / p, x % p;
    var q', r' := (x + k * p) / p, (x + k * p) % p;
    Distribute(q, k, p);
    QuotientUnique(q', r', q + k, r, p);
  }

  lemma {:induction false} Quotient(a: int, b: int, p: Modulus) returns (k: int)
    requires Cong(a, b, p)
    ensures a == b + k * p
  {
    k := a / p - b / p;
    assert a == (a / p) * p + a % p && b == (b / p) * p + b % p;
    Distribute(a / p, b / p, p);
  }

  lemma {:induction false} Reduced(a: int, p: Modulus)
    ensures 0 <= a % p < p && Cong(a % p, a, p)
    ensures 0 <= a < p ==> a % p == a
  {
    QuotientUnique((a % p) / p, (a % p) % p, 0, a % p, p);
    if 0 <= a < p {
      QuotientUnique(a / p, a % p, 0, a, p);
    }
  }

  /** Congruent reduced numbers are equal. */
  lemma {:induction false} ReducedEqual(a: int, b: int, p: Modulus)
    requires Cong(a, b, p) && 0 <= a < p && 0 <= b < p
    ensures a == b
  {
    Reduced(a, p);
    Reduced(b, p);
  }

  lemma {:induction false} AddCong(a: int, a': int, b: int, b': int, p: Modulus)
    requires Cong(a, a', p) && Cong(b, b', p)
    ensures Cong(a + b, a' + b', p)
    ensures Cong(a - b, a' - b', p)
  {
    hide Cong;
    var k := Quotient(a, a', p);
    var l := Quotient(b, b', p);
    Distribute(k, l, p);
    ModShift(a' + b', k + l, p);
    ModShift(a' - b', k - l, p);
  }

  lemma {:induction false} MulCong(a: int, a': int, b: int, b': int, p: Modulus)
    requires Cong(a, a', p) && Cong(b, b', p)
    ensures Cong(a * b, a' * b', p)
  {
    hide Cong;
    var k := Quotient(a, a', p);
    var l := Quotient(b, b', p);
    var n := k * b + a' * l;
    assert a * b == a' * b' + n * p by {
      assert a * b == a' * b + k * p * b;
      assert a' * b == a' * b' + a' * (l * p);
      assert n * p == k * b * p + a' * l * p;
      assert k * p * b == k * b * p;
      assert a' * (l * p) == a' * l * p;
    }
    ModShift(a' * b', n, p);
  }

  // ----- Powers

  function Pow(a: int, e: nat): int {
    if e == 0 then 1 else a * Pow(a, e - 1)
  }

  lemma {:induction false} PowNat(a: nat, e: nat)
    ensures Pow(a, e) >= 0
  {
    if e > 0 {
      PowNat(a, e - 1);
    }
  }

  lemma {:induction false} PowAdd(a: int, e: nat, f: nat)
    ensures Pow(a, e + f) == Pow(a, e) * Pow(a, f)
    decreases e
  {
    if e > 0 {
      PowAdd(a, e - 1, f);
      assert Pow(a, e + f) == a * Pow(a, e - 1 + f);
      assert a * (Pow(a, e - 1) * Pow(a, f)) == (a * Pow(a, e - 1)) * Pow(a, f);
    }
  }

  lemma {:induction false} PowBase(a: int, b: int, e: nat)
    ensures Pow(a * b, e) == Pow(a, e) * Pow(b, e)
  {
    if e > 0 {
      PowBase(a, b, e - 1);
      var x, y := Pow(a, e - 1), Pow(b, e - 1);
      Regroup(a, b, x, y);
    }
  }

  lemma {:induction false} PowTimes(a: int, n: nat, e: nat)
    ensures n * e >= 0 && Pow(a, n * e) == Pow(Pow(a, n), e)
    decreases e
  {
    if e > 0 {
      PowTimes(a, n, e - 1);
      assert n * e == n + n * (e - 1);
      PowAdd(a, n, n * (e - 1));
    }
  }

  lemma {:induction false} PowCong(a: int, b: int, e: nat, p: Modulus)
    requires Cong(a, b, p)
    ensures Cong(Pow(a, e), Pow(b, e), p)
  {
    if e > 0 {
      PowCong(a, b, e - 1, p);
      MulCong(a, b, Pow(a, e - 1), Pow(b, e - 1), p);
    }
  }

  lemma {:induction false} PowSmall(a: int)
    ensures Pow(a, 1) == a && Pow(a, 2) == a * a && Pow(a, 3) == a * a * a
  {
    assert Pow(a, 2) == a * Pow(a, 1);
    assert Pow(a, 3) == a * Pow(a, 2);
    assert a * (a * a) == a * a * a;
  }

  lemma {:induction false} PowOne(e: nat)
    ensures Pow(1, e) == 1
  {
    if e > 0 {
      PowOne(e - 1);
    }
  }

  lemma {:induction false} PowMinusOne(e: nat)
    ensures Pow(-1, e) == if e % 2 == 0 then 1 else -1
  {
    if e > 0 {
      PowMinusOne(e - 1);
    }
  }

  // ----- Moduli for which Fermat's little theorem holds

  ghost predicate FermatFor(a: nat, p: Modulus) {
    Cong(Pow(a, p - 1), 1, p)
  }

  /** Fermat's little theorem for p: what primality of p is used for. */
  ghost predicate Fermat(p: Modulus) {
    forall a: nat :: 0 < a < p ==> FermatFor(a, p)
  }

  lemma {:induction false} FermatAt(a: int, p: Modulus)
    requires Fermat(p) && !Cong(a, 0, p)
    ensures Cong(Pow(a, p - 1), 1, p)
  {
    Reduced(a, p);
    Reduced(0, p);
    assert FermatFor(a % p, p);
    PowCong(a % p, a, p - 1, p);
  }

  /** a to the power p - 2 inverts a. */
  lemma {:induction false} Inverse(a: int, p: Modulus)
    requires Fermat(p) && !Cong(a, 0, p)
    ensures Cong(a * Pow(a, p - 2), 1, p)
  {
    FermatAt(a, p);
    assert Pow(a, p - 1) == a * Pow(a, p - 2);
  }

  lemma {:induction false} Cancel(a: int, b: int, c: int, p: Modulus)
    requires Fermat(p) && !Cong(a, 0, p) && Cong(a * b, a * c, p)
    ensures Cong(b, c, p)
  {
    var i := Pow(a, p - 2);
    Inverse(a, p);
    MulCong(i, i, a * b, a * c, p);
    assert i * (a * b) == (a * i) * b && i * (a * c) == (a * i) * c;
    MulCong(a * i, 1, b, b, p);
    MulCong(a * i, 1, c, c, p);
  }

  lemma {:induction false} NoZeroDivisors(a: int, b: int, p: Modulus)
    requires Fermat(p) && Cong(a * b, 0, p)
    ensures Cong(a, 0, p) || Cong(b, 0, p)
  {
    if !Cong(a, 0, p) {
      assert a * 0 == 0;
      Cancel(a, b, 0, p);
    }
  }

  /** Square roots are unique up to sign. */
  lemma {:induction false} RootsAgree(x: int, y: int, p: Modulus)
    requires Fermat(p) && Cong(x * x, y * y, p)
    ensures Cong(x, y, p) || Cong(x, -y, p)
  {
    assert (x - y) * (x + y) == x * x - y * y;
    AddCong(x * x, y * y, y * y, y * y, p);
    NoZeroDivisors(x - y, x + y, p);
    if Cong(x - y, 0, p) {
      AddCong(x - y, 0, y, y, p);
    } else {
      AddCong(x + y, 0, -y, -y, p);
    }
  }

  /** With p = 4 e - 1, the e-th power of a square b² is a root of it; of a fourth power b⁴ it is b². */
  lemma {:induction false} RootOfSquare(b: int, e: nat, p: Modulus)
    requires Fermat(p) && 4 * e == p + 1
    ensures Cong(Pow(b * b, e) * Pow(b * b, e), b * b, p)
    ensures Cong(Pow((b * b) * (b * b), e), b * b, p)
  {
    if Cong(b, 0, p) {
      MulCong(b, 0, b, 0, p);
      MulCong(b * b, 0, b * b, 0, p);
      PowOfZero(b * b, e, p);
      PowOfZero((b * b) * (b * b), e, p);
      MulCong(Pow(b * b, e), 0, Pow(b * b, e), 0, p);
    } else {
      FermatAt(b, p);
      PowSmall(b);
      PowTimes(b, 2, e);
      PowAdd(b, 2 * e, 2 * e);
      assert Pow(b * b, e) * Pow(b * b, e) == Pow(b, p + 1) by {
        assert 2 * e + 2 * e == p + 1;
      }
      PowAdd(b, p - 1, 2);
      assert Pow(b, p + 1) == Pow(b, p - 1) * (b * b);
      MulCong(Pow(b, p - 1), 1, b * b, b * b, p);
      PowBase(b * b, b * b, e);
    }
  }

  lemma {:induction false} PowOfZero(a: int, e: nat, p: Modulus)
    requires Cong(a, 0, p) && e > 0
    ensures Cong(Pow(a, e), 0, p)
  {
    MulCong(a, 0, Pow(a, e - 1), Pow(a, e - 1), p);
  }

  /** When p = 3 mod 4, minus a nonzero square is never a square. */
  lemma {:induction false} MinusSquare(s: int, t: int, e: nat, p: Modulus)
    requires Fermat(p) && 4 * e == p + 1 && Cong(t * t, -(s * s), p)
    ensures Cong(s, 0, p) && Cong(t, 0, p)
  {
    if Cong(s, 0, p) {
      MulCong(s, 0, s, 0, p);
      AddCong(0, 0, s * s, 0, p);
      NoZeroDivisors(t, t, p);
    } else {
      var h := 2 * e - 1;
      assert 2 * h == p - 1;
      PowCong(t * t, -(s * s), h, p);
      PowSmall(s);
      PowSmall(t);
      PowTimes(t, 2, h);
      PowTimes(s, 2, h);
      PowBase(-1, s * s, h);
      assert -1 * (s * s) == -(s * s);
      PowMinusOne(h);
      assert Cong(Pow(t, p - 1), -Pow(s, p - 1), p);
      FermatAt(s, p);
      AddCong(0, 0, Pow(s, p - 1), 1, p);
      assert Cong(Pow(t, p - 1), -1, p);
      if Cong(t, 0, p) {
        PowOfZero(t, p - 1, p);
      } else {
        FermatAt(t, p);
      }
      SmallDistinct(p);
    }
  }

  lemma {:induction false} SmallDistinct(p: Modulus)
    ensures p > 2 ==> !Cong(1, -1, p)
    ensures !Cong(0, -1, p) && !Cong(0, 1, p)
  {
    Reduced(0, p);
    Reduced(1, p);
    ModShift(-1, 1, p);
    Reduced(p - 1, p);
  }
}
