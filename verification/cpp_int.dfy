/** The C++ integer operators on `long`: `/` truncates toward zero and `%`
    takes the sign of the dividend, unlike Dafny's Euclidean operators. */
module CppInt {

  function Abs(x: int): (a: nat) {
    if x < 0 then -x else x
  }

  /** C++ `a / b`. */
  function Quot(a: int, b: int): (q: int)
    requires b != 0
    ensures a >= 0 ==> 0 <= a - b * q < Abs(b)
    ensures a < 0 ==> 0 < a - b * q + Abs(b) && a - b * q <= 0
  {
    var q0 := Abs(a) / Abs(b);
    var r0 := Abs(a) % Abs(b);
    assert Abs(a) == Abs(b) * q0 + r0;
    if b > 0 then
      assert b * q0 == Abs(b) * q0;
      if a >= 0 then q0 else -q0
    else
      assert b * q0 == -(Abs(b) * q0);
      if a < 0 then q0 else -q0
  }

  /** C++ `a % b`. */
  function Rem(a: int, b: int): (r: int)
    requires b != 0
    ensures a == b * Quot(a, b) + r
    ensures a >= 0 ==> 0 <= r < Abs(b)
    ensures a < 0 ==> 0 < r + Abs(b) && r <= 0
  {
    a - b * Quot(a, b)
  }

  /** On a non-negative dividend and a positive divisor the C++ operators agree
      with Dafny's. */
  lemma QuotRemOfNatural(a: int, b: int)
    requires a >= 0 && b > 0
    ensures Quot(a, b) == a / b && Rem(a, b) == a % b
  {
    assert a == b * (a / b) + a % b;
  }

  /** A nonzero multiple of a positive `b` is at least `b` away from 0. */
  lemma MultipleBound(b: int, d: int)
    requires b > 0
    ensures d >= 1 ==> b * d >= b
    ensures d <= -1 ==> b * d <= -b
  {
    assert b * d == b + b * (d - 1);
    assert b * d == -b + b * (d + 1);
  }

  /** Euclidean division has one quotient and one remainder. */
  lemma DivisionUnique(a: int, b: int, q: int, r: int)
    requires b > 0 && a == b * q + r && 0 <= r < b
    ensures a / b == q && a % b == r
  {
    var d := q - a / b;
    assert b * d == a % b - r;
    MultipleBound(b, d);
  }

  /** C++ division of 0 yields 0. */
  lemma QuotOfZero(b: int)
    requires b != 0
    ensures Quot(0, b) == 0 && Rem(0, b) == 0
  {
    var q := Quot(0, b);
    if b > 0 {
      MultipleBound(b, q);
    } else {
      assert b * q == Abs(b) * -q;
      MultipleBound(Abs(b), -q);
    }
  }

  /** `n` whole multiples of a positive `b` and `r` short of one more: C++
      division yields `n` and the remainder `r`. */
  lemma QuotOfMultiple(n: nat, r: nat, b: int)
    requires 0 <= r < b
    ensures Quot(n * b + r, b) == n && Rem(n * b + r, b) == r
  {
    QuotRemOfNatural(n * b + r, b);
    DivisionUnique(n * b + r, b, n, r);
  }
}
