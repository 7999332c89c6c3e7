// The two pieces of C++ integer semantics the display and colour routines rely on:
// the `(int)` conversion of a `double` and the `%` operator on `int`, which is tied
// to the truncating `/` on `int`.

module CppCast {

  /** C++ `(int) r`: conversion of a floating value to an integer, truncating toward zero. */
  function Trunc(r: real): (n: int)
    ensures 0.0 <= r ==> 0 <= n && n as real <= r < n as real + 1.0
    ensures r < 0.0 ==> n <= 0 && n as real - 1.0 < r <= n as real
  {
    if r >= 0.0 then r.Floor else -((-r).Floor)
  }

  /** The integer part of a non-negative value is the only integer that brackets it. */
  lemma TruncUnique(r: real, n: int)
    requires 0 <= n && n as real <= r < n as real + 1.0
    ensures Trunc(r) == n
  {
  }

  /** Magnitude of an integer. */
  function IntAbs(n: int): (m: int)
    ensures 0 <= m
  {
    if n < 0 then -n else n
  }

  /** Euclidean division of a non-negative number by a positive one. */
  lemma DivModNonNeg(n: int, m: int)
    requires 0 <= n && 0 < m
    ensures 0 <= n / m && 0 <= n % m < m
    ensures n == (n / m) * m + n % m
  {
  }

  /** C++ `a / b` on `int`: the quotient is truncated toward zero. */
  function CppQuot(a: int, b: int): (q: int)
    requires b != 0
    ensures IntAbs(q) == IntAbs(a) / IntAbs(b)
    ensures q != 0 ==> (q < 0 <==> (a < 0) != (b < 0))
  {
    var n, m := IntAbs(a), IntAbs(b);
    DivModNonNeg(n, m);
    if (a < 0) == (b < 0) then n / m else -(n / m)
  }

  /** C++ `a % b` on `int`: the remainder takes the sign of the dividend, so that
      `(a / b) * b + a % b == a` with the truncating quotient. */
  function CppRem(a: int, b: int): (r: int)
    requires b != 0
    ensures a == CppQuot(a, b) * b + r
    ensures 0 <= a ==> 0 <= r < IntAbs(b)
    ensures a < 0 ==> -IntAbs(b) < r <= 0
    ensures 0 <= a && 0 < b ==> r == a % b
  {
    var n, m := IntAbs(a), IntAbs(b);
    DivModNonNeg(n, m);
    QuotTimesDivisor(a, b);
    var t, u := n / m, n % m;
    assert n == t * m + u;
    if a >= 0 then u else -u
  }

  /** The truncating quotient times the divisor is the dividend's magnitude rounded
      down to a multiple of the divisor, with the dividend's sign. */
  lemma QuotTimesDivisor(a: int, b: int)
    requires b != 0
    ensures CppQuot(a, b) * b == if a < 0 then -((IntAbs(a) / IntAbs(b)) * IntAbs(b))
                                 else (IntAbs(a) / IntAbs(b)) * IntAbs(b)
  {
    var t, m := IntAbs(a) / IntAbs(b), IntAbs(b);
    if a < 0 && b < 0 {
      assert CppQuot(a, b) == t && b == -m;
      assert t * (-m) == -(t * m);
    } else if a < 0 {
      assert CppQuot(a, b) == -t && b == m;
      assert (-t) * m == -(t * m);
    } else if b < 0 {
      assert CppQuot(a, b) == -t && b == -m;
      assert (-t) * (-m) == t * m;
    } else {
      assert CppQuot(a, b) == t && b == m;
    }
  }
}
