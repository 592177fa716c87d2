// Result types and 32-bit arithmetic shared by the other modules.
module Common {
  datatype Option<+T> = None | Some(value: T)

  const U32 := 0x1_0000_0000

  type uint32 = n: int | 0 <= n < U32

  // C's unsigned 32-bit addition and subtraction.
  function Add32(a: int, b: int): uint32 {
    (a + b) % U32
  }

  function Sub32(a: int, b: int): uint32 {
    (a - b) % U32
  }

  // A 32-bit counter holds the true count n up to wrap-around.
  predicate Counts(c: int, n: int) {
    c == n % U32
  }

  lemma CountsStep(c: int, n: int, d: int)
    requires Counts(c, n)
    ensures Counts(Add32(c, d), n + d) && Counts(Sub32(c, d), n - d)
  {
    SameRemainder(c + d, n / U32, n + d);
    SameRemainder(c - d, n / U32, n - d);
  }

  lemma SameRemainder(a: int, q: int, b: int)
    requires b == a + U32 * q
    ensures b % U32 == a % U32
  {
    var q', r := a / U32 + q, a % U32;
    assert b == U32 * q' + r && 0 <= r < U32;
  }

  lemma NoBorrow32(a: uint32)
    requires 0 < a
    ensures Sub32(a, 1) == a - 1
  {
  }

  // Below 2^32 nothing wraps.
  lemma NoWrap32(a: int, b: int)
    requires 0 <= a && 0 <= b && a + b < U32
    ensures Add32(a % U32, b) == a + b && Add32(a, b) == a + b
  {
  }
}
