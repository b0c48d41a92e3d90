/** The ints of Java: what they hold of a number. */
module Ints {

  const INT_LIMIT: int := 0x8000_0000

  /** What an int holds of a number. */
  function Wrap(x: int): (r: int)
    ensures -INT_LIMIT <= r < INT_LIMIT
    ensures -INT_LIMIT <= x < INT_LIMIT ==> r == x
    ensures INT_LIMIT <= x < 2 * INT_LIMIT ==> r == x - 2 * INT_LIMIT
  {
    (x + INT_LIMIT) % (2 * INT_LIMIT) - INT_LIMIT
  }

  lemma WrapStep(a: int, b: int)
    ensures Wrap(Wrap(a) + b) == Wrap(a + b)
  {
    var m := 2 * INT_LIMIT;
    var u := a + INT_LIMIT;
    assert Wrap(a) == a - u / m * m;
    assert (u + b - u / m * m) % m == (u + b) % m;
  }
}
