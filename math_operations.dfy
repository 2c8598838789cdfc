/** `add` and `subtract` from the arithmetic exercise. Python integers have arbitrary
    precision, so Dafny's unbounded `int` is the exact model: there is no wrap-around. */
module MathOperations {

  /** `add`: the number that exceeds `a` by `b` (and `b` by `a`). */
  function Add(a: int, b: int): (r: int)
    ensures r - b == a && r - a == b
  {
    a + b
  }

  /** `subtract`: the number that `b` must be added to in order to give `a`. */
  function Subtract(a: int, b: int): (r: int)
    ensures r + b == a
  {
    a - b
  }

  /** Subtracting what was added gives the original number back, and the other way round. */
  lemma SubtractUndoesAdd(a: int, b: int)
    ensures Subtract(Add(a, b), b) == a
    ensures Add(Subtract(a, b), b) == a
  {
  }

  /** The two calls the module makes when it is run as a script. */
  lemma ScriptResults()
    ensures Add(5, 3) == 8
    ensures Subtract(10, 4) == 6
  {
  }
}
