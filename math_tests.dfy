/** The `math` module of the testing tutorial and the assertions of its tests. */
module MathTests {
  import opened Numbers

  /** `math::add`, for operands whose sum fits in an i32 (a debug build panics otherwise). */
  function Add(a: i32, b: i32): (r: i32)
    requires InI32(a + b)
  {
    a + b
  }

  /** `math::subtract`, for operands whose difference fits in an i32. */
  function Subtract(a: i32, b: i32): (r: i32)
    requires InI32(a - b)
  {
    a - b
  }

  /** Subtracting what was added gives back the first operand, and the reverse. */
  lemma AddSubtractInverse(a: i32, b: i32)
    requires InI32(a + b) && InI32(a - b)
    ensures Subtract(Add(a, b), b) == a
    ensures Add(Subtract(a, b), b) == a
  {
  }

  /** Addition commutes; subtracting an operand from itself gives zero. */
  lemma AddCommutes(a: i32, b: i32)
    requires InI32(a + b)
    ensures Add(a, b) == Add(b, a)
    ensures Subtract(a, a) == 0
  {
  }

  /** `test_add`. */
  lemma TestAdd()
    ensures Add(2, 3) == 5 && Add(-1, 1) == 0 && Add(0, 0) == 0
  {
  }

  /** `test_subtract`. */
  lemma TestSubtract()
    ensures Subtract(5, 3) == 2 && Subtract(3, 5) == -2 && Subtract(0, 0) == 0
  {
  }

  /** `test_add_failure`: the `assert_ne!` holds. */
  lemma TestAddFailure()
    ensures Add(2, 2) != 5
  {
  }
}
