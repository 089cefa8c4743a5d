/**
 * The arithmetic nodes `mul` and `sub` of the robot language
 * (RoboGame/src/core/MulNode.java, SubNode.java).  Other node kinds of the
 * language are not part of this model: they appear as `Leaf` nodes whose
 * evaluation and printing are supplied by a `Leaves` value.  Evaluation may
 * change the robot's state, so the state is threaded through in the order
 * the Java code evaluates the operands.
 */
module RoboNodes {
  import opened JavaLang

  datatype Expr =
    | Mul(exp1: Expr, exp2: Expr)
    | Sub(exp1: Expr, exp2: Expr)
    | Leaf(id: nat)

  /** The behaviour of the node kinds outside this model, over robot states `R`. */
  datatype Leaves<!R> = Leaves(eval: (nat, R) -> (Int32, R), show: nat -> string)

  /**
   * `evaluate(robot)`: `exp1` is evaluated first, on the incoming state, and
   * `exp2` second, on the state `exp1` left behind; the operator is Java's
   * 32-bit `*` or `-`, which wraps around.
   */
  function Evaluate<R>(e: Expr, leaves: Leaves<R>, robot: R): (Int32, R)
  {
    match e
    case Leaf(id) => leaves.eval(id, robot)
    case Mul(a, b) =>
      var (v1, r1) := Evaluate(a, leaves, robot);
      var (v2, r2) := Evaluate(b, leaves, r1);
      (Wrap32(v1 * v2), r2)
    case Sub(a, b) =>
      var (v1, r1) := Evaluate(a, leaves, robot);
      var (v2, r2) := Evaluate(b, leaves, r1);
      (Wrap32(v1 - v2), r2)
  }

  /** `toString()`: "mul(" or "sub(", the operands separated by ", ", then ")". */
  function Show<R>(e: Expr, leaves: Leaves<R>): (s: string)
    ensures e.Mul? ==> s == "mul(" + Show(e.exp1, leaves) + ", " + Show(e.exp2, leaves) + ")"
    ensures e.Sub? ==> s == "sub(" + Show(e.exp1, leaves) + ", " + Show(e.exp2, leaves) + ")"
  {
    match e
    case Leaf(id) => leaves.show(id)
    case Mul(a, b) => "mul(" + Show(a, leaves) + ", " + Show(b, leaves) + ")"
    case Sub(a, b) => "sub(" + Show(a, leaves) + ", " + Show(b, leaves) + ")"
  }

  /** A `mul` node and a `sub` node never print the same text. */
  lemma MulSubPrintDifferently<R>(a: Expr, b: Expr, c: Expr, d: Expr, leaves: Leaves<R>)
    ensures Show(Mul(a, b), leaves) != Show(Sub(c, d), leaves)
  {
    assert Show(Mul(a, b), leaves)[0] == 'm';
    assert Show(Sub(c, d), leaves)[0] == 's';
  }

  /** Leaves that read the robot but never change it. */
  ghost predicate SideEffectFree<R(!new)>(leaves: Leaves<R>)
  {
    forall id, robot :: leaves.eval(id, robot).1 == robot
  }

  /**
   * The exact (unbounded) value of an expression over a fixed robot state:
   * the reference against which the 32-bit evaluation is checked.
   */
  function ExactValue<R>(e: Expr, leaves: Leaves<R>, robot: R): int
  {
    match e
    case Leaf(id) => leaves.eval(id, robot).0
    case Mul(a, b) => ExactValue(a, leaves, robot) * ExactValue(b, leaves, robot)
    case Sub(a, b) => ExactValue(a, leaves, robot) - ExactValue(b, leaves, robot)
  }

  lemma ProductCongruent(x: int, y: int, x': int, y': int)
    requires (x - x') % TWO_TO_THE_32 == 0 && (y - y') % TWO_TO_THE_32 == 0
    ensures (x * y - x' * y') % TWO_TO_THE_32 == 0
  {
    var m := TWO_TO_THE_32;
    var k, j := (x - x') / m, (y - y') / m;
    assert x == x' + k * m;
    assert y == y' + j * m;
    calc {
      x * y - x' * y';
      (x' + k * m) * (y' + j * m) - x' * y';
      (x' * j + k * y' + k * j * m) * m;
    }
    ModAddMultiple(0, x' * j + k * y' + k * j * m);
  }

  lemma DifferenceCongruent(x: int, y: int, x': int, y': int)
    requires (x - x') % TWO_TO_THE_32 == 0 && (y - y') % TWO_TO_THE_32 == 0
    ensures ((x - y) - (x' - y')) % TWO_TO_THE_32 == 0
  {
    var m := TWO_TO_THE_32;
    var k, j := (x - x') / m, (y - y') / m;
    assert (x - y) - (x' - y') == (k - j) * m;
    ModAddMultiple(0, k - j);
  }

  /**
   * With side-effect-free leaves, evaluation leaves the robot unchanged and
   * its 32-bit result is the exact value wrapped into `int`: the wrap-around
   * of every intermediate `*` and `-` never changes the final value modulo 2^32.
   */
  lemma {:induction false} EvaluateIsWrappedExactValue<R(!new)>(e: Expr, leaves: Leaves<R>, robot: R)
    requires SideEffectFree(leaves)
    ensures Evaluate(e, leaves, robot) == (Wrap32(ExactValue(e, leaves, robot)), robot)
  {
    hide Wrap32;
    match e
    case Leaf(id) =>
      assert leaves.eval(id, robot).1 == robot;
    case Mul(a, b) =>
      EvaluateIsWrappedExactValue(a, leaves, robot);
      EvaluateIsWrappedExactValue(b, leaves, robot);
      WrappedProduct(ExactValue(a, leaves, robot), ExactValue(b, leaves, robot));
    case Sub(a, b) =>
      EvaluateIsWrappedExactValue(a, leaves, robot);
      EvaluateIsWrappedExactValue(b, leaves, robot);
      WrappedDifference(ExactValue(a, leaves, robot), ExactValue(b, leaves, robot));
  }

  /** Wrapping the factors first does not change the wrapped product. */
  lemma WrappedProduct(x: int, y: int)
    ensures Wrap32(Wrap32(x) * Wrap32(y)) == Wrap32(x * y)
  {
    ProductCongruent(Wrap32(x), Wrap32(y), x, y);
    Wrap32Congruent(Wrap32(x) * Wrap32(y), x * y);
  }

  /** Wrapping the operands first does not change the wrapped difference. */
  lemma WrappedDifference(x: int, y: int)
    ensures Wrap32(Wrap32(x) - Wrap32(y)) == Wrap32(x - y)
  {
    DifferenceCongruent(Wrap32(x), Wrap32(y), x, y);
    Wrap32Congruent(Wrap32(x) - Wrap32(y), x - y);
  }

  /** Swapping the operands of `mul` does not change its value when the operands have no side effects. */
  lemma MulOperandsCommute<R(!new)>(a: Expr, b: Expr, leaves: Leaves<R>, robot: R)
    requires SideEffectFree(leaves)
    ensures Evaluate(Mul(b, a), leaves, robot).0 == Evaluate(Mul(a, b), leaves, robot).0
  {
    EvaluateIsWrappedExactValue(Mul(a, b), leaves, robot);
    EvaluateIsWrappedExactValue(Mul(b, a), leaves, robot);
  }

  /** Swapping the operands of `sub` negates its value modulo 2^32 when the operands have no side effects. */
  lemma SubOperandsAntiCommute<R(!new)>(a: Expr, b: Expr, leaves: Leaves<R>, robot: R)
    requires SideEffectFree(leaves)
    ensures Evaluate(Sub(b, a), leaves, robot).0 == Wrap32(-(Evaluate(Sub(a, b), leaves, robot).0 as int))
  {
    hide Evaluate, Wrap32;
    EvaluateIsWrappedExactValue(Sub(a, b), leaves, robot);
    EvaluateIsWrappedExactValue(Sub(b, a), leaves, robot);
    WrappedNegation(ExactValue(a, leaves, robot), ExactValue(b, leaves, robot));
  }

  /** In 32-bit arithmetic `y - x` is the negation of `x - y`. */
  lemma WrappedNegation(x: int, y: int)
    ensures Wrap32(y - x) == Wrap32(-(Wrap32(x - y) as int))
  {
    var w: int := Wrap32(x - y);
    var k := (w - (x - y)) / TWO_TO_THE_32;
    assert w - (x - y) == k * TWO_TO_THE_32;
    assert -w - (y - x) == (-k) * TWO_TO_THE_32;
    ModAddMultiple(0, -k);
    Wrap32Congruent(-w, y - x);
  }

  /**
   * The operands are evaluated left to right: with a leaf that returns a
   * counter and then increments it, `sub(c, c)` starting from 5 yields
   * 5 - 6 and leaves the counter at 7.
   */
  lemma LeftOperandEvaluatedFirst()
    ensures var counter := Leaves((id: nat, n: int) => (Wrap32(n), n + 1), (id: nat) => "c");
            Evaluate(Sub(Leaf(0), Leaf(0)), counter, 5) == (-1, 7)
  {
  }
}
