/**
 * MatMatMultCore, the kernel every product expression is built from, and
 * the primal MatMatMult. The kernel's own source is not part of this model;
 * it is given here by its mathematical effect on the output buffer, with a
 * straightforward loop as its body.
 */
module GemmCore {
  import opened A2DEnum
  import opened Dense
  import opened A2DMatrix
  import opened GemmSpec

  /** op1(X) * op2(Y) is defined and opOut of it has the shape of Z (the template shape checks). */
  predicate CoreShapes(op1: MatOp, X: Mat, op2: MatOp, Y: Mat, opOut: MatOp, Z: Mat)
  {
    OCols(op1, X.m, X.n) == ORows(op2, Y.m, Y.n) &&
    Z.m == ORows(opOut, ORows(op1, X.m, X.n), OCols(op2, Y.m, Y.n)) &&
    Z.n == OCols(opOut, ORows(op1, X.m, X.n), OCols(op2, Y.m, Y.n))
  }

  /** One more term of the dot product giving element (i, j) of P * Q. */
  lemma DotStep(P: Matrix, Q: Matrix, i: int, j: int, k: nat, x: real, y: real)
    requires x == Entry(P, i, k) && y == Entry(Q, k, j)
    ensures Sum(k + 1, l => Entry(P, i, l) * Entry(Q, l, j)) == Sum(k, l => Entry(P, i, l) * Entry(Q, l, j)) + x * y
  {
    var f := l => Entry(P, i, l) * Entry(Q, l, j);
    assert f(k) == x * y;
    SumLast(k, f);
  }

  /** Element (i, j) of P * Q: a dot product over the inner dimension. */
  method Dot(P: Matrix, Q: Matrix, i: int, j: int) returns (s: real)
    requires Wf(P) && Wf(Q) && P.cols == Q.rows && 0 <= i < P.rows && 0 <= j < Q.cols
    ensures s == Entry(Product(P, Q), i, j)
  {
    s := 0.0;
    var k := 0;
    while k < P.cols
      invariant 0 <= k <= P.cols
      invariant s == Sum(k, l => Entry(P, i, l) * Entry(Q, l, j))
    {
      var x := Entry(P, i, k);
      var y := Entry(Q, k, j);
      DotStep(P, Q, i, j, k, x, y);
      s := s + x * y;
      k := k + 1;
    }
  }

  /** The partly written output: rows before i, and row i before column j, hold T; the rest holds Z0. */
  function Mix(T: Matrix, Z0: Matrix, i: int, j: int): (M: Matrix)
    ensures HasShape(M, T.rows, T.cols)
    ensures forall a, c :: 0 <= a < T.rows && 0 <= c < T.cols ==>
              Entry(M, a, c) == if a < i || (a == i && c < j) then Entry(T, a, c) else Entry(Z0, a, c)
  {
    Build(T.rows, T.cols, (a, c) => if a < i || (a == i && c < j) then Entry(T, a, c) else Entry(Z0, a, c))
  }

  lemma MixStart(T: Matrix, Z0: Matrix)
    requires SameShape(T, Z0)
    ensures Mix(T, Z0, 0, 0) == Z0
  {
    Ext(Mix(T, Z0, 0, 0), Z0);
  }

  lemma MixStep(T: Matrix, Z0: Matrix, i: int, j: int)
    requires SameShape(T, Z0)
    ensures Update(Mix(T, Z0, i, j), i, j, Entry(T, i, j)) == Mix(T, Z0, i, j + 1)
  {
    Ext(Update(Mix(T, Z0, i, j), i, j, Entry(T, i, j)), Mix(T, Z0, i, j + 1));
  }

  lemma MixRow(T: Matrix, Z0: Matrix, i: int)
    requires SameShape(T, Z0)
    ensures Mix(T, Z0, i, T.cols) == Mix(T, Z0, i + 1, 0)
  {
    Ext(Mix(T, Z0, i, T.cols), Mix(T, Z0, i + 1, 0));
  }

  lemma MixEnd(T: Matrix, Z0: Matrix)
    requires SameShape(T, Z0)
    ensures Mix(T, Z0, T.rows, 0) == T
  {
    Ext(Mix(T, Z0, T.rows, 0), T);
  }

  /** Writing element (i, j) of T advances the partly written output by one element. */
  method WriteNext(Z: Mat, ghost T: Matrix, ghost Z0: Matrix, i: int, j: int, v: real)
    requires Z.Valid() && HasShape(T, Z.m, Z.n) && HasShape(Z0, Z.m, Z.n)
    requires 0 <= i < Z.m && 0 <= j < Z.n
    requires Z.Value() == Mix(T, Z0, i, j)
    requires v == Entry(T, i, j)
    modifies Z.A
    ensures Z.Value() == Mix(T, Z0, i, j + 1)
  {
    Z.Put(i, j, v);
    MixStep(T, Z0, i, j);
  }

  /** Element (i, j) of opOut(op1(X) * op2(Y)). */
  method CoreAt(op1: MatOp, op2: MatOp, opOut: MatOp, X: Mat, Y: Mat, Z: Mat, i: int, j: int) returns (s: real)
    requires X.Valid() && Y.Valid() && CoreShapes(op1, X, op2, Y, opOut, Z) && 0 <= i < Z.m && 0 <= j < Z.n
    ensures s == Entry(Core(op1, X.Value(), op2, Y.Value(), opOut), i, j)
  {
    var P, Q := Orient(op1, X.Value()), Orient(op2, Y.Value());
    if opOut == NORMAL {
      s := Dot(P, Q, i, j);
    } else {
      s := Dot(P, Q, j, i);
    }
  }

  /** What the kernel leaves in its output Z0: the product, or Z0 plus the product. */
  function Target(additive: bool, Z0: Matrix, R: Matrix): Matrix
  {
    if additive then Plus(Z0, R) else R
  }

  /** The value the kernel writes at (i, j), in terms of the old entry z and the product entry s. */
  lemma TargetEntry(additive: bool, Z0: Matrix, R: Matrix, i: int, j: int, z: real, s: real)
    requires SameShape(Z0, R) && 0 <= i < Z0.rows && 0 <= j < Z0.cols
    requires z == Entry(Z0, i, j) && s == Entry(R, i, j)
    ensures (if additive then z + s else s) == Entry(Target(additive, Z0, R), i, j)
  {
  }

  /** Row i of the kernel's loop, writing R (or Z0 + R) where X0, Y0 are the values of X, Y. */
  method CoreRow(op1: MatOp, op2: MatOp, opOut: MatOp, additive: bool, X: Mat, Y: Mat, Z: Mat,
                 ghost X0: Matrix, ghost Y0: Matrix, ghost Z0: Matrix, ghost R: Matrix, i: int)
    requires X.Valid() && Y.Valid() && Z.Valid() && CoreShapes(op1, X, op2, Y, opOut, Z)
    requires Z.A != X.A && Z.A != Y.A && 0 <= i < Z.m
    requires X.Value() == X0 && Y.Value() == Y0 && R == Core(op1, X0, op2, Y0, opOut)
    requires HasShape(Z0, Z.m, Z.n) && HasShape(R, Z.m, Z.n)
    requires Z.Value() == Mix(Target(additive, Z0, R), Z0, i, 0)
    modifies Z.A
    ensures Z.Value() == Mix(Target(additive, Z0, R), Z0, i + 1, 0)
  {
    ghost var T := Target(additive, Z0, R);
    var j := 0;
    while j < Z.n
      invariant 0 <= j <= Z.n
      invariant X.Value() == X0 && Y.Value() == Y0
      invariant Z.Value() == Mix(T, Z0, i, j)
    {
      var s := CoreAt(op1, op2, opOut, X, Y, Z, i, j);
      var z := Z.At(i, j);
      TargetEntry(additive, Z0, R, i, j, z, s);
      var v := if additive then z + s else s;
      WriteNext(Z, T, Z0, i, j, v);
      j := j + 1;
    }
    MixRow(T, Z0, i);
  }

  /**
   * MatMatMultCore<op1, op2, opOut, additive>(X, Y, Z):
   * Z := opOut(op1(X) * op2(Y)), or Z := Z + opOut(op1(X) * op2(Y)) when additive.
   */
  method MatMatMultCore(op1: MatOp, op2: MatOp, opOut: MatOp, additive: bool, X: Mat, Y: Mat, Z: Mat)
    requires X.Valid() && Y.Valid() && Z.Valid() && CoreShapes(op1, X, op2, Y, opOut, Z)
    requires Z.A != X.A && Z.A != Y.A
    modifies Z.A
    ensures Z.Value() == if additive then Plus(old(Z.Value()), Core(op1, X.Value(), op2, Y.Value(), opOut))
                         else Core(op1, X.Value(), op2, Y.Value(), opOut)
  {
    ghost var X0, Y0, Z0 := X.Value(), Y.Value(), Z.Value();
    ghost var R := Core(op1, X0, op2, Y0, opOut);
    ghost var T := Target(additive, Z0, R);
    MixStart(T, Z0);
    var i := 0;
    while i < Z.m
      invariant 0 <= i <= Z.m
      invariant X.Value() == X0 && Y.Value() == Y0
      invariant Z.Value() == Mix(T, Z0, i, 0)
    {
      CoreRow(op1, op2, opOut, additive, X, Y, Z, X0, Y0, Z0, R, i);
      i := i + 1;
    }
    MixEnd(T, Z0);
  }

  /** The primal MatMatMult(A, B, C): C := opA(A) * opB(B). */
  method MatMatMult(opA: MatOp, opB: MatOp, A: Mat, B: Mat, C: Mat)
    requires A.Valid() && B.Valid() && C.Valid() && CoreShapes(opA, A, opB, B, NORMAL, C)
    requires C.A != A.A && C.A != B.A
    modifies C.A
    ensures C.Value() == Core(opA, A.Value(), opB, B.Value(), NORMAL)
  {
    MatMatMultCore(opA, opB, NORMAL, false, A, B, C);
  }
}
