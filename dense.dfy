/**
 * Exact dense-matrix algebra over the reals. The AD kernels are specified in
 * these terms: a matrix value has a shape and a grid of entries, read through
 * the total accessor Entry (zero outside the shape).
 */
module Dense {
  import opened A2DEnum

  // ---------------------------------------------------------------------
  // Finite sums
  // ---------------------------------------------------------------------

  /** f(0) + ... + f(n - 1). */
  function Sum(n: nat, f: int -> real): real
  {
    if n == 0 then 0.0 else Sum(n - 1, f) + f(n - 1)
  }

  /** Peeling off the last term. */
  lemma SumLast(n: nat, f: int -> real)
    ensures Sum(n + 1, f) == Sum(n, f) + f(n)
  {
  }

  lemma {:induction false} SumExt(n: nat, f: int -> real, g: int -> real)
    requires forall k :: 0 <= k < n ==> f(k) == g(k)
    ensures Sum(n, f) == Sum(n, g)
  {
    if n > 0 {
      SumExt(n - 1, f, g);
    }
  }

  lemma {:induction false} SumOfZeros(n: nat, f: int -> real)
    requires forall k :: 0 <= k < n ==> f(k) == 0.0
    ensures Sum(n, f) == 0.0
  {
    if n > 0 {
      SumOfZeros(n - 1, f);
    }
  }

  lemma {:induction false} SumAdd(n: nat, f: int -> real, g: int -> real)
    ensures Sum(n, f) + Sum(n, g) == Sum(n, k => f(k) + g(k))
  {
    if n > 0 {
      SumAdd(n - 1, f, g);
    }
  }

  lemma {:induction false} SumScale(n: nat, a: real, f: int -> real)
    ensures a * Sum(n, f) == Sum(n, k => a * f(k))
  {
    if n > 0 {
      SumScale(n - 1, a, f);
    }
  }

  /** Sum(n, h) = t * Sum(n, f) when every term of h is t times that of f. */
  lemma {:induction false} SumScaleWith(n: nat, t: real, h: int -> real, f: int -> real)
    requires forall k :: 0 <= k < n ==> h(k) == t * f(k)
    ensures Sum(n, h) == t * Sum(n, f)
  {
    if n > 0 {
      SumScaleWith(n - 1, t, h, f);
      Distribute(Sum(n - 1, f), f(n - 1), t);
    }
  }

  /** Sum(n, h) = Sum(n, f) + Sum(n, g) when every term of h is that of f plus that of g. */
  lemma {:induction false} SumAddWith(n: nat, h: int -> real, f: int -> real, g: int -> real)
    requires forall k :: 0 <= k < n ==> h(k) == f(k) + g(k)
    ensures Sum(n, h) == Sum(n, f) + Sum(n, g)
  {
    if n > 0 {
      SumAddWith(n - 1, h, f, g);
    }
  }

  /** A finite double sum may be taken in either order. */
  lemma {:induction false} SumSwap(m: nat, n: nat, f: (int, int) -> real)
    ensures Sum(m, i => Sum(n, j => f(i, j))) == Sum(n, j => Sum(m, i => f(i, j)))
  {
    if m > 0 {
      var Rows := i => Sum(n, j => f(i, j));
      var Cols := j => Sum(m, i => f(i, j));
      var F := j => Sum(m - 1, i => f(i, j));
      var G := j => f(m - 1, j);
      SumSwap(m - 1, n, f);
      assert Rows(m - 1) == Sum(n, G);
      SumAdd(n, F, G);
      forall k | 0 <= k < n
        ensures F(k) + G(k) == Cols(k)
      {
        SumExt(m - 1, i => f(i, k), (i => f(i, k)));
      }
      SumExt(n, k => F(k) + G(k), Cols);
    } else {
      SumOfZeros(n, j => Sum(m, i => f(i, j)));
    }
  }

  /** SumSwap, with the summand of the swapped sum given by its own function. */
  lemma SumSwapWith(m: nat, n: nat, f: (int, int) -> real, g: (int, int) -> real)
    requires forall i, j {:trigger g(j, i)} :: 0 <= i < m && 0 <= j < n ==> g(j, i) == f(i, j)
    ensures Sum(m, i => Sum(n, j => f(i, j))) == Sum(n, a => Sum(m, c => g(a, c)))
  {
    SumSwap(m, n, f);
    var L := j => Sum(m, i => f(i, j));
    var R := a => Sum(m, c => g(a, c));
    forall a | 0 <= a < n
      ensures L(a) == R(a)
    {
      SumExt(m, i => f(i, a), c => g(a, c));
    }
    SumExt(n, L, R);
  }

  /** Rewriting every term of a double sum. */
  lemma DoubleSumExt(m: nat, n: nat, F: int -> real, f: (int, int) -> real)
    requires forall i :: 0 <= i < m ==> F(i) == Sum(n, j => f(i, j))
    ensures Sum(m, F) == Sum(m, i => Sum(n, j => f(i, j)))
  {
    SumExt(m, F, i => Sum(n, j => f(i, j)));
  }

  // ---------------------------------------------------------------------
  // Matrices
  // ---------------------------------------------------------------------

  datatype Matrix = Matrix(rows: nat, cols: nat, e: seq<seq<real>>)

  predicate Wf(X: Matrix)
  {
    |X.e| == X.rows && forall i :: 0 <= i < X.rows ==> |X.e[i]| == X.cols
  }

  predicate HasShape(X: Matrix, r: nat, c: nat)
  {
    Wf(X) && X.rows == r && X.cols == c
  }

  predicate SameShape(X: Matrix, Y: Matrix)
  {
    Wf(X) && HasShape(Y, X.rows, X.cols)
  }

  /** Entry (i, j), or 0 outside the grid. */
  function Entry(X: Matrix, i: int, j: int): real
  {
    if 0 <= i < |X.e| && 0 <= j < |X.e[i]| then X.e[i][j] else 0.0
  }

  /** The first k entries of row i of the matrix whose entry (i, j) is f(i, j). */
  function BuildRow(i: int, k: nat, f: (int, int) -> real): (row: seq<real>)
    ensures |row| == k && forall j {:trigger row[j]} :: 0 <= j < k ==> row[j] == f(i, j)
  {
    if k == 0 then [] else BuildRow(i, k - 1, f) + [f(i, k - 1)]
  }

  /** The r-by-c matrix whose entry (i, j) is f(i, j). */
  function Build(r: nat, c: nat, f: (int, int) -> real): (X: Matrix)
    ensures HasShape(X, r, c)
    ensures forall i, j {:trigger Entry(X, i, j)} :: Entry(X, i, j) == if 0 <= i < r && 0 <= j < c then f(i, j) else 0.0
  {
    Matrix(r, c, seq(r, i => BuildRow(i, c, f)))
  }

  /** Two matrices of one shape with the same entries are the same matrix. */
  lemma Ext(X: Matrix, Y: Matrix)
    requires SameShape(X, Y)
    requires forall i, j :: 0 <= i < X.rows && 0 <= j < X.cols ==> Entry(X, i, j) == Entry(Y, i, j)
    ensures X == Y
  {
    forall i | 0 <= i < X.rows
      ensures X.e[i] == Y.e[i]
    {
      forall j | 0 <= j < X.cols
        ensures X.e[i][j] == Y.e[i][j]
      {
        assert Entry(X, i, j) == Entry(Y, i, j);
      }
    }
    assert X.e == Y.e;
  }

  function Zeros(r: nat, c: nat): (Z: Matrix)
    ensures HasShape(Z, r, c)
    ensures forall i, j {:trigger Entry(Z, i, j)} :: Entry(Z, i, j) == 0.0
  {
    Build(r, c, (i, j) => 0.0)
  }

  function Plus(X: Matrix, Y: Matrix): (R: Matrix)
    ensures HasShape(R, X.rows, X.cols)
    ensures SameShape(X, Y) ==> forall i, j {:trigger Entry(R, i, j)} :: Entry(R, i, j) == Entry(X, i, j) + Entry(Y, i, j)
  {
    Build(X.rows, X.cols, (i, j) => Entry(X, i, j) + Entry(Y, i, j))
  }

  function Scaled(t: real, X: Matrix): (R: Matrix)
    ensures HasShape(R, X.rows, X.cols)
    ensures Wf(X) ==> forall i, j {:trigger Entry(R, i, j)} :: Entry(R, i, j) == t * Entry(X, i, j)
  {
    Build(X.rows, X.cols, (i, j) => t * Entry(X, i, j))
  }

  function Transpose(X: Matrix): (R: Matrix)
    ensures HasShape(R, X.cols, X.rows)
    ensures Wf(X) ==> forall i, j {:trigger Entry(R, i, j)} :: Entry(R, i, j) == Entry(X, j, i)
  {
    Build(X.cols, X.rows, (i, j) => Entry(X, j, i))
  }

  /** Row count of an r-by-c matrix read in orientation op. */
  function ORows(op: MatOp, r: nat, c: nat): nat
  {
    if op == NORMAL then r else c
  }

  /** Column count of an r-by-c matrix read in orientation op. */
  function OCols(op: MatOp, r: nat, c: nat): nat
  {
    if op == NORMAL then c else r
  }

  /** The matrix X read in orientation op. */
  function Orient(op: MatOp, X: Matrix): (R: Matrix)
    ensures Wf(X) ==> HasShape(R, ORows(op, X.rows, X.cols), OCols(op, X.rows, X.cols))
    ensures Wf(X) ==> forall i, j {:trigger Entry(R, i, j)} :: Entry(R, i, j) == if op == NORMAL then Entry(X, i, j) else Entry(X, j, i)
  {
    if op == NORMAL then X else Transpose(X)
  }

  /** The matrix product; the inner dimension is X.cols. */
  function Product(X: Matrix, Y: Matrix): (R: Matrix)
    ensures HasShape(R, X.rows, Y.cols)
    ensures forall i, j {:trigger Entry(R, i, j)} :: 0 <= i < X.rows && 0 <= j < Y.cols ==>
              Entry(R, i, j) == Sum(X.cols, k => Entry(X, i, k) * Entry(Y, k, j))
  {
    Build(X.rows, Y.cols, (i, j) => Sum(X.cols, k => Entry(X, i, k) * Entry(Y, k, j)))
  }

  /** Row i's share of the Frobenius inner product. */
  function RowDot(X: Matrix, Y: Matrix, i: int): real
  {
    Sum(X.cols, j => Entry(X, i, j) * Entry(Y, i, j))
  }

  /** Frobenius inner product: the sum of the entrywise products. */
  function Inner(X: Matrix, Y: Matrix): real
  {
    Sum(X.rows, i => RowDot(X, Y, i))
  }

  /** The inner product as a double sum of a given summand. */
  lemma InnerAsDoubleSum(X: Matrix, Y: Matrix, r: nat, c: nat, f: (int, int) -> real)
    requires HasShape(X, r, c)
    requires forall i, j {:trigger f(i, j)} :: 0 <= i < r && 0 <= j < c ==> Entry(X, i, j) * Entry(Y, i, j) == f(i, j)
    ensures Inner(X, Y) == Sum(r, a => Sum(c, b => f(a, b)))
  {
    forall i | 0 <= i < r
      ensures RowDot(X, Y, i) == Sum(c, b => f(i, b))
    {
      SumExt(c, j => Entry(X, i, j) * Entry(Y, i, j), b => f(i, b));
    }
    DoubleSumExt(r, c, i => RowDot(X, Y, i), f);
  }

  /** The top-left r-by-c block of X. */
  function Block(X: Matrix, r: nat, c: nat): (R: Matrix)
    ensures HasShape(R, r, c)
    ensures forall i, j {:trigger Entry(R, i, j)} :: 0 <= i < r && 0 <= j < c ==> Entry(R, i, j) == Entry(X, i, j)
  {
    Build(r, c, (i, j) => Entry(X, i, j))
  }

  /** X with element (i, j) replaced by v. */
  function Update(X: Matrix, i: int, j: int, v: real): (R: Matrix)
    ensures HasShape(R, X.rows, X.cols)
    ensures forall a, b {:trigger Entry(R, a, b)} :: 0 <= a < X.rows && 0 <= b < X.cols ==>
              Entry(R, a, b) == if a == i && b == j then v else Entry(X, a, b)
  {
    Build(X.rows, X.cols, (a, b) => if a == i && b == j then v else Entry(X, a, b))
  }

  /** X with its top-left block overwritten by Y. */
  function Paste(X: Matrix, Y: Matrix): (R: Matrix)
    ensures HasShape(R, X.rows, X.cols)
    ensures forall i, j {:trigger Entry(R, i, j)} :: 0 <= i < X.rows && 0 <= j < X.cols ==>
              Entry(R, i, j) == if i < Y.rows && j < Y.cols then Entry(Y, i, j) else Entry(X, i, j)
  {
    Build(X.rows, X.cols, (i, j) => if i < Y.rows && j < Y.cols then Entry(Y, i, j) else Entry(X, i, j))
  }

  // ---------------------------------------------------------------------
  // Facts about the operations
  // ---------------------------------------------------------------------

  lemma BlockOfWhole(X: Matrix)
    requires Wf(X)
    ensures Block(X, X.rows, X.cols) == X
  {
    Ext(Block(X, X.rows, X.cols), X);
  }

  lemma PasteWhole(X: Matrix, Y: Matrix)
    requires SameShape(X, Y)
    ensures Paste(X, Y) == Y
  {
    Ext(Paste(X, Y), Y);
  }

  lemma TransposeInvolutive(X: Matrix)
    requires Wf(X)
    ensures Transpose(Transpose(X)) == X
  {
    Ext(Transpose(Transpose(X)), X);
  }

  /**
   * Reading a matrix in the negated orientation is transposing its reading in
   * the original orientation.
   */
  lemma NegateOrient(op: MatOp, X: Matrix)
    requires Wf(X)
    ensures Orient(NegateOp(op), X) == Transpose(Orient(op, X))
  {
    if op == TRANSPOSE {
      TransposeInvolutive(X);
    }
  }

  lemma OrientPlus(op: MatOp, X: Matrix, Y: Matrix)
    requires SameShape(X, Y)
    ensures Orient(op, Plus(X, Y)) == Plus(Orient(op, X), Orient(op, Y))
  {
    Ext(Orient(op, Plus(X, Y)), Plus(Orient(op, X), Orient(op, Y)));
  }

  lemma OrientScaled(op: MatOp, t: real, X: Matrix)
    requires Wf(X)
    ensures Orient(op, Scaled(t, X)) == Scaled(t, Orient(op, X))
  {
    Ext(Orient(op, Scaled(t, X)), Scaled(t, Orient(op, X)));
  }

  /** Inner(G, X + Y) = Inner(G, X) + Inner(G, Y). */
  lemma InnerPlusRight(G: Matrix, X: Matrix, Y: Matrix)
    requires SameShape(G, X) && SameShape(G, Y)
    ensures Inner(G, Plus(X, Y)) == Inner(G, X) + Inner(G, Y)
  {
    var Z := Plus(X, Y);
    var RX := i => RowDot(G, X, i);
    var RY := i => RowDot(G, Y, i);
    forall i | 0 <= i < G.rows
      ensures RowDot(G, Z, i) == RX(i) + RY(i)
    {
      var fx := j => Entry(G, i, j) * Entry(X, i, j);
      var fy := j => Entry(G, i, j) * Entry(Y, i, j);
      SumAdd(G.cols, fx, fy);
      SumExt(G.cols, j => Entry(G, i, j) * Entry(Z, i, j), k => fx(k) + fy(k));
    }
    SumAdd(G.rows, RX, RY);
    SumExt(G.rows, i => RowDot(G, Z, i), k => RX(k) + RY(k));
  }

  /** Inner(M, D^T) = Inner(M^T, D). */
  lemma InnerMoveTranspose(M: Matrix, D: Matrix)
    requires Wf(D) && HasShape(M, D.cols, D.rows)
    ensures Inner(M, Transpose(D)) == Inner(Transpose(M), D)
  {
    var g := (a: int, c: int) => Entry(M, c, a) * Entry(D, a, c);
    InnerTransposedRightSwapped(M, D, g);
    InnerTransposedLeft(M, D, g);
  }

  /** Inner(M, D^T) as the double sum of InnerTransposedLeft, summed in the other order. */
  lemma InnerTransposedRightSwapped(M: Matrix, D: Matrix, g: (int, int) -> real)
    requires Wf(D) && HasShape(M, D.cols, D.rows)
    requires forall a, c {:trigger g(a, c)} :: g(a, c) == Entry(M, c, a) * Entry(D, a, c)
    ensures Inner(M, Transpose(D)) == Sum(M.cols, a => Sum(M.rows, c => g(a, c)))
  {
    var f := (i: int, j: int) => Entry(M, i, j) * Entry(D, j, i);
    InnerTransposedRight(M, D, f);
    SumSwapWith(M.rows, M.cols, f, g);
  }

  /** Inner(M, D^T) as a double sum of M[i][j] * D[j][i]. */
  lemma InnerTransposedRight(M: Matrix, D: Matrix, f: (int, int) -> real)
    requires Wf(D) && HasShape(M, D.cols, D.rows)
    requires forall i, j {:trigger f(i, j)} :: f(i, j) == Entry(M, i, j) * Entry(D, j, i)
    ensures Inner(M, Transpose(D)) == Sum(M.rows, a => Sum(M.cols, b => f(a, b)))
  {
    InnerAsDoubleSum(M, Transpose(D), M.rows, M.cols, f);
  }

  /** Inner(M^T, D) as a double sum of M[c][a] * D[a][c]. */
  lemma InnerTransposedLeft(M: Matrix, D: Matrix, g: (int, int) -> real)
    requires Wf(D) && HasShape(M, D.cols, D.rows)
    requires forall a, c {:trigger g(a, c)} :: g(a, c) == Entry(M, c, a) * Entry(D, a, c)
    ensures Inner(Transpose(M), D) == Sum(M.cols, a => Sum(M.rows, c => g(a, c)))
  {
    InnerAsDoubleSum(Transpose(M), D, M.cols, M.rows, g);
  }

  /** Moving an orientation from one argument of the inner product to the other. */
  lemma InnerOrient(op: MatOp, M: Matrix, D: Matrix)
    requires Wf(D) && HasShape(M, ORows(op, D.rows, D.cols), OCols(op, D.rows, D.cols))
    ensures Inner(M, Orient(op, D)) == Inner(Orient(op, M), D)
  {
    if op == TRANSPOSE {
      InnerMoveTranspose(M, D);
    }
  }

  /** Entry (i, j) of G times entry (i, j) of X * Y, spread over the inner index. */
  lemma ScaledProductEntry(G: Matrix, X: Matrix, Y: Matrix, i: int, j: int)
    requires 0 <= i < X.rows && 0 <= j < Y.cols
    ensures Entry(G, i, j) * Entry(Product(X, Y), i, j)
         == Sum(X.cols, k => Entry(G, i, j) * (Entry(X, i, k) * Entry(Y, k, j)))
  {
    var a := Entry(G, i, j);
    var d := k => Entry(X, i, k) * Entry(Y, k, j);
    assert Entry(Product(X, Y), i, j) == Sum(X.cols, d);
    SumScale(X.cols, a, d);
    SumExt(X.cols, k => a * d(k), k => Entry(G, i, j) * (Entry(X, i, k) * Entry(Y, k, j)));
  }

  /** Entry (i, k) of G * Y^T times entry (i, k) of X, spread over the summed index. */
  lemma TransposedProductEntry(G: Matrix, X: Matrix, Y: Matrix, i: int, k: int)
    requires Wf(Y) && 0 <= i < G.rows && 0 <= k < Y.rows
    ensures Entry(Product(G, Transpose(Y)), i, k) * Entry(X, i, k)
         == Sum(G.cols, j => Entry(G, i, j) * (Entry(X, i, k) * Entry(Y, k, j)))
  {
    var x := Entry(X, i, k);
    var g := j => Entry(G, i, j) * Entry(Y, k, j);
    ProductTransposedEntry(G, Y, i, k);
    SumScale(G.cols, x, g);
    forall j | 0 <= j < G.cols
      ensures x * g(j) == Entry(G, i, j) * (x * Entry(Y, k, j))
    {
      Reassociate(x, Entry(G, i, j), Entry(Y, k, j));
    }
    SumExt(G.cols, j => x * g(j), j => Entry(G, i, j) * (Entry(X, i, k) * Entry(Y, k, j)));
  }

  /** Entry (i, k) of G * Y^T pairs row i of G with row k of Y. */
  lemma ProductTransposedEntry(G: Matrix, Y: Matrix, i: int, k: int)
    requires Wf(Y) && 0 <= i < G.rows && 0 <= k < Y.rows
    ensures Entry(Product(G, Transpose(Y)), i, k) == Sum(G.cols, j => Entry(G, i, j) * Entry(Y, k, j))
  {
    SumExt(G.cols, j => Entry(G, i, j) * Entry(Transpose(Y), j, k), j => Entry(G, i, j) * Entry(Y, k, j));
  }

  /** ScaledProductEntry, with the summand given by its own function. */
  lemma ScaledProductEntryWith(G: Matrix, X: Matrix, Y: Matrix, i: int, j: int, f: (int, int) -> real)
    requires 0 <= i < X.rows && 0 <= j < Y.cols
    requires forall k {:trigger f(j, k)} :: f(j, k) == Entry(G, i, j) * (Entry(X, i, k) * Entry(Y, k, j))
    ensures Entry(G, i, j) * Entry(Product(X, Y), i, j) == Sum(X.cols, k => f(j, k))
  {
    ScaledProductEntry(G, X, Y, i, j);
    SumExt(X.cols, k => Entry(G, i, j) * (Entry(X, i, k) * Entry(Y, k, j)), k => f(j, k));
  }

  /** TransposedProductEntry, with the summand given by its own function. */
  lemma TransposedProductEntryWith(G: Matrix, X: Matrix, Y: Matrix, i: int, k: int, g: (int, int) -> real)
    requires Wf(Y) && 0 <= i < G.rows && 0 <= k < Y.rows
    requires forall j {:trigger g(k, j)} :: g(k, j) == Entry(G, i, j) * (Entry(X, i, k) * Entry(Y, k, j))
    ensures Entry(Product(G, Transpose(Y)), i, k) * Entry(X, i, k) == Sum(G.cols, j => g(k, j))
  {
    TransposedProductEntry(G, X, Y, i, k);
    SumExt(G.cols, j => Entry(G, i, j) * (Entry(X, i, k) * Entry(Y, k, j)), j => g(k, j));
  }

  /** Row i of Inner(G, X * Y) as a double sum over (column of G, inner index). */
  lemma RowDotProduct(G: Matrix, X: Matrix, Y: Matrix, i: int, f: (int, int) -> real)
    requires Wf(X) && HasShape(Y, X.cols, G.cols) && HasShape(G, X.rows, Y.cols)
    requires 0 <= i < X.rows
    requires forall j, k {:trigger f(j, k)} :: f(j, k) == Entry(G, i, j) * (Entry(X, i, k) * Entry(Y, k, j))
    ensures RowDot(G, Product(X, Y), i) == Sum(Y.cols, j => Sum(X.cols, k => f(j, k)))
  {
    var P := Product(X, Y);
    var LTerm := j => Entry(G, i, j) * Entry(P, i, j);
    forall j | 0 <= j < Y.cols
      ensures LTerm(j) == Sum(X.cols, k => f(j, k))
    {
      ScaledProductEntryWith(G, X, Y, i, j, f);
    }
    DoubleSumExt(Y.cols, X.cols, LTerm, f);
  }

  /** Row i of Inner(G * Y^T, X) as a double sum over (inner index, column of G). */
  lemma RowDotTransposedProduct(G: Matrix, X: Matrix, Y: Matrix, i: int, g: (int, int) -> real)
    requires Wf(X) && HasShape(Y, X.cols, G.cols) && HasShape(G, X.rows, Y.cols)
    requires 0 <= i < X.rows
    requires forall k, j {:trigger g(k, j)} :: g(k, j) == Entry(G, i, j) * (Entry(X, i, k) * Entry(Y, k, j))
    ensures RowDot(Product(G, Transpose(Y)), X, i) == Sum(X.cols, k => Sum(G.cols, j => g(k, j)))
  {
    var W := Product(G, Transpose(Y));
    var RTerm := k => Entry(W, i, k) * Entry(X, i, k);
    forall k | 0 <= k < X.cols
      ensures RTerm(k) == Sum(G.cols, j => g(k, j))
    {
      TransposedProductEntryWith(G, X, Y, i, k, g);
    }
    DoubleSumExt(X.cols, G.cols, RTerm, g);
  }

  /** Row i of the identity Inner(G, X * Y) = Inner(G * Y^T, X). */
  lemma InnerProductLeftRow(G: Matrix, X: Matrix, Y: Matrix, i: int)
    requires Wf(X) && HasShape(Y, X.cols, G.cols) && HasShape(G, X.rows, Y.cols)
    requires 0 <= i < X.rows
    ensures RowDot(G, Product(X, Y), i) == RowDot(Product(G, Transpose(Y)), X, i)
  {
    var f := (j: int, k: int) => Entry(G, i, j) * (Entry(X, i, k) * Entry(Y, k, j));
    var g := (k: int, j: int) => Entry(G, i, j) * (Entry(X, i, k) * Entry(Y, k, j));
    RowDotProduct(G, X, Y, i, f);
    SumSwapWith(Y.cols, X.cols, f, g);
    RowDotTransposedProduct(G, X, Y, i, g);
  }

  /** Inner(G, X * Y) = Inner(G * Y^T, X): the adjoint of right multiplication. */
  lemma InnerProductLeft(G: Matrix, X: Matrix, Y: Matrix)
    requires Wf(X) && HasShape(Y, X.cols, G.cols) && HasShape(G, X.rows, Y.cols)
    ensures Inner(G, Product(X, Y)) == Inner(Product(G, Transpose(Y)), X)
  {
    var P := Product(X, Y);
    var W := Product(G, Transpose(Y));
    forall i | 0 <= i < X.rows
      ensures RowDot(G, P, i) == RowDot(W, X, i)
    {
      InnerProductLeftRow(G, X, Y, i);
    }
    SumExt(X.rows, i => RowDot(G, P, i), i => RowDot(W, X, i));
  }

  /** (X * Y)^T = Y^T * X^T. */
  lemma ProductTranspose(X: Matrix, Y: Matrix)
    requires Wf(X) && HasShape(Y, X.cols, Y.cols)
    ensures Transpose(Product(X, Y)) == Product(Transpose(Y), Transpose(X))
  {
    var L := Transpose(Product(X, Y));
    var R := Product(Transpose(Y), Transpose(X));
    forall i, j | 0 <= i < Y.cols && 0 <= j < X.rows
      ensures Entry(L, i, j) == Entry(R, i, j)
    {
      SumExt(X.cols, k => Entry(X, j, k) * Entry(Y, k, i),
                     k => Entry(Transpose(Y), i, k) * Entry(Transpose(X), k, j));
    }
    Ext(L, R);
  }

  /** Inner(X^T, Y^T) = Inner(X, Y). */
  lemma InnerTranspose(X: Matrix, Y: Matrix)
    requires SameShape(X, Y)
    ensures Inner(Transpose(X), Transpose(Y)) == Inner(X, Y)
  {
    TransposeInvolutive(Y);
    InnerOrient(TRANSPOSE, Transpose(X), Y);
    TransposeInvolutive(X);
  }

  /** Inner(G, X * Y) = Inner(X^T * G, Y): the adjoint of left multiplication. */
  lemma InnerProductRight(G: Matrix, X: Matrix, Y: Matrix)
    requires Wf(X) && HasShape(Y, X.cols, G.cols) && HasShape(G, X.rows, Y.cols)
    ensures Inner(G, Product(X, Y)) == Inner(Product(Transpose(X), G), Y)
  {
    var Xt, Yt, Gt := Transpose(X), Transpose(Y), Transpose(G);
    calc {
      Inner(G, Product(X, Y));
      { InnerTranspose(G, Product(X, Y)); }
      Inner(Gt, Transpose(Product(X, Y)));
      { ProductTranspose(X, Y); }
      Inner(Gt, Product(Yt, Xt));
      { InnerProductLeft(Gt, Yt, Xt); }
      Inner(Product(Gt, Transpose(Xt)), Yt);
      { TransposeInvolutive(X); }
      Inner(Product(Gt, X), Yt);
      { InnerOrient(TRANSPOSE, Product(Gt, X), Y); }
      Inner(Transpose(Product(Gt, X)), Y);
      { ProductTranspose(Gt, X); TransposeInvolutive(G); }
      Inner(Product(Xt, G), Y);
    }
  }

  // ---------------------------------------------------------------------
  // Bilinearity of the product and the expansion in a step t
  // ---------------------------------------------------------------------

  lemma PlusComm(X: Matrix, Y: Matrix)
    requires SameShape(X, Y)
    ensures Plus(X, Y) == Plus(Y, X)
  {
    Ext(Plus(X, Y), Plus(Y, X));
  }

  lemma PlusAssoc(X: Matrix, Y: Matrix, Z: Matrix)
    requires SameShape(X, Y) && SameShape(X, Z)
    ensures Plus(Plus(X, Y), Z) == Plus(X, Plus(Y, Z))
  {
    Ext(Plus(Plus(X, Y), Z), Plus(X, Plus(Y, Z)));
  }

  /** (A + B) + (C + D) = (A + (C + B)) + D. */
  lemma PlusRegroup(A: Matrix, B: Matrix, C: Matrix, D: Matrix)
    requires SameShape(A, B) && SameShape(A, C) && SameShape(A, D)
    ensures Plus(Plus(A, B), Plus(C, D)) == Plus(Plus(A, Plus(C, B)), D)
  {
    Ext(Plus(Plus(A, B), Plus(C, D)), Plus(Plus(A, Plus(C, B)), D));
  }

  lemma ScaledPlus(t: real, X: Matrix, Y: Matrix)
    requires SameShape(X, Y)
    ensures Scaled(t, Plus(X, Y)) == Plus(Scaled(t, X), Scaled(t, Y))
  {
    Ext(Scaled(t, Plus(X, Y)), Plus(Scaled(t, X), Scaled(t, Y)));
  }

  lemma ScaledScaled(s: real, t: real, X: Matrix)
    requires Wf(X)
    ensures Scaled(s, Scaled(t, X)) == Scaled(s * t, X)
  {
    Ext(Scaled(s, Scaled(t, X)), Scaled(s * t, X));
  }

  lemma Distribute(a: real, b: real, c: real)
    ensures (a + b) * c == a * c + b * c && c * (a + b) == c * a + c * b
  {
  }

  lemma Reassociate(t: real, a: real, b: real)
    ensures (t * a) * b == t * (a * b) && a * (t * b) == t * (a * b)
  {
  }

  /** Entry (i, j) of (U + W) V. */
  lemma ProductPlusLeftEntry(U: Matrix, W: Matrix, V: Matrix, i: int, j: int)
    requires SameShape(U, W) && 0 <= i < U.rows && 0 <= j < V.cols
    ensures Entry(Product(Plus(U, W), V), i, j) == Entry(Product(U, V), i, j) + Entry(Product(W, V), i, j)
  {
    var S := Plus(U, W);
    var f := k => Entry(U, i, k) * Entry(V, k, j);
    var g := k => Entry(W, i, k) * Entry(V, k, j);
    var h := k => Entry(S, i, k) * Entry(V, k, j);
    forall k | 0 <= k < U.cols
      ensures h(k) == f(k) + g(k)
    {
      Distribute(Entry(U, i, k), Entry(W, i, k), Entry(V, k, j));
    }
    SumAddWith(U.cols, h, f, g);
  }

  /** Entry (i, j) of U (V + W). */
  lemma ProductPlusRightEntry(U: Matrix, V: Matrix, W: Matrix, i: int, j: int)
    requires SameShape(V, W) && 0 <= i < U.rows && 0 <= j < V.cols
    ensures Entry(Product(U, Plus(V, W)), i, j) == Entry(Product(U, V), i, j) + Entry(Product(U, W), i, j)
  {
    var S := Plus(V, W);
    var f := k => Entry(U, i, k) * Entry(V, k, j);
    var g := k => Entry(U, i, k) * Entry(W, k, j);
    var h := k => Entry(U, i, k) * Entry(S, k, j);
    forall k | 0 <= k < U.cols
      ensures h(k) == f(k) + g(k)
    {
      Distribute(Entry(V, k, j), Entry(W, k, j), Entry(U, i, k));
    }
    SumAddWith(U.cols, h, f, g);
  }

  /** Entry (i, j) of (t U) V. */
  lemma ProductScaledLeftEntry(t: real, U: Matrix, V: Matrix, i: int, j: int)
    requires Wf(U) && 0 <= i < U.rows && 0 <= j < V.cols
    ensures Entry(Product(Scaled(t, U), V), i, j) == t * Entry(Product(U, V), i, j)
  {
    var S := Scaled(t, U);
    var f := k => Entry(U, i, k) * Entry(V, k, j);
    var h := k => Entry(S, i, k) * Entry(V, k, j);
    forall k | 0 <= k < U.cols
      ensures h(k) == t * f(k)
    {
      var u, v := Entry(U, i, k), Entry(V, k, j);
      assert Entry(S, i, k) == t * u;
      Reassociate(t, u, v);
    }
    SumScaleWith(U.cols, t, h, f);
  }

  /** Entry (i, j) of U (t V). */
  lemma ProductScaledRightEntry(t: real, U: Matrix, V: Matrix, i: int, j: int)
    requires Wf(V) && 0 <= i < U.rows && 0 <= j < V.cols
    ensures Entry(Product(U, Scaled(t, V)), i, j) == t * Entry(Product(U, V), i, j)
  {
    var S := Scaled(t, V);
    ScaledRightTerms(t, U, V, i, j);
    SumScaleWith(U.cols, t, k => Entry(U, i, k) * Entry(S, k, j), k => Entry(U, i, k) * Entry(V, k, j));
  }

  /** The terms of entry (i, j) of U (t V), each t times the matching term of U V. */
  lemma ScaledRightTerms(t: real, U: Matrix, V: Matrix, i: int, j: int)
    requires Wf(V) && 0 <= j < V.cols
    ensures forall k :: 0 <= k < U.cols ==> Entry(U, i, k) * Entry(Scaled(t, V), k, j) == t * (Entry(U, i, k) * Entry(V, k, j))
  {
    forall k | 0 <= k < U.cols
      ensures Entry(U, i, k) * Entry(Scaled(t, V), k, j) == t * (Entry(U, i, k) * Entry(V, k, j))
    {
      var u, v := Entry(U, i, k), Entry(V, k, j);
      assert Entry(Scaled(t, V), k, j) == t * v;
      Reassociate(t, u, v);
    }
  }

  /** (U + W) V = U V + W V. */
  lemma ProductPlusLeft(U: Matrix, W: Matrix, V: Matrix)
    requires SameShape(U, W)
    ensures Product(Plus(U, W), V) == Plus(Product(U, V), Product(W, V))
  {
    forall i, j | 0 <= i < U.rows && 0 <= j < V.cols
      ensures Entry(Product(Plus(U, W), V), i, j) == Entry(Plus(Product(U, V), Product(W, V)), i, j)
    {
      ProductPlusLeftEntry(U, W, V, i, j);
    }
    Ext(Product(Plus(U, W), V), Plus(Product(U, V), Product(W, V)));
  }

  /** U (V + W) = U V + U W. */
  lemma ProductPlusRight(U: Matrix, V: Matrix, W: Matrix)
    requires Wf(U) && SameShape(V, W)
    ensures Product(U, Plus(V, W)) == Plus(Product(U, V), Product(U, W))
  {
    forall i, j | 0 <= i < U.rows && 0 <= j < V.cols
      ensures Entry(Product(U, Plus(V, W)), i, j) == Entry(Plus(Product(U, V), Product(U, W)), i, j)
    {
      ProductPlusRightEntry(U, V, W, i, j);
    }
    Ext(Product(U, Plus(V, W)), Plus(Product(U, V), Product(U, W)));
  }

  /** (t U) V = t (U V). */
  lemma ProductScaledLeft(t: real, U: Matrix, V: Matrix)
    requires Wf(U)
    ensures Product(Scaled(t, U), V) == Scaled(t, Product(U, V))
  {
    forall i, j | 0 <= i < U.rows && 0 <= j < V.cols
      ensures Entry(Product(Scaled(t, U), V), i, j) == Entry(Scaled(t, Product(U, V)), i, j)
    {
      ProductScaledLeftEntry(t, U, V, i, j);
    }
    Ext(Product(Scaled(t, U), V), Scaled(t, Product(U, V)));
  }

  /** U (t V) = t (U V). */
  lemma ProductScaledRight(t: real, U: Matrix, V: Matrix)
    requires Wf(V)
    ensures Product(U, Scaled(t, V)) == Scaled(t, Product(U, V))
  {
    forall i, j | 0 <= i < U.rows && 0 <= j < V.cols
      ensures Entry(Product(U, Scaled(t, V)), i, j) == Entry(Scaled(t, Product(U, V)), i, j)
    {
      ProductScaledRightEntry(t, U, V, i, j);
    }
    Ext(Product(U, Scaled(t, V)), Scaled(t, Product(U, V)));
  }

  /** With exact arithmetic, (U + t dU)(V + t dV) = UV + t (dU V + U dV) + t^2 dU dV. */
  lemma ProductExpansion(U: Matrix, dU: Matrix, V: Matrix, dV: Matrix, t: real)
    requires SameShape(U, dU) && SameShape(V, dV) && V.rows == U.cols
    ensures Product(Plus(U, Scaled(t, dU)), Plus(V, Scaled(t, dV)))
         == Plus(Plus(Product(U, V), Scaled(t, Plus(Product(dU, V), Product(U, dV)))), Scaled(t * t, Product(dU, dV)))
  {
    var V' := Plus(V, Scaled(t, dV));
    calc {
      Product(Plus(U, Scaled(t, dU)), V');
      { ProductPlusLeft(U, Scaled(t, dU), V'); }
      Plus(Product(U, V'), Product(Scaled(t, dU), V'));
      { ProductScaledLeft(t, dU, V'); }
      Plus(Product(U, V'), Scaled(t, Product(dU, V')));
      { ProductPlusRight(U, V, Scaled(t, dV)); ProductScaledRight(t, U, dV);
        ProductPlusRight(dU, V, Scaled(t, dV)); ProductScaledRight(t, dU, dV); }
      Plus(Plus(Product(U, V), Scaled(t, Product(U, dV))),
           Scaled(t, Plus(Product(dU, V), Scaled(t, Product(dU, dV)))));
      { ScaledPlus(t, Product(dU, V), Scaled(t, Product(dU, dV)));
        ScaledScaled(t, t, Product(dU, dV)); }
      Plus(Plus(Product(U, V), Scaled(t, Product(U, dV))),
           Plus(Scaled(t, Product(dU, V)), Scaled(t * t, Product(dU, dV))));
      { PlusRegroup(Product(U, V), Scaled(t, Product(U, dV)), Scaled(t, Product(dU, V)), Scaled(t * t, Product(dU, dV))); }
      Plus(Plus(Product(U, V), Plus(Scaled(t, Product(dU, V)), Scaled(t, Product(U, dV)))), Scaled(t * t, Product(dU, dV)));
      { ScaledPlus(t, Product(dU, V), Product(U, dV)); }
      Plus(Plus(Product(U, V), Scaled(t, Plus(Product(dU, V), Product(U, dV)))), Scaled(t * t, Product(dU, dV)));
    }
  }

  /** With exact arithmetic, (U + t dU) V = UV + t dU V. */
  lemma ProductLinearLeft(U: Matrix, dU: Matrix, V: Matrix, t: real)
    requires SameShape(U, dU)
    ensures Product(Plus(U, Scaled(t, dU)), V) == Plus(Product(U, V), Scaled(t, Product(dU, V)))
  {
    ProductPlusLeft(U, Scaled(t, dU), V);
    ProductScaledLeft(t, dU, V);
  }

  /** With exact arithmetic, U (V + t dV) = UV + t U dV. */
  lemma ProductLinearRight(U: Matrix, V: Matrix, dV: Matrix, t: real)
    requires Wf(U) && SameShape(V, dV)
    ensures Product(U, Plus(V, Scaled(t, dV))) == Plus(Product(U, V), Scaled(t, Product(U, dV)))
  {
    ProductPlusRight(U, V, Scaled(t, dV));
    ProductScaledRight(t, U, dV);
  }
}
