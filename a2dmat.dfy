/**
 * The value containers of the AD runtime: the owning row-major matrix Mat,
 * the first-order pair ADMat (primal and one derivative buffer, both borrowed)
 * and the second-order A2DMat (four owned buffers), together with the
 * selection functions get_data, GetSeed and ADMatType.
 *
 * A Mat's fixed size M x N becomes the constants m, n of the object and its
 * buffer A[M*N] an array of that length. The abstract value of a Mat is the
 * Dense matrix read from the buffer in row-major order.
 */
module A2DMatrix {
  import opened A2DEnum
  import opened Dense

  // ---------------------------------------------------------------------
  // Row-major layout
  // ---------------------------------------------------------------------

  /** The buffer position of element (i, j) in a matrix with n columns. */
  function Offset(n: nat, i: int, j: int): int
  {
    n * i + j
  }

  lemma MulMonotone(n: nat, a: int, b: int)
    requires a <= b
    ensures n * a <= n * b
  {
    assert n * b - n * a == n * (b - a);
  }

  /** Every element of an m x n matrix lives inside the buffer of length m * n. */
  lemma OffsetInRange(m: nat, n: nat, i: int, j: int)
    requires 0 <= i < m && 0 <= j < n
    ensures 0 <= Offset(n, i, j) < m * n
  {
    MulMonotone(n, 0, i);
    MulMonotone(n, i + 1, m);
    assert n * (i + 1) == n * i + n;
  }

  /** Different elements live at different buffer positions. */
  lemma OffsetInjective(n: nat, i: int, j: int, i': int, j': int)
    requires 0 <= j < n && 0 <= j' < n
    requires Offset(n, i, j) == Offset(n, i', j')
    ensures i == i' && j == j'
  {
    if i < i' {
      MulMonotone(n, i + 1, i');
      assert false;
    } else if i' < i {
      MulMonotone(n, i' + 1, i);
      assert false;
    }
  }

  /** Every buffer position of an m x n matrix holds some element. */
  lemma OffsetSplit(m: nat, n: nat, k: int)
    requires 0 <= k < m * n
    ensures n > 0 && 0 <= k / n < m && 0 <= k % n < n && Offset(n, k / n, k % n) == k
  {
    if n == 0 {
      assert false;
    }
    if k / n >= m {
      MulMonotone(n, m, k / n);
      assert false;
    }
  }

  /** The element at (i, j) of a row-major buffer s with n columns, or 0 outside it. */
  function RowMajorAt(s: seq<real>, n: nat, i: int, j: int): real
  {
    if 0 <= Offset(n, i, j) < |s| then s[Offset(n, i, j)] else 0.0
  }

  /** The m x n matrix stored row-major in s. */
  function FromRowMajor(s: seq<real>, m: nat, n: nat): (X: Matrix)
    ensures HasShape(X, m, n)
    ensures forall i, j {:trigger Entry(X, i, j)} :: Entry(X, i, j) == if 0 <= i < m && 0 <= j < n then RowMajorAt(s, n, i, j) else 0.0
  {
    Build(m, n, (i, j) => RowMajorAt(s, n, i, j))
  }

  /** The row-major buffer of X. */
  function ToRowMajor(X: Matrix): (s: seq<real>)
    ensures |s| == X.rows * X.cols
  {
    if X.cols == 0 then
      assert X.rows * X.cols == 0;
      []
    else
      seq(X.rows * X.cols, k => Entry(X, k / X.cols, k % X.cols))
  }

  /** Reading a buffer as a matrix and writing it back gives the same buffer. */
  lemma RowMajorRoundTrip(s: seq<real>, m: nat, n: nat)
    requires |s| == m * n
    ensures ToRowMajor(FromRowMajor(s, m, n)) == s
  {
    var X := FromRowMajor(s, m, n);
    var t := ToRowMajor(X);
    forall k | 0 <= k < |s|
      ensures t[k] == s[k]
    {
      OffsetSplit(m, n, k);
    }
  }

  /** Writing a matrix row-major and reading it back gives the same matrix. */
  lemma MatrixRoundTrip(X: Matrix)
    requires Wf(X)
    ensures FromRowMajor(ToRowMajor(X), X.rows, X.cols) == X
  {
    var s := ToRowMajor(X);
    var Y := FromRowMajor(s, X.rows, X.cols);
    forall i, j | 0 <= i < X.rows && 0 <= j < X.cols
      ensures Entry(Y, i, j) == Entry(X, i, j)
    {
      var k := Offset(X.cols, i, j);
      OffsetInRange(X.rows, X.cols, i, j);
      OffsetSplit(X.rows, X.cols, k);
      OffsetInjective(X.cols, i, j, k / X.cols, k % X.cols);
    }
    Ext(Y, X);
  }

  /** Element (i, j) of X sits at position n * i + j of its row-major buffer. */
  lemma RowMajorEntry(X: Matrix, i: int, j: int)
    requires Wf(X) && 0 <= i < X.rows && 0 <= j < X.cols
    ensures 0 <= Offset(X.cols, i, j) < |ToRowMajor(X)| && ToRowMajor(X)[Offset(X.cols, i, j)] == Entry(X, i, j)
    ensures X == FromRowMajor(ToRowMajor(X), X.rows, X.cols)
  {
    var k := Offset(X.cols, i, j);
    OffsetInRange(X.rows, X.cols, i, j);
    OffsetSplit(X.rows, X.cols, k);
    OffsetInjective(X.cols, i, j, k / X.cols, k % X.cols);
    MatrixRoundTrip(X);
  }

  /** A buffer of zeros holds the zero matrix. */
  lemma ZeroBuffer(s: seq<real>, m: nat, n: nat)
    requires forall k :: 0 <= k < |s| ==> s[k] == 0.0
    ensures FromRowMajor(s, m, n) == Zeros(m, n)
  {
    Ext(FromRowMajor(s, m, n), Zeros(m, n));
  }

  // ---------------------------------------------------------------------
  // Mat: an owning row-major M x N matrix
  // ---------------------------------------------------------------------

  class Mat {
    const m: nat
    const n: nat
    const A: array<real>

    ghost predicate Valid()
    {
      A.Length == m * n
    }

    /** The matrix the buffer holds. */
    function Value(): (X: Matrix)
      reads A
      ensures HasShape(X, m, n)
    {
      FromRowMajor(A[..], m, n)
    }

    /** Reading element (i, j), which lives at A[n * i + j]. */
    function At(i: int, j: int): (v: real)
      reads A
      requires Valid() && 0 <= i < m && 0 <= j < n
      ensures v == Entry(Value(), i, j)
    {
      OffsetInRange(m, n, i, j);
      A[Offset(n, i, j)]
    }

    /** Writing element (i, j) through the reference operator() returns. */
    method Put(i: int, j: int, v: real)
      requires Valid() && 0 <= i < m && 0 <= j < n
      modifies A
      ensures Value() == Update(old(Value()), i, j, v)
    {
      OffsetInRange(m, n, i, j);
      A[Offset(n, i, j)] := v;
      forall a, b | 0 <= a < m && 0 <= b < n && (a != i || b != j)
        ensures Entry(Value(), a, b) == old(Entry(Value(), a, b))
      {
        OffsetInRange(m, n, a, b);
        if Offset(n, a, b) == Offset(n, i, j) {
          OffsetInjective(n, a, b, i, j);
        }
      }
      Ext(Value(), Update(old(Value()), i, j, v));
    }

    /** The default constructor: every entry is zero. */
    constructor (m: nat, n: nat)
      ensures Valid() && this.m == m && this.n == n && fresh(A)
      ensures forall k :: 0 <= k < A.Length ==> A[k] == 0.0
      ensures Value() == Zeros(m, n)
    {
      this.m, this.n := m, n;
      A := new real[m * n];
      new;
      Zero();
    }

    /** Mat(vals): the first m * n values, in order, become the buffer. */
    constructor FromValues(m: nat, n: nat, vals: array<real>)
      requires vals.Length >= m * n
      ensures Valid() && this.m == m && this.n == n && fresh(A)
      ensures A[..] == vals[..m * n]
      ensures Value() == FromRowMajor(vals[..m * n], m, n)
    {
      this.m, this.n := m, n;
      A := new real[m * n];
      new;
      var i := 0;
      while i < m * n
        invariant 0 <= i <= m * n
        invariant forall k :: 0 <= k < i ==> A[k] == vals[k]
      {
        A[i] := vals[i];
        i := i + 1;
      }
      assert A[..] == vals[..m * n];
    }

    /** Mat(mat): element (i, j) of the new matrix is mat(i, j). */
    constructor Copy(m: nat, n: nat, mat: Mat)
      requires mat.Valid() && m <= mat.m && n <= mat.n
      ensures Valid() && this.m == m && this.n == n && fresh(A)
      ensures Value() == Block(mat.Value(), m, n)
    {
      this.m, this.n := m, n;
      A := new real[m * n];
      new;
      Set(mat);
    }

    /** zero(): every entry becomes 0. */
    method Zero()
      requires Valid()
      modifies A
      ensures forall k :: 0 <= k < A.Length ==> A[k] == 0.0
      ensures Value() == Zeros(m, n)
    {
      var i := 0;
      while i < m * n
        invariant 0 <= i <= m * n
        invariant forall k :: 0 <= k < i ==> A[k] == 0.0
      {
        A[i] := 0.0;
        i := i + 1;
      }
      ZeroBuffer(A[..], m, n);
    }

    /** set(mat): this(i, j) := mat(i, j) for every element of this. */
    method Set(mat: Mat)
      requires Valid() && mat.Valid() && m <= mat.m && n <= mat.n && mat.A != A
      modifies A
      ensures Value() == Block(mat.Value(), m, n)
    {
      var i := 0;
      while i < m
        invariant 0 <= i <= m
        invariant forall a, b :: 0 <= a < i && 0 <= b < n ==> Entry(Value(), a, b) == Entry(mat.Value(), a, b)
      {
        var j := 0;
        while j < n
          invariant 0 <= j <= n
          invariant forall a, b :: 0 <= a < i && 0 <= b < n ==> Entry(Value(), a, b) == Entry(mat.Value(), a, b)
          invariant forall b :: 0 <= b < j ==> Entry(Value(), i, b) == Entry(mat.Value(), i, b)
        {
          Put(i, j, mat.At(i, j));
          j := j + 1;
        }
        i := i + 1;
      }
      Ext(Value(), Block(mat.Value(), m, n));
    }

    /** get(mat): mat(i, j) := this(i, j) for every element of this; this is unchanged. */
    method Get(mat: Mat)
      requires Valid() && mat.Valid() && m <= mat.m && n <= mat.n && mat.A != A
      modifies mat.A
      ensures mat.Value() == Paste(old(mat.Value()), Value())
    {
      ghost var M0 := mat.Value();
      var i := 0;
      while i < m
        invariant 0 <= i <= m
        invariant forall a, b :: 0 <= a < mat.m && 0 <= b < mat.n ==>
                    Entry(mat.Value(), a, b) == if a < i && b < n then Entry(Value(), a, b) else Entry(M0, a, b)
      {
        var j := 0;
        while j < n
          invariant 0 <= j <= n
          invariant forall a, b :: 0 <= a < mat.m && 0 <= b < mat.n ==>
                      Entry(mat.Value(), a, b)
                      == if (a < i && b < n) || (a == i && b < j) then Entry(Value(), a, b) else Entry(M0, a, b)
        {
          mat.Put(i, j, At(i, j));
          j := j + 1;
        }
        i := i + 1;
      }
      Ext(mat.Value(), Paste(M0, Value()));
    }
  }

  /** With equal shapes, set copies the whole value and get overwrites the whole target. */
  lemma SetGetWhole(X: Matrix, Y: Matrix)
    requires SameShape(X, Y)
    ensures Block(Y, X.rows, X.cols) == Y
    ensures Paste(X, Y) == Y
  {
    BlockOfWhole(Y);
    PasteWhole(X, Y);
  }

  /** A fresh Mat holding the same value as mat: the copy constructor of Mat. */
  method CopyOf(mat: Mat) returns (r: Mat)
    requires mat.Valid()
    ensures fresh(r) && fresh(r.A) && r.Valid() && r.m == mat.m && r.n == mat.n
    ensures r.Value() == mat.Value()
  {
    r := new Mat.Copy(mat.m, mat.n, mat);
    BlockOfWhole(mat.Value());
  }

  // ---------------------------------------------------------------------
  // ADMat: a borrowed primal and a borrowed derivative buffer
  // ---------------------------------------------------------------------

  class ADMat {
    const A: Mat    // the matrix
    const Ab: Mat   // its derivative: tangent in a forward sweep, adjoint in a reverse one

    ghost predicate Valid()
    {
      A.Valid() && Ab.Valid() && Ab.m == A.m && Ab.n == A.n && A.A != Ab.A
    }

    /** ADMat(A, Ab) binds the two references; nothing is copied. */
    constructor (A: Mat, Ab: Mat)
      ensures this.A == A && this.Ab == Ab
    {
      this.A, this.Ab := A, Ab;
    }
  }

  // ---------------------------------------------------------------------
  // A2DMat: four owned buffers of one shape
  // ---------------------------------------------------------------------

  class A2DMat {
    const A: Mat    // the matrix
    const Ab: Mat   // first derivative (tangent or adjoint)
    const Ap: Mat   // projected tangent of the second-order sweep
    const Ah: Mat   // second-order adjoint

    ghost predicate Valid()
    {
      A.Valid() && Ab.Valid() && Ap.Valid() && Ah.Valid() &&
      Ab.m == A.m && Ab.n == A.n && Ap.m == A.m && Ap.n == A.n && Ah.m == A.m && Ah.n == A.n &&
      A.A != Ab.A && A.A != Ap.A && A.A != Ah.A && Ab.A != Ap.A && Ab.A != Ah.A && Ap.A != Ah.A
    }

    /** A2DMat(): all four buffers default-constructed, hence zero. */
    constructor (m: nat, n: nat)
      ensures Valid() && A.m == m && A.n == n
      ensures fresh(A.A) && fresh(Ab.A) && fresh(Ap.A) && fresh(Ah.A)
      ensures A.Value() == Zeros(m, n) && Ab.Value() == Zeros(m, n)
      ensures Ap.Value() == Zeros(m, n) && Ah.Value() == Zeros(m, n)
    {
      A := new Mat(m, n);
      Ab := new Mat(m, n);
      Ap := new Mat(m, n);
      Ah := new Mat(m, n);
    }

    /** A2DMat(A): a copy of the primal; the derivative buffers are zero. */
    constructor FromValue(a: Mat)
      requires a.Valid()
      ensures Valid() && A.m == a.m && A.n == a.n
      ensures fresh(A.A) && fresh(Ab.A) && fresh(Ap.A) && fresh(Ah.A)
      ensures A.Value() == a.Value() && Ab.Value() == Zeros(a.m, a.n)
      ensures Ap.Value() == Zeros(a.m, a.n) && Ah.Value() == Zeros(a.m, a.n)
    {
      var a0 := CopyOf(a);
      A := a0;
      Ab := new Mat(a.m, a.n);
      Ap := new Mat(a.m, a.n);
      Ah := new Mat(a.m, a.n);
    }

    /** A2DMat(A, Ab): copies of the primal and b; p and h are zero. */
    constructor FromValueB(a: Mat, ab: Mat)
      requires a.Valid() && ab.Valid() && ab.m == a.m && ab.n == a.n
      ensures Valid() && A.m == a.m && A.n == a.n
      ensures fresh(A.A) && fresh(Ab.A) && fresh(Ap.A) && fresh(Ah.A)
      ensures A.Value() == a.Value() && Ab.Value() == ab.Value()
      ensures Ap.Value() == Zeros(a.m, a.n) && Ah.Value() == Zeros(a.m, a.n)
    {
      var a0 := CopyOf(a);
      A := a0;
      var ab0 := CopyOf(ab);
      Ab := ab0;
      Ap := new Mat(a.m, a.n);
      Ah := new Mat(a.m, a.n);
    }

    /** A2DMat(A, Ab, Ap): copies of the primal, b and p; h is zero. */
    constructor FromValueBP(a: Mat, ab: Mat, ap: Mat)
      requires a.Valid() && ab.Valid() && ap.Valid()
      requires ab.m == a.m && ab.n == a.n && ap.m == a.m && ap.n == a.n
      ensures Valid() && A.m == a.m && A.n == a.n
      ensures fresh(A.A) && fresh(Ab.A) && fresh(Ap.A) && fresh(Ah.A)
      ensures A.Value() == a.Value() && Ab.Value() == ab.Value()
      ensures Ap.Value() == ap.Value() && Ah.Value() == Zeros(a.m, a.n)
    {
      var a0 := CopyOf(a);
      A := a0;
      var ab0 := CopyOf(ab);
      Ab := ab0;
      var ap0 := CopyOf(ap);
      Ap := ap0;
      Ah := new Mat(a.m, a.n);
    }

    /** A2DMat(A, Ab, Ap, Ah): copies of all four. */
    constructor FromValueBPH(a: Mat, ab: Mat, ap: Mat, ah: Mat)
      requires a.Valid() && ab.Valid() && ap.Valid() && ah.Valid()
      requires ab.m == a.m && ab.n == a.n && ap.m == a.m && ap.n == a.n && ah.m == a.m && ah.n == a.n
      ensures Valid() && A.m == a.m && A.n == a.n
      ensures fresh(A.A) && fresh(Ab.A) && fresh(Ap.A) && fresh(Ah.A)
      ensures A.Value() == a.Value() && Ab.Value() == ab.Value()
      ensures Ap.Value() == ap.Value() && Ah.Value() == ah.Value()
    {
      var a0 := CopyOf(a);
      A := a0;
      var ab0 := CopyOf(ab);
      Ab := ab0;
      var ap0 := CopyOf(ap);
      Ap := ap0;
      var ah0 := CopyOf(ah);
      Ah := ah0;
    }

    /** set_bvalue(val): Ab := val; the other three buffers keep their values. */
    method SetBValue(val: Mat)
      requires Valid() && val.Valid() && val.m == A.m && val.n == A.n && val.A != Ab.A
      modifies Ab.A
      ensures Ab.Value() == val.Value()
      ensures A.Value() == old(A.Value()) && Ap.Value() == old(Ap.Value()) && Ah.Value() == old(Ah.Value())
    {
      Ab.Set(val);
      BlockOfWhole(val.Value());
    }

    /** get_bvalue(val): val := Ab; Ab keeps its value. */
    method GetBValue(val: Mat)
      requires Valid() && val.Valid() && val.m == A.m && val.n == A.n && val.A != Ab.A
      modifies val.A
      ensures val.Value() == Ab.Value() && Ab.Value() == old(Ab.Value())
    {
      ghost var v0 := val.Value();
      Ab.Get(val);
      PasteWhole(v0, Ab.Value());
    }

    /** set_pvalue(val): Ap := val; the other three buffers keep their values. */
    method SetPValue(val: Mat)
      requires Valid() && val.Valid() && val.m == A.m && val.n == A.n && val.A != Ap.A
      modifies Ap.A
      ensures Ap.Value() == val.Value()
      ensures A.Value() == old(A.Value()) && Ab.Value() == old(Ab.Value()) && Ah.Value() == old(Ah.Value())
    {
      Ap.Set(val);
      BlockOfWhole(val.Value());
    }

    /** get_pvalue(val): val := Ap; Ap keeps its value. */
    method GetPValue(val: Mat)
      requires Valid() && val.Valid() && val.m == A.m && val.n == A.n && val.A != Ap.A
      modifies val.A
      ensures val.Value() == Ap.Value() && Ap.Value() == old(Ap.Value())
    {
      ghost var v0 := val.Value();
      Ap.Get(val);
      PasteWhole(v0, Ap.Value());
    }

    /** set_hvalue(val): Ah := val; the other three buffers keep their values. */
    method SetHValue(val: Mat)
      requires Valid() && val.Valid() && val.m == A.m && val.n == A.n && val.A != Ah.A
      modifies Ah.A
      ensures Ah.Value() == val.Value()
      ensures A.Value() == old(A.Value()) && Ab.Value() == old(Ab.Value()) && Ap.Value() == old(Ap.Value())
    {
      Ah.Set(val);
      BlockOfWhole(val.Value());
    }

    /** get_hvalue(val): val := Ah; Ah keeps its value. */
    method GetHValue(val: Mat)
      requires Valid() && val.Valid() && val.m == A.m && val.n == A.n && val.A != Ah.A
      modifies val.A
      ensures val.Value() == Ah.Value() && Ah.Value() == old(Ah.Value())
    {
      ghost var v0 := val.Value();
      Ah.Get(val);
      PasteWhole(v0, Ah.Value());
    }
  }

  // ---------------------------------------------------------------------
  // Selecting containers and buffers
  // ---------------------------------------------------------------------

  /** The three container types an operand can have. */
  datatype ContainerKind = MatKind | ADMatKind | A2DMatKind

  /** ADMatType: Mat when passive, ADMat when active to first order, A2DMat when active to second order. */
  function ADMatType(ad: ADiffType, order: ADorder): (k: ContainerKind)
    ensures k.MatKind? <==> ad.PASSIVE?
    ensures k.ADMatKind? <==> ad.ACTIVE? && order.FIRST?
    ensures k.A2DMatKind? <==> ad.ACTIVE? && order.SECOND?
  {
    if ad == PASSIVE then MatKind
    else if order == FIRST then ADMatKind
    else A2DMatKind
  }

  /** An operand of an expression: whichever container its type selects. */
  datatype Operand = Plain(mat: Mat) | First(ad: ADMat) | Second(a2d: A2DMat)

  function Kind(x: Operand): ContainerKind
  {
    match x
    case Plain(_) => MatKind
    case First(_) => ADMatKind
    case Second(_) => A2DMatKind
  }

  ghost predicate OperandValid(x: Operand)
  {
    match x
    case Plain(mat) => mat.Valid()
    case First(ad) => ad.Valid()
    case Second(a2d) => a2d.Valid()
  }

  /** get_data: the primal matrix of any container. */
  function GetData(x: Operand): (r: Mat)
    ensures OperandValid(x) ==> r.Valid()
  {
    match x
    case Plain(mat) => mat
    case First(ad) => ad.A
    case Second(a2d) => a2d.A
  }

  /** The seeds a container offers: none for Mat, b for ADMat, b, p and h for A2DMat. */
  predicate SeedLegal(seed: ADseed, x: Operand)
  {
    x.Second? || (x.First? && seed == b)
  }

  /** GetSeed<seed>::get_data: the derivative buffer the seed names. */
  function GetSeed(seed: ADseed, x: Operand): (r: Mat)
    requires SeedLegal(seed, x)
    ensures OperandValid(x) ==> r.Valid() && r.m == GetData(x).m && r.n == GetData(x).n
    ensures OperandValid(x) ==> r.A != GetData(x).A
  {
    match x
    case First(ad) => ad.Ab
    case Second(a2d) =>
      match seed
      case b => a2d.Ab
      case p => a2d.Ap
      case h => a2d.Ah
  }

  /** On an A2DMat, different seeds name different buffers. */
  lemma GetSeedInjective(s1: ADseed, s2: ADseed, x: Operand)
    requires x.Second? && OperandValid(x) && s1 != s2
    ensures GetSeed(s1, x).A != GetSeed(s2, x).A
  {
  }

  /** The buffers a container owns or borrows. */
  function Footprint(x: Operand): (s: set<array<real>>)
    ensures GetData(x).A in s
    ensures forall seed :: SeedLegal(seed, x) ==> GetSeed(seed, x).A in s
  {
    match x
    case Plain(mat) => {mat.A}
    case First(ad) => {ad.A.A, ad.Ab.A}
    case Second(a2d) => {a2d.A.A, a2d.Ab.A, a2d.Ap.A, a2d.Ah.A}
  }

  /**
   * get_data picks out the primal: it is one of the container's buffers, no
   * seed names it, and every other buffer of the container is some seed's.
   */
  lemma GetDataIsPrimal(x: Operand)
    requires OperandValid(x)
    ensures GetData(x).A in Footprint(x)
    ensures forall seed :: SeedLegal(seed, x) ==> GetSeed(seed, x).A != GetData(x).A
    ensures forall a :: a in Footprint(x) && a != GetData(x).A ==>
              exists seed :: SeedLegal(seed, x) && GetSeed(seed, x).A == a
  {
    forall a | a in Footprint(x) && a != GetData(x).A
      ensures exists seed :: SeedLegal(seed, x) && GetSeed(seed, x).A == a
    {
      match x
      case Plain(mat) =>
        assert false;
      case First(ad) =>
        assert GetSeed(b, x).A == a;
      case Second(a2d) =>
        if a == a2d.Ab.A {
          assert GetSeed(b, x).A == a;
        } else if a == a2d.Ap.A {
          assert GetSeed(p, x).A == a;
        } else {
          assert GetSeed(h, x).A == a;
        }
    }
  }

  /** The buffer a seed names, as a frame: empty when the container has no such seed. */
  function SeedFrame(seed: ADseed, x: Operand): (s: set<array<real>>)
    ensures s <= Footprint(x)
  {
    if SeedLegal(seed, x) then {GetSeed(seed, x).A} else {}
  }

  /** The matrix a seed buffer holds; a container without that seed contributes zero. */
  function SeedValue(seed: ADseed, x: Operand): (X: Matrix)
    reads SeedFrame(seed, x)
    ensures OperandValid(x) ==> HasShape(X, GetData(x).m, GetData(x).n)
  {
    if SeedLegal(seed, x) then GetSeed(seed, x).Value() else Zeros(GetData(x).m, GetData(x).n)
  }
}
