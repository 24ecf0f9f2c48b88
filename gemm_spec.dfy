/**
 * The mathematics of the matrix-product expression: what MatMatMultCore
 * computes, what each sweep of the expression writes, and why those are the
 * right derivatives (product rule, adjoint identity, second-order terms).
 */
module GemmSpec {
  import opened A2DEnum
  import opened Dense

  /** op1(X) * op2(Y) is defined: the inner dimensions agree. */
  predicate Conformable(op1: MatOp, X: Matrix, op2: MatOp, Y: Matrix)
  {
    Wf(X) && Wf(Y) && OCols(op1, X.rows, X.cols) == ORows(op2, Y.rows, Y.cols)
  }

  /** Rows of op1(X) * op2(Y). */
  function PRows(op1: MatOp, X: Matrix): nat
  {
    ORows(op1, X.rows, X.cols)
  }

  /** Columns of op1(X) * op2(Y). */
  function PCols(op2: MatOp, Y: Matrix): nat
  {
    OCols(op2, Y.rows, Y.cols)
  }

  /** What MatMatMultCore<op1, op2, opOut> produces: opOut(op1(X) * op2(Y)). */
  function Core(op1: MatOp, X: Matrix, op2: MatOp, Y: Matrix, opOut: MatOp): (R: Matrix)
    ensures Wf(X) && Wf(Y) ==>
              HasShape(R, ORows(opOut, PRows(op1, X), PCols(op2, Y)), OCols(opOut, PRows(op1, X), PCols(op2, Y)))
  {
    Orient(opOut, Product(Orient(op1, X), Orient(op2, Y)))
  }

  /** Perturbing both factors: Core(X + t dX, Y + t dY) expanded in t. */
  lemma CoreExpansion(op1: MatOp, X: Matrix, dX: Matrix, op2: MatOp, Y: Matrix, dY: Matrix, opOut: MatOp, t: real)
    requires Conformable(op1, X, op2, Y) && SameShape(X, dX) && SameShape(Y, dY)
    ensures Core(op1, Plus(X, Scaled(t, dX)), op2, Plus(Y, Scaled(t, dY)), opOut)
         == Plus(Plus(Core(op1, X, op2, Y, opOut),
                      Scaled(t, Plus(Core(op1, dX, op2, Y, opOut), Core(op1, X, op2, dY, opOut)))),
                 Scaled(t * t, Core(op1, dX, op2, dY, opOut)))
  {
    var OX, OdX, OY, OdY := Orient(op1, X), Orient(op1, dX), Orient(op2, Y), Orient(op2, dY);
    OrientPlus(op1, X, Scaled(t, dX));
    OrientScaled(op1, t, dX);
    OrientPlus(op2, Y, Scaled(t, dY));
    OrientScaled(op2, t, dY);
    ProductExpansion(OX, OdX, OY, OdY, t);
    var P, P1, P2, P3 := Product(OX, OY), Product(OdX, OY), Product(OX, OdY), Product(OdX, OdY);
    calc {
      Orient(opOut, Plus(Plus(P, Scaled(t, Plus(P1, P2))), Scaled(t * t, P3)));
      { OrientPlus(opOut, Plus(P, Scaled(t, Plus(P1, P2))), Scaled(t * t, P3)); }
      Plus(Orient(opOut, Plus(P, Scaled(t, Plus(P1, P2)))), Orient(opOut, Scaled(t * t, P3)));
      { OrientPlus(opOut, P, Scaled(t, Plus(P1, P2))); OrientScaled(opOut, t * t, P3); }
      Plus(Plus(Orient(opOut, P), Orient(opOut, Scaled(t, Plus(P1, P2)))), Scaled(t * t, Orient(opOut, P3)));
      { OrientScaled(opOut, t, Plus(P1, P2)); OrientPlus(opOut, P1, P2); }
      Plus(Plus(Orient(opOut, P), Scaled(t, Plus(Orient(opOut, P1), Orient(opOut, P2)))), Scaled(t * t, Orient(opOut, P3)));
    }
  }

  /** Perturbing the first factor only: Core is linear in it. */
  lemma CoreLinearLeft(op1: MatOp, X: Matrix, dX: Matrix, op2: MatOp, Y: Matrix, opOut: MatOp, t: real)
    requires Conformable(op1, X, op2, Y) && SameShape(X, dX)
    ensures Core(op1, Plus(X, Scaled(t, dX)), op2, Y, opOut)
         == Plus(Core(op1, X, op2, Y, opOut), Scaled(t, Core(op1, dX, op2, Y, opOut)))
  {
    var OX, OdX, OY := Orient(op1, X), Orient(op1, dX), Orient(op2, Y);
    OrientPlus(op1, X, Scaled(t, dX));
    OrientScaled(op1, t, dX);
    ProductLinearLeft(OX, OdX, OY, t);
    OrientPlus(opOut, Product(OX, OY), Scaled(t, Product(OdX, OY)));
    OrientScaled(opOut, t, Product(OdX, OY));
  }

  /** Perturbing the second factor only: Core is linear in it. */
  lemma CoreLinearRight(op1: MatOp, X: Matrix, op2: MatOp, Y: Matrix, dY: Matrix, opOut: MatOp, t: real)
    requires Conformable(op1, X, op2, Y) && SameShape(Y, dY)
    ensures Core(op1, X, op2, Plus(Y, Scaled(t, dY)), opOut)
         == Plus(Core(op1, X, op2, Y, opOut), Scaled(t, Core(op1, X, op2, dY, opOut)))
  {
    var OX, OY, OdY := Orient(op1, X), Orient(op2, Y), Orient(op2, dY);
    OrientPlus(op2, Y, Scaled(t, dY));
    OrientScaled(op2, t, dY);
    ProductLinearRight(OX, OY, OdY, t);
    OrientPlus(opOut, Product(OX, OY), Scaled(t, Product(OX, OdY)));
    OrientScaled(opOut, t, Product(OX, OdY));
  }

  // ---------------------------------------------------------------------
  // The sweeps of C = opA(A) * opB(B)
  // ---------------------------------------------------------------------

  /**
   * What forward leaves in C.b (and hforward in C.p), given the derivative
   * buffers dA, dB of the operands and C's previous derivative Cd: the
   * product-rule terms of the active operands; with no active operand,
   * nothing is written.
   */
  function Tangent(opA: MatOp, adA: ADiffType, A: Matrix, dA: Matrix,
                   opB: MatOp, adB: ADiffType, B: Matrix, dB: Matrix, Cd: Matrix): Matrix
  {
    if adA.ACTIVE? && adB.ACTIVE? then Plus(Core(opA, dA, opB, B, NORMAL), Core(opA, A, opB, dB, NORMAL))
    else if adA.ACTIVE? then Core(opA, dA, opB, B, NORMAL)
    else if adB.ACTIVE? then Core(opA, A, opB, dB, NORMAL)
    else Cd
  }

  /** What reverse adds to A.b given the adjoint G of C: opA(G * not_opB(B)). */
  function ReverseA(opA: MatOp, opB: MatOp, B: Matrix, G: Matrix): Matrix
  {
    Core(NORMAL, G, NegateOp(opB), B, opA)
  }

  /** What reverse adds to B.b given the adjoint G of C: opB(not_opA(A) * G). */
  function ReverseB(opA: MatOp, A: Matrix, opB: MatOp, G: Matrix): Matrix
  {
    Core(NegateOp(opA), A, NORMAL, G, opB)
  }

  /** The shape of C: opA(A) * opB(B). */
  predicate OutputShape(opA: MatOp, A: Matrix, opB: MatOp, B: Matrix, G: Matrix)
  {
    HasShape(G, PRows(opA, A), PCols(opB, B))
  }

  /** Each reverse increment has its operand's own shape, not the shape of opA(A) or opB(B). */
  lemma ReverseLayout(opA: MatOp, A: Matrix, opB: MatOp, B: Matrix, G: Matrix)
    requires Conformable(opA, A, opB, B) && OutputShape(opA, A, opB, B, G)
    ensures HasShape(ReverseA(opA, opB, B, G), A.rows, A.cols)
    ensures HasShape(ReverseB(opA, A, opB, G), B.rows, B.cols)
  {
    match opA
    case NORMAL =>
    case TRANSPOSE =>
  }

  /** The forward sweep computes the directional derivative of C along the active operands' tangents. */
  lemma ForwardIsDerivative(opA: MatOp, adA: ADiffType, A: Matrix, dA: Matrix,
                            opB: MatOp, adB: ADiffType, B: Matrix, dB: Matrix, Cd: Matrix, t: real)
    requires Conformable(opA, A, opB, B) && SameShape(A, dA) && SameShape(B, dB)
    requires adA.ACTIVE? || adB.ACTIVE?
    ensures var T := Tangent(opA, adA, A, dA, opB, adB, B, dB, Cd);
            var C := Core(opA, A, opB, B, NORMAL);
            if adA.ACTIVE? && adB.ACTIVE? then
              Core(opA, Plus(A, Scaled(t, dA)), opB, Plus(B, Scaled(t, dB)), NORMAL)
              == Plus(Plus(C, Scaled(t, T)), Scaled(t * t, Core(opA, dA, opB, dB, NORMAL)))
            else if adA.ACTIVE? then
              Core(opA, Plus(A, Scaled(t, dA)), opB, B, NORMAL) == Plus(C, Scaled(t, T))
            else
              Core(opA, A, opB, Plus(B, Scaled(t, dB)), NORMAL) == Plus(C, Scaled(t, T))
  {
    if adA.ACTIVE? && adB.ACTIVE? {
      CoreExpansion(opA, A, dA, opB, B, dB, NORMAL, t);
    } else if adA.ACTIVE? {
      CoreLinearLeft(opA, A, dA, opB, B, NORMAL, t);
    } else {
      CoreLinearRight(opA, A, opB, B, dB, NORMAL, t);
    }
  }

  /** Adjoint of the A term: <G, opA(dA) opB(B)> = <ReverseA(G), dA>. */
  lemma AdjointA(opA: MatOp, dA: Matrix, opB: MatOp, B: Matrix, G: Matrix)
    requires Conformable(opA, dA, opB, B) && OutputShape(opA, dA, opB, B, G)
    ensures Inner(G, Core(opA, dA, opB, B, NORMAL)) == Inner(ReverseA(opA, opB, B, G), dA)
  {
    var P, Q := Orient(opA, dA), Orient(opB, B);
    calc {
      Inner(G, Product(P, Q));
      { InnerProductLeft(G, P, Q); }
      Inner(Product(G, Transpose(Q)), P);
      { NegateOrient(opB, B); }
      Inner(Product(G, Orient(NegateOp(opB), B)), P);
      { InnerOrient(opA, Product(G, Orient(NegateOp(opB), B)), dA); }
      Inner(Orient(opA, Product(G, Orient(NegateOp(opB), B))), dA);
    }
  }

  /** Adjoint of the B term: <G, opA(A) opB(dB)> = <ReverseB(G), dB>. */
  lemma AdjointB(opA: MatOp, A: Matrix, opB: MatOp, dB: Matrix, G: Matrix)
    requires Conformable(opA, A, opB, dB) && OutputShape(opA, A, opB, dB, G)
    ensures Inner(G, Core(opA, A, opB, dB, NORMAL)) == Inner(ReverseB(opA, A, opB, G), dB)
  {
    var P, Q := Orient(opA, A), Orient(opB, dB);
    calc {
      Inner(G, Product(P, Q));
      { InnerProductRight(G, P, Q); }
      Inner(Product(Transpose(P), G), Q);
      { NegateOrient(opA, A); }
      Inner(Product(Orient(NegateOp(opA), A), G), Q);
      { InnerOrient(opB, Product(Orient(NegateOp(opA), A), G), dB); }
      Inner(Orient(opB, Product(Orient(NegateOp(opA), A), G)), dB);
    }
  }

  /**
   * The dual identity behind reverse: pairing C's adjoint with the forward
   * tangent equals pairing each active operand's reverse increment with
   * that operand's tangent, for every orientation pair.
   */
  lemma AdjointIdentity(opA: MatOp, adA: ADiffType, A: Matrix, dA: Matrix,
                        opB: MatOp, adB: ADiffType, B: Matrix, dB: Matrix, Cd: Matrix, G: Matrix)
    requires Conformable(opA, A, opB, B) && SameShape(A, dA) && SameShape(B, dB)
    requires OutputShape(opA, A, opB, B, G)
    requires adA.ACTIVE? || adB.ACTIVE?
    ensures Inner(G, Tangent(opA, adA, A, dA, opB, adB, B, dB, Cd))
         == (if adA.ACTIVE? then Inner(ReverseA(opA, opB, B, G), dA) else 0.0)
          + (if adB.ACTIVE? then Inner(ReverseB(opA, A, opB, G), dB) else 0.0)
  {
    if adA.ACTIVE? {
      AdjointA(opA, dA, opB, B, G);
    }
    if adB.ACTIVE? {
      AdjointB(opA, A, opB, dB, G);
    }
    if adA.ACTIVE? && adB.ACTIVE? {
      InnerPlusRight(G, Core(opA, dA, opB, B, NORMAL), Core(opA, A, opB, dB, NORMAL));
    }
  }

  /** What hreverse adds to A.h: the C.h term, and the cross term with B.p when B is active. */
  function HReverseA(opA: MatOp, opB: MatOp, adB: ADiffType, B: Matrix, Bp: Matrix, Cb: Matrix, Ch: Matrix): Matrix
  {
    if adB.ACTIVE? then Plus(ReverseA(opA, opB, B, Ch), ReverseA(opA, opB, Bp, Cb))
    else ReverseA(opA, opB, B, Ch)
  }

  /** What hreverse adds to B.h: the C.h term, and the cross term with A.p when A is active. */
  function HReverseB(opA: MatOp, adA: ADiffType, A: Matrix, Ap: Matrix, opB: MatOp, Cb: Matrix, Ch: Matrix): Matrix
  {
    if adA.ACTIVE? then Plus(ReverseB(opA, A, opB, Ch), ReverseB(opA, Ap, opB, Cb))
    else ReverseB(opA, A, opB, Ch)
  }

  /**
   * hreverse differentiates reverse: moving B along B.p (when B is active)
   * and C's adjoint along C.h, the first-order change of A's reverse
   * increment is exactly what hreverse adds to A.h.
   */
  lemma HReverseIsDerivativeA(opA: MatOp, A: Matrix, opB: MatOp, adB: ADiffType, B: Matrix, Bp: Matrix,
                              Cb: Matrix, Ch: Matrix, t: real)
    requires Conformable(opA, A, opB, B) && SameShape(B, Bp)
    requires OutputShape(opA, A, opB, B, Cb) && SameShape(Cb, Ch)
    ensures var I := HReverseA(opA, opB, adB, B, Bp, Cb, Ch);
            if adB.ACTIVE? then
              ReverseA(opA, opB, Plus(B, Scaled(t, Bp)), Plus(Cb, Scaled(t, Ch)))
              == Plus(Plus(ReverseA(opA, opB, B, Cb), Scaled(t, I)), Scaled(t * t, ReverseA(opA, opB, Bp, Ch)))
            else
              ReverseA(opA, opB, B, Plus(Cb, Scaled(t, Ch))) == Plus(ReverseA(opA, opB, B, Cb), Scaled(t, I))
  {
    ReverseLayout(opA, A, opB, B, Cb);
    if adB.ACTIVE? {
      CoreExpansion(NORMAL, Cb, Ch, NegateOp(opB), B, Bp, opA, t);
      PlusComm(Core(NORMAL, Ch, NegateOp(opB), B, opA), Core(NORMAL, Cb, NegateOp(opB), Bp, opA));
    } else {
      CoreLinearLeft(NORMAL, Cb, Ch, NegateOp(opB), B, opA, t);
    }
  }

  /** The same for B: hreverse adds to B.h the first-order change of B's reverse increment. */
  lemma HReverseIsDerivativeB(opA: MatOp, adA: ADiffType, A: Matrix, Ap: Matrix, opB: MatOp, B: Matrix,
                              Cb: Matrix, Ch: Matrix, t: real)
    requires Conformable(opA, A, opB, B) && SameShape(A, Ap)
    requires OutputShape(opA, A, opB, B, Cb) && SameShape(Cb, Ch)
    ensures var I := HReverseB(opA, adA, A, Ap, opB, Cb, Ch);
            if adA.ACTIVE? then
              ReverseB(opA, Plus(A, Scaled(t, Ap)), opB, Plus(Cb, Scaled(t, Ch)))
              == Plus(Plus(ReverseB(opA, A, opB, Cb), Scaled(t, I)), Scaled(t * t, ReverseB(opA, Ap, opB, Ch)))
            else
              ReverseB(opA, A, opB, Plus(Cb, Scaled(t, Ch))) == Plus(ReverseB(opA, A, opB, Cb), Scaled(t, I))
  {
    ReverseLayout(opA, A, opB, B, Cb);
    if adA.ACTIVE? {
      CoreExpansion(NegateOp(opA), A, Ap, NORMAL, Cb, Ch, opB, t);
      PlusComm(Core(NegateOp(opA), Ap, NORMAL, Cb, opB), Core(NegateOp(opA), A, NORMAL, Ch, opB));
    } else {
      CoreLinearRight(NegateOp(opA), A, NORMAL, Cb, Ch, opB, t);
    }
  }
}
