/**
 * Matrix-matrix multiplication C = opA(A) * opB(B) and its first- and
 * second-order expression objects. Each sweep is a sequence of
 * MatMatMultCore calls that overwrite or accumulate into one buffer;
 * the effect of each sweep is stated with the GemmSpec functions.
 */
module A2DGemm {
  import opened A2DEnum
  import opened Dense
  import opened A2DMatrix
  import opened GemmSpec
  import opened GemmCore
  import opened GemmWiring

  // ---------------------------------------------------------------------
  // ADMatMatMultExpr
  // ---------------------------------------------------------------------

  class ADMatMatMultExpr {
    const opA: MatOp
    const opB: MatOp
    const adA: ADiffType
    const adB: ADiffType
    const A: Operand
    const B: Operand
    const C: ADMat

    ghost predicate Valid()
    {
      Wired(opA, opB, adA, adB, FIRST, A, B, First(C))
    }

    /** Binds A, B, C and computes C := opA(A) * opB(B); nothing else is written. */
    constructor (opA: MatOp, opB: MatOp, adA: ADiffType, adB: ADiffType, A: Operand, B: Operand, C: ADMat)
      requires Wired(opA, opB, adA, adB, FIRST, A, B, First(C))
      modifies C.A.A
      ensures Valid()
      ensures this.opA == opA && this.opB == opB && this.adA == adA && this.adB == adB
      ensures this.A == A && this.B == B && this.C == C
      ensures C.A.Value() == Core(opA, GetData(A).Value(), opB, GetData(B).Value(), NORMAL)
      ensures C.Ab.Value() == old(C.Ab.Value())
    {
      this.opA, this.opB, this.adA, this.adB := opA, opB, adA, adB;
      this.A, this.B, this.C := A, B, C;
      new;
      MatMatMultCore(opA, opB, NORMAL, false, GetData(A), GetData(B), C.A);
    }

    /** forward(): C.b := the product-rule tangent of the active operands; no-op when both are passive. */
    method Forward()
      requires Valid()
      modifies C.Ab.A
      ensures C.Ab.Value() == Tangent(opA, adA, GetData(A).Value(), SeedValue(b, A),
                                      opB, adB, GetData(B).Value(), SeedValue(b, B), old(C.Ab.Value()))
      ensures adA.PASSIVE? && adB.PASSIVE? ==> C.Ab.Value() == old(C.Ab.Value())
    {
      ActivityIsSeed(adA, FIRST, A);
      ActivityIsSeed(adB, FIRST, B);
      if adA.ACTIVE? {
        MatMatMultCore(opA, opB, NORMAL, false, GetSeed(b, A), GetData(B), C.Ab);
      }
      if adB.ACTIVE? {
        MatMatMultCore(opA, opB, NORMAL, adA.ACTIVE?, GetData(A), GetSeed(b, B), C.Ab);
      }
    }

    /** The increment reverse adds to A.b: opA(C.b * not_opB(B)). */
    ghost function IncA(): Matrix
      reads GetData(B).A, C.Ab.A
    {
      ReverseA(opA, opB, GetData(B).Value(), C.Ab.Value())
    }

    /** The increment reverse adds to B.b: opB(not_opA(A) * C.b). */
    ghost function IncB(): Matrix
      reads GetData(A).A, C.Ab.A
    {
      ReverseB(opA, GetData(A).Value(), opB, C.Ab.Value())
    }

    /** Each increment has the shape of the operand it is added to. */
    lemma IncShapes()
      requires Valid()
      ensures HasShape(IncA(), GetData(A).m, GetData(A).n) && HasShape(IncB(), GetData(B).m, GetData(B).n)
    {
      ReverseLayout(opA, GetData(A).Value(), opB, GetData(B).Value(), C.Ab.Value());
    }

    /** reverse(): A.b += IncA() and B.b += IncB() for the active operands; C is untouched. */
    method Reverse()
      requires Valid()
      modifies SeedFrame(b, A), SeedFrame(b, B)
      ensures adA.ACTIVE? ==> GetSeed(b, A).Value() == Plus(old(GetSeed(b, A).Value()), old(IncA()))
      ensures adB.ACTIVE? ==> GetSeed(b, B).Value() == Plus(old(GetSeed(b, B).Value()), old(IncB()))
      ensures C.A.Value() == old(C.A.Value()) && C.Ab.Value() == old(C.Ab.Value())
    {
      ActivityIsSeed(adA, FIRST, A);
      ActivityIsSeed(adB, FIRST, B);
      if adA.ACTIVE? {
        MatMatMultCore(NORMAL, NegateOp(opB), opA, true, C.Ab, GetData(B), GetSeed(b, A));
      }
      if adB.ACTIVE? {
        MatMatMultCore(NegateOp(opA), NORMAL, opB, true, GetData(A), C.Ab, GetSeed(b, B));
      }
    }
  }

  /** The four MatMatMult overloads for ADMat results: the operands' types fix the activities. */
  method FirstOrderMatMatMult(opA: MatOp, opB: MatOp, A: ADMat, B: ADMat, C: ADMat) returns (e: ADMatMatMultExpr)
    requires Wired(opA, opB, ACTIVE, ACTIVE, FIRST, First(A), First(B), First(C))
    modifies C.A.A
    ensures fresh(e) && e.Valid() && e.opA == opA && e.opB == opB && e.adA == ACTIVE && e.adB == ACTIVE
    ensures e.A == First(A) && e.B == First(B) && e.C == C
    ensures C.A.Value() == Core(opA, A.A.Value(), opB, B.A.Value(), NORMAL)
  {
    e := new ADMatMatMultExpr(opA, opB, ACTIVE, ACTIVE, First(A), First(B), C);
  }

  method FirstOrderMatMatMultPassiveA(opA: MatOp, opB: MatOp, A: Mat, B: ADMat, C: ADMat) returns (e: ADMatMatMultExpr)
    requires Wired(opA, opB, PASSIVE, ACTIVE, FIRST, Plain(A), First(B), First(C))
    modifies C.A.A
    ensures fresh(e) && e.Valid() && e.opA == opA && e.opB == opB && e.adA == PASSIVE && e.adB == ACTIVE
    ensures e.A == Plain(A) && e.B == First(B) && e.C == C
    ensures C.A.Value() == Core(opA, A.Value(), opB, B.A.Value(), NORMAL)
  {
    e := new ADMatMatMultExpr(opA, opB, PASSIVE, ACTIVE, Plain(A), First(B), C);
  }

  method FirstOrderMatMatMultPassiveB(opA: MatOp, opB: MatOp, A: ADMat, B: Mat, C: ADMat) returns (e: ADMatMatMultExpr)
    requires Wired(opA, opB, ACTIVE, PASSIVE, FIRST, First(A), Plain(B), First(C))
    modifies C.A.A
    ensures fresh(e) && e.Valid() && e.opA == opA && e.opB == opB && e.adA == ACTIVE && e.adB == PASSIVE
    ensures e.A == First(A) && e.B == Plain(B) && e.C == C
    ensures C.A.Value() == Core(opA, A.A.Value(), opB, B.Value(), NORMAL)
  {
    e := new ADMatMatMultExpr(opA, opB, ACTIVE, PASSIVE, First(A), Plain(B), C);
  }

  method FirstOrderMatMatMultPassive(opA: MatOp, opB: MatOp, A: Mat, B: Mat, C: ADMat) returns (e: ADMatMatMultExpr)
    requires Wired(opA, opB, PASSIVE, PASSIVE, FIRST, Plain(A), Plain(B), First(C))
    modifies C.A.A
    ensures fresh(e) && e.Valid() && e.opA == opA && e.opB == opB && e.adA == PASSIVE && e.adB == PASSIVE
    ensures e.A == Plain(A) && e.B == Plain(B) && e.C == C
    ensures C.A.Value() == Core(opA, A.Value(), opB, B.Value(), NORMAL)
  {
    e := new ADMatMatMultExpr(opA, opB, PASSIVE, PASSIVE, Plain(A), Plain(B), C);
  }

  /**
   * Two expressions sharing an active operand A, reversed one after the
   * other: A.b receives the sum of both contributions.
   */
  method ReverseShared(e1: ADMatMatMultExpr, e2: ADMatMatMultExpr)
    requires e1.Valid() && e2.Valid() && e1.A == e2.A && e1.adA.ACTIVE?
    requires Apart(e1.B, e2.B) && Apart(e1.B, First(e2.C)) && Apart(First(e1.C), e2.B) && Apart(First(e1.C), First(e2.C))
    modifies SeedFrame(b, e1.A), SeedFrame(b, e1.B), SeedFrame(b, e2.B)
    ensures GetSeed(b, e1.A).Value() == Plus(old(GetSeed(b, e1.A).Value()), Plus(old(e1.IncA()), old(e2.IncA())))
  {
    ActivityIsSeed(e1.adA, FIRST, e1.A);
    e1.IncShapes();
    e2.IncShapes();
    ghost var A0, D1, D2 := GetSeed(b, e1.A).Value(), e1.IncA(), e2.IncA();
    assert SameShape(A0, D1) && SameShape(A0, D2);
    assert GetData(e2.B).A !in SeedFrame(b, e1.A) + SeedFrame(b, e1.B);
    assert e2.C.Ab.A !in SeedFrame(b, e1.A) + SeedFrame(b, e1.B);
    e1.Reverse();
    ghost var A1 := GetSeed(b, e1.A).Value();
    assert e2.IncA() == D2;
    e2.Reverse();
    AccumulateTwice(A0, D1, D2, A1, GetSeed(b, e1.A).Value());
  }

  /** Adding D1 and then D2 to a buffer adds D1 + D2. */
  lemma AccumulateTwice(A0: Matrix, D1: Matrix, D2: Matrix, A1: Matrix, A2: Matrix)
    requires SameShape(A0, D1) && SameShape(A0, D2)
    requires A1 == Plus(A0, D1) && A2 == Plus(A1, D2)
    ensures A2 == Plus(A0, Plus(D1, D2))
  {
    PlusAssoc(A0, D1, D2);
  }

  // ---------------------------------------------------------------------
  // A2DMatMatMultExpr
  // ---------------------------------------------------------------------

  class A2DMatMatMultExpr {
    const opA: MatOp
    const opB: MatOp
    const adA: ADiffType
    const adB: ADiffType
    const A: Operand
    const B: Operand
    const C: A2DMat

    ghost predicate Valid()
    {
      Wired(opA, opB, adA, adB, SECOND, A, B, Second(C))
    }

    /** Binds A, B, C and computes C := opA(A) * opB(B); nothing else is written. */
    constructor (opA: MatOp, opB: MatOp, adA: ADiffType, adB: ADiffType, A: Operand, B: Operand, C: A2DMat)
      requires Wired(opA, opB, adA, adB, SECOND, A, B, Second(C))
      modifies C.A.A
      ensures Valid()
      ensures this.opA == opA && this.opB == opB && this.adA == adA && this.adB == adB
      ensures this.A == A && this.B == B && this.C == C
      ensures C.A.Value() == Core(opA, GetData(A).Value(), opB, GetData(B).Value(), NORMAL)
      ensures C.Ab.Value() == old(C.Ab.Value()) && C.Ap.Value() == old(C.Ap.Value()) && C.Ah.Value() == old(C.Ah.Value())
    {
      this.opA, this.opB, this.adA, this.adB := opA, opB, adA, adB;
      this.A, this.B, this.C := A, B, C;
      new;
      MatMatMultCore(opA, opB, NORMAL, false, GetData(A), GetData(B), C.A);
    }

    /** forward(): C.b := the product-rule tangent of the active operands' b buffers. */
    method Forward()
      requires Valid()
      modifies C.Ab.A
      ensures C.Ab.Value() == Tangent(opA, adA, GetData(A).Value(), SeedValue(b, A),
                                      opB, adB, GetData(B).Value(), SeedValue(b, B), old(C.Ab.Value()))
      ensures adA.PASSIVE? && adB.PASSIVE? ==> C.Ab.Value() == old(C.Ab.Value())
    {
      ActivityIsSeed(adA, SECOND, A);
      ActivityIsSeed(adB, SECOND, B);
      if adA.ACTIVE? {
        MatMatMultCore(opA, opB, NORMAL, false, GetSeed(b, A), GetData(B), C.Ab);
      }
      if adB.ACTIVE? {
        MatMatMultCore(opA, opB, NORMAL, adA.ACTIVE?, GetData(A), GetSeed(b, B), C.Ab);
      }
    }

    /** reverse(): A.b += ReverseA(C.b) and B.b += ReverseB(C.b) for the active operands; C is untouched. */
    method Reverse()
      requires Valid()
      modifies SeedFrame(b, A), SeedFrame(b, B)
      ensures adA.ACTIVE? ==> GetSeed(b, A).Value() == Plus(old(GetSeed(b, A).Value()),
                                                            ReverseA(opA, opB, GetData(B).Value(), C.Ab.Value()))
      ensures adB.ACTIVE? ==> GetSeed(b, B).Value() == Plus(old(GetSeed(b, B).Value()),
                                                            ReverseB(opA, GetData(A).Value(), opB, C.Ab.Value()))
      ensures C.Ab.Value() == old(C.Ab.Value())
    {
      ActivityIsSeed(adA, SECOND, A);
      ActivityIsSeed(adB, SECOND, B);
      if adA.ACTIVE? {
        MatMatMultCore(NORMAL, NegateOp(opB), opA, true, C.Ab, GetData(B), GetSeed(b, A));
      }
      if adB.ACTIVE? {
        MatMatMultCore(NegateOp(opA), NORMAL, opB, true, GetData(A), C.Ab, GetSeed(b, B));
      }
    }

    /** hforward(): forward on the p buffers, C.p := the tangent of the active operands' p buffers. */
    method HForward()
      requires Valid()
      modifies C.Ap.A
      ensures C.Ap.Value() == Tangent(opA, adA, GetData(A).Value(), SeedValue(p, A),
                                      opB, adB, GetData(B).Value(), SeedValue(p, B), old(C.Ap.Value()))
      ensures adA.PASSIVE? && adB.PASSIVE? ==> C.Ap.Value() == old(C.Ap.Value())
    {
      ActivityIsSeed(adA, SECOND, A);
      ActivityIsSeed(adB, SECOND, B);
      if adA.ACTIVE? {
        MatMatMultCore(opA, opB, NORMAL, false, GetSeed(p, A), GetData(B), C.Ap);
      }
      if adB.ACTIVE? {
        MatMatMultCore(opA, opB, NORMAL, adA.ACTIVE?, GetData(A), GetSeed(p, B), C.Ap);
      }
    }

    /**
     * hreverse(): A.h += ReverseA(C.h), plus ReverseA through B.p with C.b when
     * B is active too; symmetrically for B.h. C and every b and p buffer are untouched.
     */
    method HReverse()
      requires Valid()
      modifies SeedFrame(h, A), SeedFrame(h, B)
      ensures adA.ACTIVE? ==>
                GetSeed(h, A).Value()
                == Plus(old(GetSeed(h, A).Value()),
                        HReverseA(opA, opB, adB, GetData(B).Value(), SeedValue(p, B), C.Ab.Value(), C.Ah.Value()))
      ensures adB.ACTIVE? ==>
                GetSeed(h, B).Value()
                == Plus(old(GetSeed(h, B).Value()),
                        HReverseB(opA, adA, GetData(A).Value(), SeedValue(p, A), opB, C.Ab.Value(), C.Ah.Value()))
      ensures C.Ab.Value() == old(C.Ab.Value()) && C.Ah.Value() == old(C.Ah.Value())
    {
      ActivityIsSeed(adA, SECOND, A);
      ActivityIsSeed(adB, SECOND, B);
      ghost var a0, b0, ap, bp := GetData(A).Value(), GetData(B).Value(), SeedValue(p, A), SeedValue(p, B);
      ghost var cb, ch := C.Ab.Value(), C.Ah.Value();
      ghost var ah, bh := SeedValue(h, A), SeedValue(h, B);
      HReverseOwnTerms();
      if adA.ACTIVE? && adB.ACTIVE? {
        HReverseCrossTerms();
        ReverseLayout(opA, a0, opB, b0, ch);
        ReverseLayout(opA, a0, opB, bp, cb);
        ReverseLayout(opA, ap, opB, b0, cb);
        PlusAssoc(ah, ReverseA(opA, opB, b0, ch), ReverseA(opA, opB, bp, cb));
        PlusAssoc(bh, ReverseB(opA, a0, opB, ch), ReverseB(opA, ap, opB, cb));
      }
    }

    /** The first two steps of hreverse: the C.h terms, added for each active operand. */
    method HReverseOwnTerms()
      requires Valid()
      modifies SeedFrame(h, A), SeedFrame(h, B)
      ensures adA.ACTIVE? ==> GetSeed(h, A).Value() == Plus(old(GetSeed(h, A).Value()),
                                                            ReverseA(opA, opB, GetData(B).Value(), C.Ah.Value()))
      ensures adB.ACTIVE? ==> GetSeed(h, B).Value() == Plus(old(GetSeed(h, B).Value()),
                                                            ReverseB(opA, GetData(A).Value(), opB, C.Ah.Value()))
      ensures GetData(A).Value() == old(GetData(A).Value()) && GetData(B).Value() == old(GetData(B).Value())
      ensures SeedValue(p, A) == old(SeedValue(p, A)) && SeedValue(p, B) == old(SeedValue(p, B))
      ensures C.Ab.Value() == old(C.Ab.Value()) && C.Ah.Value() == old(C.Ah.Value())
    {
      ActivityIsSeed(adA, SECOND, A);
      ActivityIsSeed(adB, SECOND, B);
      if adA.ACTIVE? {
        MatMatMultCore(NORMAL, NegateOp(opB), opA, true, C.Ah, GetData(B), GetSeed(h, A));
      }
      if adB.ACTIVE? {
        MatMatMultCore(NegateOp(opA), NORMAL, opB, true, GetData(A), C.Ah, GetSeed(h, B));
      }
    }

    /** The last two steps of hreverse, taken only when both operands are active: the C.b cross terms. */
    method HReverseCrossTerms()
      requires Valid() && adA.ACTIVE? && adB.ACTIVE?
      modifies SeedFrame(h, A), SeedFrame(h, B)
      ensures GetSeed(h, A).Value() == Plus(old(GetSeed(h, A).Value()),
                                            ReverseA(opA, opB, GetSeed(p, B).Value(), C.Ab.Value()))
      ensures GetSeed(h, B).Value() == Plus(old(GetSeed(h, B).Value()),
                                            ReverseB(opA, GetSeed(p, A).Value(), opB, C.Ab.Value()))
      ensures GetData(A).Value() == old(GetData(A).Value()) && GetData(B).Value() == old(GetData(B).Value())
      ensures SeedValue(p, A) == old(SeedValue(p, A)) && SeedValue(p, B) == old(SeedValue(p, B))
      ensures C.Ab.Value() == old(C.Ab.Value()) && C.Ah.Value() == old(C.Ah.Value())
    {
      ActivityIsSeed(adA, SECOND, A);
      ActivityIsSeed(adB, SECOND, B);
      ghost var pa, pb, cb, ch := SeedValue(p, A), SeedValue(p, B), C.Ab.Value(), C.Ah.Value();
      MatMatMultCore(NORMAL, NegateOp(opB), opA, true, C.Ab, GetSeed(p, B), GetSeed(h, A));
      ghost var ha := GetSeed(h, A).Value();
      assert SeedValue(p, A) == pa && SeedValue(p, B) == pb && C.Ab.Value() == cb && C.Ah.Value() == ch;
      MatMatMultCore(NegateOp(opA), NORMAL, opB, true, GetSeed(p, A), C.Ab, GetSeed(h, B));
      assert GetSeed(h, A).Value() == ha;
    }
  }

  /** The four MatMatMult overloads for A2DMat results: the operands' types fix the activities. */
  method SecondOrderMatMatMult(opA: MatOp, opB: MatOp, A: A2DMat, B: A2DMat, C: A2DMat) returns (e: A2DMatMatMultExpr)
    requires Wired(opA, opB, ACTIVE, ACTIVE, SECOND, Second(A), Second(B), Second(C))
    modifies C.A.A
    ensures fresh(e) && e.Valid() && e.opA == opA && e.opB == opB && e.adA == ACTIVE && e.adB == ACTIVE
    ensures e.A == Second(A) && e.B == Second(B) && e.C == C
    ensures C.A.Value() == Core(opA, A.A.Value(), opB, B.A.Value(), NORMAL)
  {
    e := new A2DMatMatMultExpr(opA, opB, ACTIVE, ACTIVE, Second(A), Second(B), C);
  }

  method SecondOrderMatMatMultPassiveA(opA: MatOp, opB: MatOp, A: Mat, B: A2DMat, C: A2DMat) returns (e: A2DMatMatMultExpr)
    requires Wired(opA, opB, PASSIVE, ACTIVE, SECOND, Plain(A), Second(B), Second(C))
    modifies C.A.A
    ensures fresh(e) && e.Valid() && e.opA == opA && e.opB == opB && e.adA == PASSIVE && e.adB == ACTIVE
    ensures e.A == Plain(A) && e.B == Second(B) && e.C == C
    ensures C.A.Value() == Core(opA, A.Value(), opB, B.A.Value(), NORMAL)
  {
    e := new A2DMatMatMultExpr(opA, opB, PASSIVE, ACTIVE, Plain(A), Second(B), C);
  }

  method SecondOrderMatMatMultPassiveB(opA: MatOp, opB: MatOp, A: A2DMat, B: Mat, C: A2DMat) returns (e: A2DMatMatMultExpr)
    requires Wired(opA, opB, ACTIVE, PASSIVE, SECOND, Second(A), Plain(B), Second(C))
    modifies C.A.A
    ensures fresh(e) && e.Valid() && e.opA == opA && e.opB == opB && e.adA == ACTIVE && e.adB == PASSIVE
    ensures e.A == Second(A) && e.B == Plain(B) && e.C == C
    ensures C.A.Value() == Core(opA, A.A.Value(), opB, B.Value(), NORMAL)
  {
    e := new A2DMatMatMultExpr(opA, opB, ACTIVE, PASSIVE, Second(A), Plain(B), C);
  }

  method SecondOrderMatMatMultPassive(opA: MatOp, opB: MatOp, A: Mat, B: Mat, C: A2DMat) returns (e: A2DMatMatMultExpr)
    requires Wired(opA, opB, PASSIVE, PASSIVE, SECOND, Plain(A), Plain(B), Second(C))
    modifies C.A.A
    ensures fresh(e) && e.Valid() && e.opA == opA && e.opB == opB && e.adA == PASSIVE && e.adB == PASSIVE
    ensures e.A == Plain(A) && e.B == Plain(B) && e.C == C
    ensures C.A.Value() == Core(opA, A.Value(), opB, B.Value(), NORMAL)
  {
    e := new A2DMatMatMultExpr(opA, opB, PASSIVE, PASSIVE, Plain(A), Plain(B), C);
  }
}
