/**
 * How the operands of a product expression are tied together: the
 * container type each activity selects, the shapes, and the separation of
 * their buffers.
 */
module GemmWiring {
  import opened A2DEnum
  import opened A2DMatrix
  import opened GemmCore

  /**
   * The operands of an expression of the given order: each has the container
   * type its activity selects, C is active, the shapes fit, and no two of the
   * three share a buffer.
   */
  ghost predicate Wired(opA: MatOp, opB: MatOp, adA: ADiffType, adB: ADiffType, order: ADorder,
                        A: Operand, B: Operand, C: Operand)
  {
    Kind(A) == ADMatType(adA, order) && Kind(B) == ADMatType(adB, order) && Kind(C) == ADMatType(ACTIVE, order) &&
    OperandValid(A) && OperandValid(B) && OperandValid(C) &&
    CoreShapes(opA, GetData(A), opB, GetData(B), NORMAL, GetData(C)) &&
    Apart(A, B) && Apart(A, C) && Apart(B, C)
  }

  /** An operand's activity is exactly whether its container has a b seed. */
  lemma ActivityIsSeed(ad: ADiffType, order: ADorder, x: Operand)
    requires Kind(x) == ADMatType(ad, order)
    ensures ad.ACTIVE? <==> SeedLegal(b, x)
    ensures order.SECOND? && ad.ACTIVE? <==> SeedLegal(p, x)
    ensures order.SECOND? && ad.ACTIVE? <==> SeedLegal(h, x)
  {
  }

  /**
   * No buffer of x is a buffer of y, spelled out buffer by buffer: the
   * primals differ, and each seed either side has differs from the other
   * side's primal and seeds.
   */
  predicate Apart(x: Operand, y: Operand)
  {
    GetData(x).A != GetData(y).A &&
    (SeedLegal(b, x) ==> GetSeed(b, x).A != GetData(y).A) &&
    (SeedLegal(p, x) ==> GetSeed(p, x).A != GetData(y).A) &&
    (SeedLegal(h, x) ==> GetSeed(h, x).A != GetData(y).A) &&
    (SeedLegal(b, y) ==> GetSeed(b, y).A != GetData(x).A) &&
    (SeedLegal(p, y) ==> GetSeed(p, y).A != GetData(x).A) &&
    (SeedLegal(h, y) ==> GetSeed(h, y).A != GetData(x).A) &&
    (SeedLegal(b, x) && SeedLegal(b, y) ==> GetSeed(b, x).A != GetSeed(b, y).A) &&
    (SeedLegal(b, x) && SeedLegal(p, y) ==> GetSeed(b, x).A != GetSeed(p, y).A) &&
    (SeedLegal(b, x) && SeedLegal(h, y) ==> GetSeed(b, x).A != GetSeed(h, y).A) &&
    (SeedLegal(p, x) && SeedLegal(b, y) ==> GetSeed(p, x).A != GetSeed(b, y).A) &&
    (SeedLegal(p, x) && SeedLegal(p, y) ==> GetSeed(p, x).A != GetSeed(p, y).A) &&
    (SeedLegal(p, x) && SeedLegal(h, y) ==> GetSeed(p, x).A != GetSeed(h, y).A) &&
    (SeedLegal(h, x) && SeedLegal(b, y) ==> GetSeed(h, x).A != GetSeed(b, y).A) &&
    (SeedLegal(h, x) && SeedLegal(p, y) ==> GetSeed(h, x).A != GetSeed(p, y).A) &&
    (SeedLegal(h, x) && SeedLegal(h, y) ==> GetSeed(h, x).A != GetSeed(h, y).A)
  }

  /** Apart says exactly that the two containers share no buffer. */
  lemma ApartIsDisjoint(x: Operand, y: Operand)
    ensures Apart(x, y) <==> Footprint(x) !! Footprint(y)
  {
  }
}
