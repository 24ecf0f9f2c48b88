/**
 * The selector enumerations of the AD runtime and the orientation flip used
 * when a reverse sweep reads the "other" operand transposed.
 */
module A2DEnum {

  /** Whether an operand participates in differentiation. */
  datatype ADiffType = PASSIVE | ACTIVE

  /** Whether first- or second-order derivatives are requested. */
  datatype ADorder = FIRST | SECOND

  /** Whether a matrix is read as itself or as its transpose. */
  datatype MatOp = NORMAL | TRANSPOSE

  /** Which derivative buffer is meant: b (adjoint/tangent), p (projected tangent), h (second adjoint). */
  datatype ADseed = b | p | h

  /**
   * The opposite orientation. With only two orientations, "differs from the
   * argument" determines the result completely.
   */
  function NegateOp(op: MatOp): (r: MatOp)
    ensures r != op
  {
    match op
    case NORMAL => TRANSPOSE
    case TRANSPOSE => NORMAL
  }

  /** Flipping twice gives back the orientation one started with. */
  lemma NegateOpInvolutive(op: MatOp)
    ensures NegateOp(NegateOp(op)) == op
  {
  }
}
