# A2D dense-matrix automatic differentiation, modelled in Dafny

A2D is a header-only C++ library for automatic differentiation (AD) of small,
fixed-size dense matrix expressions. This project models its core and proves
the differentiation rules that core implements, over exact `real` arithmetic.

The core has three parts:

- **Selector enumerations** (`A2DEnum`, file `a2denum.dfy`):
  - `ADiffType`, `ADorder`, `MatOp` and `ADseed`;
  - the orientation flip `negate_op`, modelled as `NegateOp`.
- **Value containers** (`A2DMatrix`, file `a2dmat.dfy`):
  - `Mat` is an owning row-major M×N buffer. It is a class over an `array<real>` of length `m * n`, and element (i, j) lives at `A[n*i + j]`.
  - `ADMat` borrows a primal and one derivative buffer.
  - `A2DMat` owns a primal and three derivative buffers: b, p and h.
  - The selection functions `get_data`, `GetSeed` and `ADMatType` are modelled as `GetData`, `GetSeed` and `ADMatType`.
  - An operand of an expression is whichever container its activity selects (`Operand`).
- **Matrix product expressions** (`A2DGemm`, file `a2dgemm.dfy`):
  - the first-order expression `ADMatMatMultExpr` and the second-order expression `A2DMatMatMultExpr`;
  - their sweeps `forward`, `reverse`, `hforward` and `hreverse`;
  - the eight activity-selecting `MatMatMult` overloads.

  Each sweep is a sequence of calls to the kernel `MatMatMultCore` (module `GemmCore`). Each call either overwrites one buffer with `opOut(op1(X)·op2(Y))` or adds that product to it.

Supporting modules:

- `Dense` (file `dense.dfy`): exact matrix algebra. It defines finite sums, products, transposes, orientation, the Frobenius inner product and their laws.
- `GemmSpec` (file `gemm_spec.dfy`): what each sweep writes, and why that is the right derivative. This covers the product rule, the adjoint identity and the second-order terms.
- `GemmWiring` (file `gemm_wiring.dfy`): how the operands of an expression are tied together. Each operand has the container type its activity selects, the shapes fit, and no two operands share a buffer.

Every sweep method is proved against these functions:

- Its `ensures` gives the new value of each buffer it writes, in terms of the old values.
- Its `modifies` clause names exactly the buffers the C++ code can write.

The lemmas of `GemmSpec` then prove that those values are the derivatives an AD runtime must produce.

## Model

| member | source | states |
|---|---|---|
| A2DEnum.NegateOp | include/a2denum.h:28-39 | the flipped orientation differs from its argument; with two orientations this means NORMAL goes to TRANSPOSE and TRANSPOSE to NORMAL |
| A2DEnum.NegateOpInvolutive | include/a2denum.h:28-39 | flipping twice gives back the original orientation |
| Dense.NegateOrient | include/ad/a2dgemm.h:26-27 | reading a matrix in orientation not_op equals transposing its reading in op; reverse relies on this when it reads the other operand |
| A2DMatrix.OffsetInRange | include/ad/a2dmat.h:53-61 | for 0 ≤ i < M and 0 ≤ j < N, the position N*i+j addressed by operator() lies in [0, M*N) |
| A2DMatrix.OffsetInjective | include/ad/a2dmat.h:53-61 | distinct (i, j) with j < N address distinct buffer positions |
| A2DMatrix.OffsetSplit | include/ad/a2dmat.h:53-61 | every buffer position k < M*N is the address of element (k / N, k mod N) |
| A2DMatrix.RowMajorRoundTrip | include/ad/a2dmat.h:53-61 | reading a buffer of length M*N as a matrix and writing it back row-major gives the same buffer |
| A2DMatrix.MatrixRoundTrip | include/ad/a2dmat.h:53-61 | writing a matrix row-major and reading it back gives the same matrix |
| A2DMatrix.RowMajorEntry | include/ad/a2dmat.h:53-61 | element (i, j) of a matrix is at position N*i+j of its row-major buffer |
| A2DMatrix.ZeroBuffer | include/ad/a2dmat.h:32-36 | a buffer of zeros holds the zero matrix |
| A2DMatrix.Mat.Value | include/ad/a2dmat.h:65 | the value of a Mat is an M×N matrix |
| A2DMatrix.Mat.At | include/ad/a2dmat.h:53-61 | reading (i, j) returns element (i, j) of the value |
| A2DMatrix.Mat.Put | include/ad/a2dmat.h:53-61 | writing through the reference at (i, j) changes exactly element (i, j) of the value |
| A2DMatrix.Mat.constructor | include/ad/a2dmat.h:14-18 | a default Mat has a fresh buffer of zeros, so its value is the zero matrix |
| A2DMatrix.Mat.FromValues | include/ad/a2dmat.h:19-23 | Mat(vals) copies vals[0..M*N) into the buffer in order |
| A2DMatrix.Mat.Copy | include/ad/a2dmat.h:24-31 | Mat(mat) holds mat(i, j) at every (i, j) of its own shape |
| A2DMatrix.Mat.Zero | include/ad/a2dmat.h:32-36 | zero() sets every buffer slot, hence every entry, to 0 |
| A2DMatrix.Mat.Set | include/ad/a2dmat.h:37-44 | after set(mat), this(i, j) == mat(i, j) for every (i, j) of this; mat is not written |
| A2DMatrix.Mat.Get | include/ad/a2dmat.h:45-52 | after get(mat), mat(i, j) == this(i, j) for every (i, j) of this, the rest of mat keeps its value, and this is not written |
| A2DMatrix.SetGetWhole | include/ad/a2dmat.h:37-52 | with equal shapes, set copies the whole value and get overwrites the whole target |
| A2DMatrix.CopyOf | include/ad/a2dmat.h:24-31 | the copy constructor yields a fresh Mat of the same shape and value |
| A2DMatrix.ADMat.constructor | include/ad/a2dmat.h:71 | ADMat(A, Ab) binds the two references without copying |
| A2DMatrix.A2DMat.constructor | include/ad/a2dmat.h:86 | a default A2DMat has four fresh zero buffers |
| A2DMatrix.A2DMat.FromValue | include/ad/a2dmat.h:87-88 | A2DMat(A) copies the primal; b, p and h are zero |
| A2DMatrix.A2DMat.FromValueB | include/ad/a2dmat.h:89-90 | A2DMat(A, Ab) copies primal and b; p and h are zero |
| A2DMatrix.A2DMat.FromValueBP | include/ad/a2dmat.h:91-93 | A2DMat(A, Ab, Ap) copies primal, b and p; h is zero |
| A2DMatrix.A2DMat.FromValueBPH | include/ad/a2dmat.h:94-95 | A2DMat(A, Ab, Ap, Ah) copies all four buffers |
| A2DMatrix.A2DMat.SetBValue | include/ad/a2dmat.h:100 | set_bvalue replaces b with val and changes no other buffer |
| A2DMatrix.A2DMat.GetBValue | include/ad/a2dmat.h:101 | get_bvalue copies b into val and leaves b unchanged |
| A2DMatrix.A2DMat.SetPValue | include/ad/a2dmat.h:105 | set_pvalue replaces p with val and changes no other buffer |
| A2DMatrix.A2DMat.GetPValue | include/ad/a2dmat.h:106 | get_pvalue copies p into val and leaves p unchanged |
| A2DMatrix.A2DMat.SetHValue | include/ad/a2dmat.h:110 | set_hvalue replaces h with val and changes no other buffer |
| A2DMatrix.A2DMat.GetHValue | include/ad/a2dmat.h:111 | get_hvalue copies h into val and leaves h unchanged |
| A2DMatrix.ADMatType | include/ad/a2dmat.h:180-185 | the container is Mat exactly when passive, ADMat exactly when active to first order, and A2DMat exactly when active to second order |
| A2DMatrix.GetDataIsPrimal | include/ad/a2dmat.h:124-137 | get_data yields the primal: a buffer of the container that no seed names, while every other buffer of the container is named by some seed |
| A2DMatrix.GetSeed | include/ad/a2dmat.h:143-164 | a seed buffer has the primal's shape and is a different buffer from the primal; on ADMat only seed b exists |
| A2DMatrix.GetSeedInjective | include/ad/a2dmat.h:153-163 | on an A2DMat, seeds b, p and h name three different buffers |
| A2DMatrix.Footprint | include/ad/a2dmat.h:68-118 | a container's buffers include its primal and every seed buffer it offers |
| A2DMatrix.SeedValue | include/ad/a2dmat.h:143-164 | a seed's value has the primal's shape |
| GemmWiring.ActivityIsSeed | include/ad/a2dmat.h:180-185 | under the container ADMatType selects, an operand is active exactly when it has a b seed, and second-order active exactly when it has p and h seeds |
| GemmWiring.ApartIsDisjoint | include/ad/a2dgemm.h:173-176 | the buffer-by-buffer separation that expressions require is exactly disjointness of the two containers' buffer sets |
| GemmSpec.Core | include/ad/a2dgemm.h:17 | opOut(op1(X)·op2(Y)) has the shape opOut gives the P×Q product |
| GemmSpec.CoreExpansion | include/ad/a2dgemm.h:40-50 | perturbing X by t·dX and Y by t·dY changes the product by t·(dX term + dY term) + t²·(dX dY term) |
| GemmSpec.CoreLinearLeft | include/ad/a2dgemm.h:41-44 | the product is linear in its first factor |
| GemmSpec.CoreLinearRight | include/ad/a2dgemm.h:45-49 | the product is linear in its second factor |
| GemmSpec.ForwardIsDerivative | include/ad/a2dgemm.h:40-50 | the tangent forward writes is the first-order change of C along the active operands' seeds: both terms when both are active, the one active operand's term otherwise |
| GemmSpec.ReverseLayout | include/ad/a2dgemm.h:54-59 | each reverse increment, written with output orientation opA or opB, has its operand's own shape |
| GemmSpec.AdjointA | include/ad/a2dgemm.h:53-56 | ⟨G, opA(dA)·opB(B)⟩ = ⟨opA(G·not_opB(B)), dA⟩ |
| GemmSpec.AdjointB | include/ad/a2dgemm.h:57-60 | ⟨G, opA(A)·opB(dB)⟩ = ⟨opB(not_opA(A)·G), dB⟩ |
| GemmSpec.AdjointIdentity | include/ad/a2dgemm.h:40-61 | for every orientation pair and activity pair, pairing C.b with the forward tangent equals the sum, over the active operands, of each reverse increment paired with that operand's tangent |
| GemmSpec.HReverseIsDerivativeA | include/ad/a2dgemm.h:156-171 | what hreverse adds to A.h is the first-order change of A's reverse increment when C.b moves along C.h and, if B is active, B moves along B.p |
| GemmSpec.HReverseIsDerivativeB | include/ad/a2dgemm.h:156-171 | the same for B.h, with A moving along A.p when A is active |
| GemmCore.Dot | include/ad/a2dgemm.h:17 | the dot-product loop returns element (i, j) of P·Q |
| GemmCore.CoreAt | include/ad/a2dgemm.h:17 | returns element (i, j) of opOut(op1(X)·op2(Y)) |
| GemmCore.CoreRow | include/ad/a2dgemm.h:42 | one row of the kernel loop writes that row of the result and no other element |
| GemmCore.MatMatMultCore | include/ad/a2dgemm.h:42-43 | the output becomes opOut(op1(X)·op2(Y)), or its old value plus that when additive; only the output is written |
| GemmCore.MatMatMult | include/ad/a2dgemm.h:13-19 | primal MatMatMult sets C = opA(A)·opB(B) and writes only C |
| A2DGemm.ADMatMatMultExpr.constructor | include/ad/a2dgemm.h:34-38 | C.A := opA(A)·opB(B), and C.b keeps its value |
| A2DGemm.ADMatMatMultExpr.Forward | include/ad/a2dgemm.h:40-50 | C.b := the product-rule tangent of the active operands; the old C.b is discarded, and nothing changes when both operands are passive |
| A2DGemm.ADMatMatMultExpr.IncShapes | include/ad/a2dgemm.h:52-61 | the increments reverse adds to A.b and B.b have those buffers' shapes |
| A2DGemm.ADMatMatMultExpr.Reverse | include/ad/a2dgemm.h:52-61 | A.b := A.b + opA(C.b·not_opB(B)) and B.b := B.b + opB(not_opA(A)·C.b) for the active operands; C is unchanged and a passive operand is not written |
| A2DGemm.FirstOrderMatMatMult | include/ad/a2dgemm.h:69-76 | the ADMat/ADMat overload builds an expression with both operands active and sets C.A |
| A2DGemm.FirstOrderMatMatMultPassiveA | include/ad/a2dgemm.h:78-84 | the Mat/ADMat overload makes A passive and B active |
| A2DGemm.FirstOrderMatMatMultPassiveB | include/ad/a2dgemm.h:86-92 | the ADMat/Mat overload makes A active and B passive |
| A2DGemm.FirstOrderMatMatMultPassive | include/ad/a2dgemm.h:94-100 | the Mat/Mat overload makes both operands passive |
| A2DGemm.ReverseShared | include/ad/a2dgemm.h:52-61 | reversing two expressions that share an active operand A leaves A.b equal to its old value plus the sum of both increments, because reverse only accumulates |
| A2DGemm.A2DMatMatMultExpr.constructor | include/ad/a2dgemm.h:115-119 | C.A := opA(A)·opB(B), and C.b, C.p and C.h keep their values |
| A2DGemm.A2DMatMatMultExpr.Forward | include/ad/a2dgemm.h:121-131 | C.b := the product-rule tangent of the operands' b buffers; nothing changes when both are passive |
| A2DGemm.A2DMatMatMultExpr.Reverse | include/ad/a2dgemm.h:133-142 | A.b and B.b accumulate their reverse increments from C.b; C.b is unchanged |
| A2DGemm.A2DMatMatMultExpr.HForward | include/ad/a2dgemm.h:144-154 | C.p := the tangent of the operands' p buffers; only C.p is written, so every b and h buffer is unchanged |
| A2DGemm.A2DMatMatMultExpr.HReverse | include/ad/a2dgemm.h:156-171 | A.h += opA(C.h·not_opB(B)), plus opA(C.b·not_opB(B.p)) when B is active too; the same for B.h; only h buffers are written |
| A2DGemm.A2DMatMatMultExpr.HReverseOwnTerms | include/ad/a2dgemm.h:157-164 | the C.h terms are added to the active operands' h buffers, and the inputs of the cross terms are unchanged |
| A2DGemm.A2DMatMatMultExpr.HReverseCrossTerms | include/ad/a2dgemm.h:165-170 | with both operands active, the C.b cross terms through B.p and A.p are added to A.h and B.h |
| A2DGemm.SecondOrderMatMatMult | include/ad/a2dgemm.h:179-186 | the A2DMat/A2DMat overload makes both operands active and sets C.A |
| A2DGemm.SecondOrderMatMatMultPassiveA | include/ad/a2dgemm.h:188-194 | the Mat/A2DMat overload makes A passive and B active |
| A2DGemm.SecondOrderMatMatMultPassiveB | include/ad/a2dgemm.h:196-202 | the A2DMat/Mat overload makes A active and B passive |
| A2DGemm.SecondOrderMatMatMultPassive | include/ad/a2dgemm.h:204-210 | the Mat/Mat overload makes both operands passive |

When both operands are passive, `Reverse` and `HReverse` have an empty `modifies` frame (`SeedFrame` is empty for a plain `Mat`), so they change nothing. `Forward` and `HForward` then keep C.b and C.p, as their second `ensures` says.

## Left out

- The scalar type `T` (double or `std::complex<double>`) is modelled as `real`. Rounding and complex-step arithmetic are not modelled.
- include/ad/a2dtest.h is not part of this model. It holds complex-step checks against random seeds, floating-point tolerances and console output.
- examples/elasticity/helmholtz3d.h is not part of this model. It is a finite-element kernel built on collaborators outside the core.
- The body of `MatMatMultCore` (ad/core/a2dgemmcore.h) is not part of this model. `GemmCore.MatMatMultCore` gives it by its effect, with a plain row-by-row loop for a body; the original's loop order and pointer layout are not modelled. The six size template arguments each call passes (N, M, K, L, P, Q) are not modelled either: the kernel reads every shape from its Mat arguments, and `CoreShapes` requires those shapes to fit.
- `get_bdata`, `get_pdata`, `get_hdata`, the two-argument `ADMatType` and `A2DMatType` are not defined in the modelled files. They are modelled as `GetSeed(b|p|h, ·)` and as `ADMatType(ad, FIRST)` / `ADMatType(ad, SECOND)`.
- The template sizes M, N become the constants `m`, `n` of a `Mat`. `static_assert`s, template shape checks and `if constexpr` become preconditions (`CoreShapes`, `Wired`) and branches on the constant activity fields.
- `GetSeed` on a plain `Mat`, or seed p/h on an `ADMat`, is a compile error in the source. Here it is excluded by the precondition `SeedLegal`.
- Reference aliasing is not modelled. Operands of an expression must not share a buffer (`Apart`), and a kernel's output must differ from its inputs. Mat.Set and Mat.Get likewise require the two matrices to be different buffers, and so do SetBValue, GetBValue, SetPValue, GetPValue, SetHValue and GetHValue for `val` and the buffer they copy to or from. Copying a matrix onto itself, which the source allows and which changes nothing, is therefore not covered.
- The reference accessors `value()`, `bvalue()`, `pvalue()` and `hvalue()` are the `const` fields `A`, `Ab`, `Ap` and `Ah`. The reference they return is modelled through `Mat.Put` and `Mat.At`.
- Mat.Set, Mat.Get, Mat.Copy: the source takes any indexable `mat` and touches only `mat(i, j)` for i < M and j < N. The model takes a `Mat` at least as large and states the effect on that top-left M×N block.
- A2DGemm.A2DMatMatMultExpr.HReverse is proved through its two halves. `HReverseOwnTerms` covers source lines 157-164, and `HReverseCrossTerms` covers lines 165-170.
- A2DGemm.A2DMatMatMultExpr.Reverse states C.b unchanged but not C's other buffers, which it cannot write either, by its `modifies` clause.
- GemmSpec.Tangent, GemmSpec.ReverseA/ReverseB and GemmSpec.HReverseA/HReverseB are specification functions without contracts of their own. What they mean is stated by ForwardIsDerivative, AdjointIdentity, ReverseLayout and HReverseIsDerivativeA/B.
- A2DMatrix.GetData: its contract states only that it returns a valid Mat. That it returns the primal is stated by GetDataIsPrimal.
- A2DMatrix.GetSeed: which of Ab, Ap and Ah each seed selects is stated by its body. Its contract states only shape, distinctness from the primal and, through GetSeedInjective, distinctness of the seeds.
