# Gated-DeltaNet on the HTP: a verified model

The repository computes the Gated-DeltaNet (GDN) layer in fixed 64-token chunks on a
Hexagon tensor processor. This project models the mathematics and the exact integer machinery
under it, and proves that the fast forms compute what the slow ones mean.

Five parts, each over a small library of finite sums and real matrices (`Sums`, `Matrices`, `MatrixBounds`, `Powers`):

1. **The chunk** (`GatedDelta`, `Normalisation`, `ChunkAlgebra`, `ChunkKernel`, `PrefillKernel`, `OnnxChunk`,
   `UncoveredTail`, `HeadScaling`). The meaning is the token recurrence
   `u_t = b_t (v_t - k_t (a_t S))`, `S' = a_t S + k_t^T u_t`, `o_t = q_t S'`, with `a_t = exp(g_t)`.
   The reference chunk (closed matrix form with an in-place solve), the prefill loop around it
   (zero padding, carried state) and the rewritten graph (cumsum as a product, masks before the
   exponential, transposed products, blocked solve, per-head scaling) are methods whose results
   are proved equal to that recurrence.
2. **The triangular inverse** (`Triangular`, `ForwardSubstitution`, `IterativeSolvers`,
   `Preconditioning`, `DivideAndConquer`, `Blocks`, `BlockSolvers`, `BlockedSolveT`, `Int16Solve`,
   `Int16Merge`, `Int16Range`, `Int16Limits`, `Int16Accuracy`).
   `(I - A)^-1` of a strictly lower `A` is the finite sum of its powers and is unique; every
   solver of the repository, in place or blocked, is a method that returns exactly that matrix,
   under exactly the condition that makes it do so. Any int16 run that does not clip has an error bound
   for its whole result, against the inverse of the dequantised `A` and of `A` itself; the largest
   entries for which no run clips, and for which none overflows its accumulator, are told exactly.
3. **Graph surgery** (`Graphs`, `Ancestry`, `ChunkNames`, `SolveInsertion`, `GraphSurgery`,
   `SurgeryMeaning`, `GraphTool`). A single-assignment graph with an evaluator; the script's
   worklist, leak check, replacement, re-insertion and input dropping as methods on a mutable
   graph; and the proof that the rewritten graph is well-formed and computes the same values.
4. **Interval sweeps** (`Intervals`). Sort-and-merge union, the running-end union and the
   two-pointer overlap, against "the number of integer cycles covered".
5. **Integer carriers** (`Bytes`, `Sidecar`, `Crouton`, `Deblock`, `Rounding`, `Quantizer`,
   `BlockScales`, `SigBits`, `Drain`). Byte-split weights and activations, the layouts that
   carry them, the quantisers and the power-of-two drain.

Where the code does less than it appears to, the model keeps the code and the exact condition
is proved:

- The blocked solvers return the inverse if and only if the block size divides the matrix size;
  the rows past the last full block stay zero (`BlockSolvers.CoveredIsInverseIff`).
- When the solve block does not divide the chunk length, the graph form computes the recurrence
  of the stream whose tokens past the last full block write nothing. Its rows in full blocks are
  always right; everything is right for all values and states if and only if those tokens have
  zero beta or zero key entries (`UncoveredTail.MutingUnseenIff`, with a pulse that is lost
  otherwise, `UncoveredTail.PulseLost`).
- A truncated Horner run of K steps, or a Taylor-Newton run of order p with K steps, is exact for
  every matrix of size n if and only if n is at most K + 1, or (p + 1) 2^K; the matrix with ones just
  below the diagonal fails otherwise (`IterativeSolvers.SeriesExactIff`). Of the five settings the
  probe tries on 64-row blocks two are exact (`IterativeSolvers.ProbeSettings`).
- Diagonal preconditioning is exact for every s (`Preconditioning.InverseConditioned`), but a factor
  above one is not enough to bound the iterates: they stay within one for every A with entries up to
  a, of every size, if and only if s is at least 1 + a (`Preconditioning.TameIff`).
- The int16 solver does not clip for any A with entries up to a if and only if one column of
  b codes, all of whose coefficients are a, stays in range (`Int16Limits.NeverClipsIff`), and its
  int32 accumulator fits for all of them if and only if that column's sum does
  (`Int16Limits.NeverOverflowsIff`). The two differ: with 16-row blocks and entries up to 1/8 nothing
  can clip and the accumulator can overflow (`Int16Limits.OverflowWithoutClipping`).
- An LPBQ expansion can wrap 16 bits, and a weight is restored if and only if its own does not; up to
  qmax 2047 none does (`BlockScales.ChannelRestored`), from 2048 on one can (`BlockScales.LargestWraps`).
- The surgery's leak check looks at consuming nodes only, so a graph output made inside the
  removed set passes it and is lost (`GraphTool.InnerOutputLost`); `SurgeryMeaning.OutputSurvivesIff`
  says from the original graph exactly which outputs survive; a graph input passed straight
  through is dropped unless it is an initializer, is A, or is read by a node that stays.
- When the head count cannot be inferred the script assumes 32; a split graph gives T its old
  value if and only if the head count used covers the real one (`GraphTool.ToolKeepsTIff`).
- The two-pass block simulation asserts that both weight halves have magnitude at most 127; over the
  weights it draws the assertion fails exactly on those congruent to 128 modulo 256, whose low half is
  -128 (`Bytes.WeightLoAssertion`).
- De-packing undoes packing for 64-row surfaces and for no other height
  (`Crouton.ReadsBackIff`).
- With the 11-bit narrowing on, a value can round one code past the int16 range and is clipped;
  `Drain.NarrowedDrain` and `Drain.NarrowedClipsNothingIff` say for exactly which entries of which
  tensors. Without the narrowing nothing saturates (`Drain.ExactDrain`).
- The affine scale restores a value of its range within half a step if and only if the value's
  sign has codes or the value is itself within half a step of zero, and clips under the matching
  condition (`Quantizer.RoundTripIff`, `Quantizer.UnclippedIff`).
- The comment on the quantiser writes `round(x / scale) - offset`; the code rounds
  `x / scale - offset`, and so does the model.

Conventions: entries of a matrix outside its bounds read as zero; matrices are values, and the
arrays the source overwrites are arrays here; round-to-nearest is ties-to-even on exact reals.

## Model

| member | source | states |
|---|---|---|
| Triangular.NeumannResidual | scripts/gdn_solve_taylor_probe.py:77-84 | I - A times the first n powers of A leaves residual A^n, from either side |
| Triangular.PowVanishes | scripts/gdn_solve_taylor_probe.py:86-87 | a matrix active only below the diagonal of its first n rows has A^k = 0 for every k >= n |
| Triangular.InverseBothSides | scripts/gdn_onnx_kernel.py:73-84 | the solve's target inverts I - A on the left and on the right |
| Triangular.SolveUnique | scripts/gdn_ref_kernel.py:87-89 | (I - A) X = B has one solution, the inverse applied to B: why U and W are products with T |
| Triangular.InverseUnique | scripts/gdn_ref_kernel.py:87 | any one-sided inverse of I - A is the inverse, so all solvers agree |
| Triangular.InverseLower | scripts/gdn_ref_kernel.py:84-87 | the inverse is unit lower triangular |
| Triangular.ResidualDecides | scripts/gdn_solve_taylor_newton_probe.py:38-46 | an approximate inverse is exact if and only if its residual is zero |
| ForwardSubstitution.ForwardSubstitute | scripts/gdn_ref_kernel.py:84-87 | overwriting the rows of the array in place turns A into its inverse less the identity, for every size |
| ForwardSubstitution.WrittenRow | scripts/gdn_ref_kernel.py:85-86 | when row k is written its coefficients are still A's and it reads only finished rows |
| ForwardSubstitution.SolvedStep | scripts/gdn_ref_kernel.py:85-86 | one row written extends R = A + A R by that row and disturbs no earlier one |
| ForwardSubstitution.SolvedIsInverse | scripts/gdn_ref_kernel.py:87 | a matrix obeying R = A + A R, plus I, is the inverse |
| IterativeSolvers.Horner | scripts/gdn_solve_taylor_probe.py:77-84 | K steps give I + A + ... + A^K; exact if and only if A^(K+1) = 0, in particular with size - 1 steps |
| IterativeSolvers.Squaring | scripts/gdn_solve_taylor_probe.py:86-96 | the product of I + A^(2^k) over 2^k below the size is the inverse |
| IterativeSolvers.DifferenceOfSquares | scripts/gdn_solve_taylor_probe.py:87 | (I - R)(I + R) = I - R^2 |
| IterativeSolvers.SquaringStep | scripts/gdn_solve_taylor_probe.py:92-95 | one more factor doubles the exponent of the residual |
| IterativeSolvers.NewtonStep | scripts/gdn_solve_taylor_newton_probe.py:43-44 | one Newton-Schulz step doubles the exponent of the residual |
| IterativeSolvers.ExponentClosed | scripts/gdn_solve_taylor_newton_probe.py:38-46 | the residual exponent after K steps from order p is (p+1) 2^K |
| IterativeSolvers.TaylorNewton | scripts/gdn_solve_taylor_newton_probe.py:38-46 | the unquantised run gives the first (p+1) 2^K powers, with residual A^((p+1) 2^K); exact if and only if that power vanishes, in particular when it reaches the size |
| IterativeSolvers.SeriesExactIff | scripts/gdn_solve_taylor_probe.py:77-84 | the first m powers are the inverse of every n x n matrix if and only if n is at most m, with a matrix that fails below that |
| IterativeSolvers.ProbeSettings | scripts/gdn_solve_taylor_newton_probe.py:54 | of the probe's settings on 64-row blocks exactly p = 3, K = 4 and p = 4, K = 4 are exact for every A |
| Preconditioning.InverseConditioned | scripts/gdn_solve_precond_probe.py:6-11 | the inverse of the conditioned system, conditioning undone, is the inverse, for every s |
| Preconditioning.SolvePreconditioned | scripts/gdn_solve_precond_probe.py:63-79 | conditioning, the unquantised Taylor-Newton run and undoing give exactly the plain run's result, the inverse when the setting reaches the size |
| Preconditioning.PowersTamed | scripts/gdn_solve_precond_probe.py:5-9 | from s = 1 + max abs A on, every power of the conditioned matrix has entries within one |
| Preconditioning.IteratesTamed | scripts/gdn_solve_precond_probe.py:47-56 | and so does every partial sum, hence every iterate of the unquantised run |
| Preconditioning.TameIff | scripts/gdn_solve_precond_probe.py:5-9 | 1 + a is the smallest s that keeps every iterate within one for all A of all sizes with entries within a |
| DivideAndConquer.Probe.TriInv | scripts/gdn_solve_divconq_probe.py:41-51 | the recursion returns the inverse for every size and base, and moves both counters by the recursion's cost |
| DivideAndConquer.MergeIsInverse | scripts/gdn_solve_divconq_probe.py:48-50 | two half inverses and -I22 L21 I11 assemble to the whole inverse |
| DivideAndConquer.SplitStep | scripts/gdn_solve_divconq_probe.py:45-50 | the halves of a unit lower matrix are unit lower and their inverses merge to its inverse |
| DivideAndConquer.CostOfPowers | scripts/gdn_solve_divconq_probe.py:6-8 | on base 2^d rows the depth is d and there are two matmuls per merge, 2(2^d - 1) in all |
| Blocks.BlockOfProduct | scripts/gdn_blockrec_c256_probe.py:7-11 | a block of a product is the sum of the block products |
| Blocks.BlockRecurrence | scripts/gdn_blockrec_c256_probe.py:7-9 | the blocks of the inverse obey T_ii = (I - A_ii)^-1 and T_ij = T_ii sum A_ik T_kj, so any order that respects it is right |
| BlockSolvers.InnerSum | scripts/gdn_solve_hybrid_probe.py:67-70 | the accumulated inner sum is the recurrence's sum, whenever the table holds the blocks it reads |
| BlockSolvers.AssembleTable | scripts/gdn_solve_hybrid_probe.py:73-74 | writing the lower triangle of blocks gives the matrix they are the blocks of, zero elsewhere |
| BlockSolvers.FillBands | scripts/gdn_blockrec_c256_probe.py:73-83 | filling by increasing distance finds every block it reads already stored, and stores the inverse's blocks |
| BlockSolvers.BlockRecursive | scripts/gdn_solve_hybrid_probe.py:53-75 | Horner on the diagonal and substitution by distance return the inverse if and only if the block size divides the matrix size |
| BlockSolvers.CoveredIsInverseIff | scripts/gdn_onnx_kernel.py:91-117 | what a blocked solver leaves is the inverse exactly when no row lies past the last full block |
| BlockedSolveT.InvBlock | scripts/gdn_onnx_kernel.py:103-108 | the padded tile's squaring product covers every power below the block size: it is the tile's inverse |
| BlockedSolveT.PaddedInverse | scripts/gdn_onnx_kernel.py:83-86 | the inverse of a padded tile carries the block's inverse in its corner |
| BlockedSolveT.LeadingMul | scripts/gdn_onnx_kernel.py:83-86 | products of padded tiles restrict to products of blocks: padding never reaches T |
| BlockedSolveT.TileSum | scripts/gdn_onnx_kernel.py:113-117 | the accumulator over padded tiles carries the recurrence's sum, its padding rows zero |
| BlockedSolveT.PlaceEntry | scripts/gdn_onnx_kernel.py:61-65 | sel_i^T B sel_j is B's block at block (i, j) and zero everywhere else |
| BlockedSolveT.AddPlaced | scripts/gdn_onnx_kernel.py:119-125 | adding a placed tile pastes its block and changes nothing else |
| BlockedSolveT.SolveTBlocked | scripts/gdn_onnx_kernel.py:73-126 | for every block size and padding the result is the inverse if and only if the block size divides the length |
| Int16Solve.SolveRow | scripts/gdn_solve_int16_model.py:35-41 | one row of codes is the rounded, clipped value of e_i + A T, and the peak covers its accumulators |
| Int16Solve.SolveDiagonal | scripts/gdn_solve_int16_model.py:34-42 | every row of a diagonal block is rounded once from the rows above; the reported peak is the largest accumulator seen |
| Int16Solve.RowError | scripts/gdn_solve_int16_model.py:35-41 | a row's error is its own rounding plus the errors above weighted by A |
| Int16Solve.ErrorBound | scripts/gdn_solve_int16_model.py:31-42 | while nothing clips, entry (i, c) is within 0.5 (1+a)^(i-c) output codes of the exact inverse of the dequantised block, and exactly zero above the diagonal |
| Int16Range.Dominated | scripts/gdn_solve_int16_model.py:35-41 | whether or not rows clip, every value and code is within that of the block with a everywhere below the diagonal |
| Int16Range.WorstAttained | scripts/gdn_solve_int16_model.py:35-41 | whose own values and accumulators are exactly those |
| Int16Range.CodeGrowth | scripts/gdn_solve_int16_model.py:35-41 | whether or not rows clip: zero above the diagonal, 2^14 on it, and k rows below it within 16383.5 a (1+a)^(k-1) + 0.5 (1+a)^k codes, half a code less before rounding |
| Int16Range.NoRowClips | scripts/gdn_solve_int16_model.py:35-41 | no row clips while that bound, at the last row, is below 2^15, a bounding the block's dequantised entries |
| Int16Limits.NeverClipsIff | scripts/gdn_solve_int16_model.py:25-42 | no run over any n x n A with entries within a clips if and only if the worst column's last code stays in range |
| Int16Limits.NeverOverflowsIff | scripts/gdn_solve_int16_model.py:36-39 | no such run's accumulator leaves 32 bits if and only if 32767 times the sum of the worst column's codes does not |
| Int16Limits.OverflowWithoutClipping | scripts/gdn_solve_int16_model.py:10-11 | for 16-row blocks and entries up to 1/8 the first condition holds and the second fails |
| Int16Limits.PeakFits | scripts/gdn_solve_int16_model.py:39 | the reported peak is below 2^31 when the second condition holds for max abs A, in particular while (1+a)^(b-1) is below 2 |
| Int16Merge.RebuiltClose | scripts/gdn_solve_int16_model.py:28-29 | quantising A never clips, moves no entry by more than half a step, and keeps it strictly lower and within its maximum |
| Int16Merge.DiagonalError | scripts/gdn_solve_int16_model.py:28-42 | for every diagonal block of a whole A that does not clip, zero error above the diagonal and at most 0.5 (1+a)^(r-c) output steps on and below it |
| Int16Merge.MergeClosedForm | scripts/gdn_solve_int16_model.py:43-51 | the merge adds no error of its own: T is the only solution of (I - D L) T = D for the stored diagonal D |
| Int16Merge.SolveInt16 | scripts/gdn_solve_int16_model.py:25-56 | the result is exactly the merge of the rounded diagonals over the dequantised A |
| Int16Accuracy.DiagonalWithinStep | scripts/gdn_solve_int16_model.py:28-42 | told from max abs A, nothing clips and every diagonal block is within 0.5 (1+a)^(b-1) output steps of the exact one; less than one step while (1+a)^(b-1) is below 2 |
| Int16Accuracy.MergeErrorIdentity | scripts/gdn_solve_int16_model.py:43-51 | the whole error is (I + X L) E (I + L T): the diagonal blocks' error, carried by the exact inverse on one side and the result on the other |
| Int16Accuracy.MergeErrorBound | scripts/gdn_solve_int16_model.py:43-51 | every entry of the whole error is within (1 + chi rho) b e (1 + rho t), from the row sums of A and of the exact inverse and the largest result |
| Int16Accuracy.SolveError | scripts/gdn_solve_int16_model.py:25-56 | for any run that does not clip, that bound with e = 0.5 (1+a)^(b-1) output steps, for the whole result against the exact inverse of the dequantised A |
| Int16Accuracy.InverseGap | scripts/gdn_solve_int16_model.py:28-29 | what quantising A does to its inverse: (I - Q)^-1 (Q - A) (I - A)^-1 |
| Int16Accuracy.TotalErrorBound | scripts/gdn_solve_int16_model.py:70-74 | the whole result of any run that does not clip against the exact inverse of A itself, which is what the script measures |
| Normalisation.KeyRow | scripts/gdn_ref_kernel.py:31-32 | a normalised key row keeps its direction and is its reciprocal norm times as long: products with the raw row and with itself are r and r^2 times the raw row's sum of squares |
| Normalisation.QueryRow | scripts/gdn_ref_kernel.py:71-72 | and a query row likewise, with qscale r in place of r |
| Normalisation.UnitRows | scripts/gdn_ref_kernel.py:31-32 | with r = 1 / sqrt(x + e) a key row has squared length 1 - e r^2 and a query row qscale^2 times that: unit length and qscale when e is zero |
| ChunkAlgebra.StateClosed | scripts/gdn_ref_kernel.py:97-100 | after t tokens the state is the decayed start plus every correction decayed since |
| ChunkAlgebra.DeltasSolve | scripts/gdn_ref_kernel.py:82-94 | the token corrections of the recurrence are the solution of the chunk's triangular system |
| ChunkAlgebra.OutputRow | scripts/gdn_ref_kernel.py:92-96 | an output of the recurrence is the decayed read of the incoming state plus the causal sum over corrections |
| ChunkAlgebra.FinalEntry | scripts/gdn_ref_kernel.py:97-100 | the recurrence's final state in terms of the incoming state and the corrections |
| ChunkKernel.IntraFromProduct | scripts/gdn_ref_kernel.py:79-83 | the decayed, masked product is the strictly lower coefficient matrix of the system |
| ChunkKernel.CorrectionsFromSolve | scripts/gdn_ref_kernel.py:88-94 | row t of U - W S_in is the recurrence's u_t |
| ChunkKernel.OutputsFromProducts | scripts/gdn_ref_kernel.py:92-96 | the two products add up to the recurrence's outputs |
| ChunkKernel.StateFromProducts | scripts/gdn_ref_kernel.py:97-100 | the decayed start plus the last product is the recurrence's final state |
| ChunkKernel.GdnChunk | scripts/gdn_ref_kernel.py:56-101 | one chunk of any length returns the token recurrence's outputs and state |
| PrefillKernel.StateShift | scripts/gdn_ref_kernel.py:125-129 | tokens run from where a stream stands reach the state the stream reaches |
| PrefillKernel.OutputShift | scripts/gdn_ref_kernel.py:125-129 | and produce the stream's own outputs there |
| PrefillKernel.ChunkOfStream | scripts/gdn_ref_kernel.py:125-129 | a slice of the stream, started from the carried state, yields the stream's rows and hands on its state |
| PrefillKernel.PaddingKeepsState | scripts/gdn_ref_kernel.py:115-119 | zero tokens leave the state alone |
| PrefillKernel.PaddingNeutral | scripts/gdn_ref_kernel.py:115-119 | the padded stream has the stream's outputs and final state |
| PrefillKernel.GdnKernel | scripts/gdn_ref_kernel.py:105-130 | for every length and chunk size the result is the token recurrence over the unpadded stream, so neither chunking nor padding can be seen |
| OnnxChunk.CumsumIsProduct | scripts/gdn_onnx_kernel.py:68-70 | multiplying by the triangle of ones is the prefix sum |
| OnnxChunk.MaskedDecaySame | scripts/gdn_onnx_kernel.py:154-155 | masking before and after the exponential gives the reference decay |
| OnnxChunk.MaskByProduct | scripts/gdn_onnx_kernel.py:156 | multiplying by a 0/1 triangle is masking |
| UncoveredTail.LeadingSolves | scripts/gdn_onnx_kernel.py:91-126 | applying what the blocked solve leaves to a right side solves the system with the uncovered rows cleared |
| UncoveredTail.CoveredCorrections | scripts/gdn_onnx_kernel.py:158-177 | for every block size the graph's corrections are those of the stream whose tokens past the last full block write nothing |
| UncoveredTail.PulseLost | scripts/gdn_onnx_kernel.py:91-126 | a value at an uncovered token that writes is missing from the final state |
| UncoveredTail.MutingUnseenIff | scripts/gdn_onnx_kernel.py:91-187 | for all values and states the uncovered tokens make no difference if and only if none of them writes |
| OnnxChunk.GdnChunkOnnx | scripts/gdn_onnx_kernel.py:129-187 | for every block size the graph form returns the token recurrence of the stream muted past the last full block; its rows in full blocks are the stream's own, and everything is when the block divides the length |
| HeadScaling.StateLinear | scripts/gdn_onnx_kernel.py:249-251 | the state after any number of tokens is linear in (v, S) |
| HeadScaling.ChunkLinear | scripts/gdn_onnx_kernel.py:249-251 | outputs and final state are linear in (v, S) |
| HeadScaling.ChunkScales | scripts/gdn_onnx_kernel.py:249-256 | scaling v and S by one number scales both results by it |
| HeadScaling.PerHeadVscale | scripts/gdn_onnx_kernel.py:219-229 | the scale is positive, with a reciprocal of at least 1e-6; it brings v and S within one, and above the floor attains one |
| HeadScaling.Forward | scripts/gdn_onnx_kernel.py:244-256 | for every block size the scales cancel: reciprocal scales give the unscaled chunk's results |
| Graphs.RunSatisfies | scripts/gdn_insert_solve_op.py:25-27 | running a single-assignment, ordered graph satisfies every node's equation |
| Graphs.RunUnique | scripts/gdn_insert_solve_op.py:25-27 | and those equations have no other solution |
| Ancestry.Ancestors | scripts/gdn_insert_solve_op.py:29-41 | the worklist ends on any graph, cyclic ones included, with exactly the producers backward-reachable from the start |
| GraphTool.FindLeaks | scripts/gdn_insert_solve_op.py:48-60 | finds exactly the outside consumers of tensors made inside, T excepted, one entry for every such read |
| ChunkNames.NamesDiffer | scripts/gdn_insert_solve_op.py:86-94 | the names the split introduces differ for every kind and index |
| ChunkNames.NamesSpelled | scripts/gdn_insert_solve_op.py:86-94 | they are the script's own words, each followed by its index in decimal without leading zeros |
| SolveInsertion.NewNodesWellFormed | scripts/gdn_insert_solve_op.py:69-96 | the replacement is ordered and single-assignment wherever A and the constants are available |
| SolveInsertion.KeptWellFormed | scripts/gdn_insert_solve_op.py:69 | dropping the removed nodes keeps the list ordered |
| SolveInsertion.SplicedWellFormed | scripts/gdn_insert_solve_op.py:98-104 | re-inserting right behind A's producer keeps the list ordered |
| GraphTool.Graph.BuildNew | scripts/gdn_insert_solve_op.py:70-96 | builds one solve, or the slices, solves and concatenation, and registers their constants |
| GraphTool.Graph.Reinsert | scripts/gdn_insert_solve_op.py:98-105 | the new nodes land right behind A's first producer, or in front when nothing produces A |
| GraphTool.Graph.InsertSolve | scripts/gdn_insert_solve_op.py:43-123 | refuses on exactly the leaks or an uneven split, leaving the graph alone; otherwise leaves the rewritten nodes, the constants, and of the graph inputs those still read, each as often and in the order it was |
| GraphSurgery.BoundaryOrder | scripts/gdn_insert_solve_op.py:43-46 | T's producer is removed, A's producer is kept and comes before it |
| GraphSurgery.SurgeryClean | scripts/gdn_insert_solve_op.py:48-65 | kept nodes read nothing the rewrite hides and make no name it adds |
| GraphSurgery.RewriteWellFormed | scripts/gdn_insert_solve_op.py:98-123 | the new list is topologically ordered from the kept sources, so nothing reads a dropped input |
| GraphSurgery.OldNamesUsed | scripts/gdn_insert_solve_op.py:119-121 | of the old names the rewritten graph reads A and what the nodes that stay read, and nothing else |
| GraphTool.SourcesAfter | scripts/gdn_insert_solve_op.py:119-123 | the inputs and initializers left are the kept sources and the constants |
| SurgeryMeaning.SplitIsWholeIff | scripts/gdn_insert_solve_op.py:75-96 | slicing, solving and concatenating is the whole solve if and only if the chunks reach every head |
| SurgeryMeaning.SplitRunsTo | scripts/gdn_insert_solve_op.py:86-104 | in the rewritten graph T runs to the concatenation of the solved chunks of A's old value, whatever the head count used |
| SurgeryMeaning.SplitKeepsTIff | scripts/gdn_insert_solve_op.py:75-104 | and so keeps its value if and only if the chunks reach every head |
| SurgeryMeaning.NewNodesHold | scripts/gdn_insert_solve_op.py:70-96 | the replacement's equations hold of the old values when T held the per-head solve of A |
| SurgeryMeaning.SurgeryPreserves | scripts/gdn_insert_solve_op.py:43-123 | every tensor the rewritten graph still has runs to its old value |
| SurgeryMeaning.WhatSurvives | scripts/gdn_insert_solve_op.py:45-46 | the rewritten nodes still make a tensor if and only if it is T or no removed node made it |
| SurgeryMeaning.OutputSurvivesIff | scripts/gdn_insert_solve_op.py:48-60 | told from the old graph, exactly which graph outputs are still computed or fed |
| GraphTool.ToolPreserves | scripts/gdn_insert_solve_op.py:43-123 | fed as before, the graph the tool leaves is well-formed and gives every remaining tensor, T among them, its old value |
| GraphTool.ToolKeepsTIff | scripts/gdn_insert_solve_op.py:75-123 | after a split by the tool, T keeps its value if and only if the head count used covers A's real one |
| GraphTool.InnerOutputLost | scripts/gdn_insert_solve_op.py:48-60 | a graph output inside the removed set passes the checks and is lost |
| Intervals.SortedPermutes | scripts/gdn_timeline.py:38 | sorting permutes the intervals, by start and then by end |
| Intervals.Union | scripts/gdn_timeline.py:37-42 | for any intervals, reversed and empty ones included, the union covers the same cycles, every interval ends before the next starts, every input lies within one output, and outputs start and end where inputs do; sorted, disjoint and non-touching when none is reversed |
| Intervals.TotalCounts | scripts/gdn_timeline.py:43 | the total of a union is the number of cycles covered |
| Intervals.OverlapCounts | scripts/gdn_overlap_from_trace.py:84 | the pairwise min/max sum is the number of cycles in both |
| Intervals.Ov | scripts/gdn_timeline.py:44-50 | the two-pointer overlap is the pairwise sum and the number of shared cycles |
| Intervals.UnionLength | scripts/htp_timeline.py:75-84 | the running-end total is the number of cycles covered, empty and reversed intervals included in the input |
| Bytes.RebuiltIff | scripts/generate_w16a16_weight_sidecar.py:41-46 | the two signed bytes rebuild an int16 code if and only if it is at most 32639 |
| Bytes.LargestClip | scripts/generate_w16a16_weight_sidecar.py:41-47 | 32639 is the largest upper clip under which nothing is lost |
| Bytes.SplitExact | scripts/gdn_solve_bp2_oracle.py:59-61 | the recentred halves rebuild the code, both signed bytes exactly on the int16 range |
| Bytes.ActivationPasses | scripts/gdn_solve_bp2_oracle.py:82-89 | two byte passes and the column sum make the 16-bit product exactly, for every length |
| Bytes.WeightSplitExact | scripts/gdn_convhbh_i16_block_sim.py:168-171 | the rounded weight split is exact; the high half is a signed byte exactly up to 32639 |
| Bytes.WeightLoAssertion | scripts/gdn_convhbh_i16_block_sim.py:166-170 | the asserted bound on both halves holds exactly for weights within 32639 not congruent to 128 modulo 256; over the drawn range the residue alone decides |
| Bytes.WeightPasses | scripts/gdn_convhbh_i16_block_sim.py:181-187 | two weight passes make the 16-bit product exactly |
| Bytes.EffectiveRecentres | scripts/gdn_hmx_matmul_sim.py:162-169 | the folded bias undoes the activation zero point |
| Sidecar.CellOfInRange | scripts/generate_w16a16_weight_sidecar.py:50-72 | every byte position belongs to one half of one weight, and to no other position |
| Sidecar.PosOfInRange | scripts/generate_w16a16_weight_sidecar.py:50-72 | every half of every weight has a byte position, which names it back |
| Sidecar.GroupVals | scripts/generate_w16a16_weight_sidecar.py:57-66 | the lane loops gather a 4 x 16 patch, column by column |
| Sidecar.PackVals | scripts/generate_w16a16_weight_sidecar.py:67-72 | eight codes at a time, four low bytes then four high bytes |
| Sidecar.GenerateSidecar | scripts/generate_w16a16_weight_sidecar.py:38-73 | refuses other shapes; otherwise writes 2 K N bytes, each where the layout says, a partial last 128-column group included, and the two bytes of every weight rebuild 32767 times it, rounded half to even and clipped to -32768 .. 32639 |
| Sidecar.SidecarLossless | scripts/generate_w16a16_weight_sidecar.py:41-73 | both bytes of every weight are present and rebuild its code: 32767 times the weight, rounded half to even and clipped |
| Crouton.PackPosInRange | scripts/gdn_hmx_matmul_sim.py:73-87 | every cell has one byte in the packed surface |
| Crouton.PackCellInRange | scripts/gdn_hmx_matmul_sim.py:73-87 | every byte of the surface holds one cell, for every height |
| Crouton.PackActCrouton8 | scripts/gdn_hmx_matmul_sim.py:58-87 | the cursor loops write every byte, each from its cell |
| Crouton.DepackOutput | scripts/gdn_hmx_matmul_sim.py:361-374 | every output cell is the surface byte of the closed form |
| Crouton.LayoutsAgreeIff | scripts/gdn_hmx_matmul_sim.py:358-374 | the two layouts agree exactly for 64-row surfaces |
| Crouton.DepackUndoesPack | scripts/gdn_hmx_matmul_sim.py:361-374 | de-packing a packed 64-row surface of any width gives every cell back |
| Crouton.ReadsBackIff | scripts/gdn_hmx_matmul_sim.py:358-374 | every packed activation is read back whole if and only if the surface has 64 rows |
| Deblock.SlotInRange | scripts/gdn_merge_layout_directpipe_probe.py:31-46 | every destination cell reads one slot, and the slot names the cell: no slot is read twice |
| Deblock.CellInRange | scripts/gdn_merge_layout_directpipe_probe.py:31-46 | every slot is the slot of some cell: none is skipped |
| Deblock.DeblockHarness | scripts/gdn_merge_layout_directpipe_probe.py:26-47 | the loops fill every cell from its slot, each once |
| Quantizer.AffineScaleLeast | scripts/generate_qnn_matmul_python_cases.py:174-182 | the scale is the smallest, EPS at least, that puts both ends of the range within the codes of their side, where there are any |
| Quantizer.QuantizeNearest | scripts/generate_qnn_matmul_python_cases.py:203-218 | between the end codes a value takes the code nearest x / s + zp, the even one of two equally near |
| Quantizer.Saturates | scripts/generate_qnn_matmul_python_cases.py:203-218 | values beyond the last code of either side take that code |
| Quantizer.AffineRoundTrip | scripts/generate_qnn_matmul_python_cases.py:174-222 | no value of the observed range clips when its sign has codes, and the round trip errs by at most half a step |
| Quantizer.UnrepresentableSign | scripts/generate_qnn_matmul_python_cases.py:178-182 | a value whose sign has no codes collapses to the zero point |
| Quantizer.RoundTripIff | scripts/generate_qnn_matmul_python_cases.py:174-222 | exactly when a value of the range is restored within half a step: its sign has codes, or it is within half a step of zero |
| Quantizer.UnclippedIff | scripts/generate_qnn_matmul_python_cases.py:174-218 | exactly when a value of the range is not clipped, the tie at half a step decided by the zero point's parity |
| BlockScales.ScaleLeast | scripts/generate_qnn_matmul_python_cases.py:185-186 | the symmetric scale is the smallest under which every value, and EPS, is at most qmax steps |
| BlockScales.SymmetricRoundTrip | scripts/generate_qnn_matmul_python_cases.py:303-307 | a symmetric scale clips nothing it was taken from and restores within half a step |
| BlockScales.FactorFits | scripts/generate_qnn_matmul_python_cases.py:195-199 | the upper clip of the block factor never acts |
| BlockScales.FactorTight | scripts/generate_qnn_matmul_python_cases.py:198-199 | the factor is in 1..16, covers the block's scale to within 10^-9 of the base, and one less would not |
| BlockScales.Factorize | scripts/generate_qnn_matmul_python_cases.py:189-200 | the smallest base that is at least some scale and 1/16 of every scale, each floored at EPS, and one such factor per block |
| BlockScales.CodeFits | scripts/generate_qnn_matmul_python_cases.py:351-357 | no weight clips against its effective scale, and its code restores it within half of it |
| BlockScales.QuantizeChannel | scripts/generate_qnn_matmul_python_cases.py:332-361 | every weight of a channel is coded without clipping, expanded by its block's factor in 16 bits, and restored within half its effective scale if and only if the expansion does not wrap |
| BlockScales.QuantizeWeight | scripts/generate_qnn_matmul_python_cases.py:320-361 | refuses exactly the widths the script refuses; otherwise every channel is coded this way |
| BlockScales.ChannelRestored | scripts/generate_qnn_matmul_python_cases.py:351-361 | up to qmax 2047 no expansion wraps and every weight of a channel is restored |
| BlockScales.LargestWraps | scripts/generate_qnn_matmul_python_cases.py:359-361 | from qmax 2048 on the larger of two weights 16 apart wraps and is not restored |
| BlockScales.ExpandedFitsByteIff | scripts/generate_qnn_matmul_python_cases.py:359-360 | expanded codes fit a signed byte if and only if qmax is at most 7, the four-bit case, where they stay within 112 |
| SigBits.RoundSigBitsProperties | scripts/gdn_solve_fused_drain_probe.py:39-50 | odd, monotone, idempotent, exact up to 2^11 and within relative error 2^-11 |
| SigBits.RoundSigBitsNearest | scripts/gdn_solve_fused_drain_probe.py:39-50 | the magnitude is the nearest multiple of the unit of its 11th significant bit, halves up |
| Drain.KShiftFills | scripts/gdn_solve_fused_drain_probe.py:60 | the shift puts the largest magnitude in the upper half of the int16 range and not beyond it |
| Drain.ExactDrain | scripts/gdn_solve_fused_drain_probe.py:53-65 | in exact mode nothing saturates, every code is the entry times the gain with halves rounded up, and undoing the shift errs by at most half a code |
| Drain.DrainGain | scripts/gdn_solve_fused_drain_probe.py:53-65 | the returned gain is 2^kshift for the returned shift, which puts the largest magnitude in the upper half of the range; 0 for an all-zero tensor |
| Drain.ShiftUnique | scripts/gdn_solve_fused_drain_probe.py:60 | no other shift puts it there |
| Drain.DrainFills | scripts/gdn_solve_fused_drain_probe.py:53-65 | narrowed or not, a tensor that is not all zero has a code of magnitude at least 16384 |
| Drain.NarrowedOvershootIff | scripts/gdn_solve_fused_drain_probe.py:57-63 | after narrowing an entry leaves the range exactly when it is positive, within half a unit of the 11th bit below the power of two above the maximum, and the shift put that power on 32768 |
| Drain.NarrowedDrain | scripts/gdn_solve_fused_drain_probe.py:53-65 | the code of every entry: 32767 for those, which were narrowed to exactly 2^15 codes, and the narrowed entry times the gain with halves rounded up for all others |
| Drain.NarrowedNear | scripts/gdn_solve_fused_drain_probe.py:53-65 | undoing the narrowed drain errs by at most half a code plus one part in 2048 of the value, a whole code for those that are clipped |
| Drain.NarrowedClipsNothingIff | scripts/gdn_solve_fused_drain_probe.py:61-64 | no code of a tensor is clipped if and only if no entry is such |
| Drain.NarrowingClips | scripts/gdn_solve_fused_drain_probe.py:61-64 | one such tensor: 32767 narrows to 32768 and is clipped |

## Left out

- Batch and head dimensions: one head of one batch item is modelled; the code treats them independently.
- exp, the reciprocal row norm and 1/sqrt(Dk) are parameters (exp with its functional equation). The two kernels use slightly different eps conventions in the norm; the model gives both the same norm.
- IEEE and bf16 rounding, and float32 storage of scales and group scales: arithmetic is on exact reals, and floor(log2) is the integer logarithm.
- The mm hook of the reference chunk and every quantised matmul site: the products are exact.
- Quantised Taylor, Newton, Horner, squaring and divide-and-conquer runs, and the u8i8 merges of the 256-row probe: the scripts measure them and promise no bound.
- DivideAndConquer.Probe.TriInv: the base case is the inverse itself, as the script calls a library inverse there.
- IterativeSolvers.TaylorNewton: the running peak of |X| that the probe also returns is not modelled.
- BlockSolvers.BlockRecursive: the matmul counter of the hybrid probe is not modelled; the 256-row probe's order is the same with its diagonal solves and merges taken exactly.
- Int16Limits.NeverClipsIff: the condition is on the largest entry; which blocks beyond it clip depends on every entry and is what the run reports.
- Preconditioning.SolvePreconditioned: the search over s and the quantised conditioned run are not modelled.
- OnnxChunk.GdnChunkOnnx: a solve block larger than the chunk is excluded, as the code then has no block to assemble and fails.
- HeadScaling.Forward: the scales are arguments, as they are graph inputs in the code; the guarantee needs them to be reciprocal, which HeadScaling.PerHeadVscale provides.
- SurgeryMeaning.SurgeryPreserves: that no existing tensor already has one of the names the split introduces, and that A is a strict ancestor of T or a source, are assumptions; the script does not check them.
- GraphTool.Graph.InsertSolve: A's head count is a parameter (shape inference, or the script's fallback of 32); the JSON override patch, the opset registration, argument parsing and file writing are not modelled.
- Intervals.UnionLength: timestamps are integers.
- Crouton.DepackOutput: the surface must be long enough for every byte read, where the code would raise an index error.
- BlockScales.QuantizeChannel: qmax up to 32767, the widest code type the script has; the families use 7.
- The bias and activation-record generators (including generate_bias_sidecar): they rest on helpers that are not part of this model, and their own loops only add field copies.
- fused-solve drivers, imatmul wrappers, simulators, device and ONNX I/O, SVG and ASCII rendering, tables, manifests and audit scripts.
