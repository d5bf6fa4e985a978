# ep-stan bookkeeping, modelled in Dafny

ep-stan runs distributed expectation propagation with Stan. Its numerical
core uses floating-point LAPACK calls. This project models the integer,
index and string bookkeeping around that core:

- **Observation layout** of the simulated models m4b and m2 (`GroupLayout`).
  The group sizes `Nj` are a constant or drawn from an inclusive range. The
  group limits `j_lim` are the prefix sums of `Nj`. The group labels
  `j_ind` are filled one segment per group.
- **m4b** (`M4b.Model`, a class with the constants `J`, `D`, `npg` and
  `dphi = 2D + 2`):
  - the block layout of the shared-parameter vector phi (`Slot`);
  - `phi_true`;
  - the diagonal prior and its natural parameters (`Matrices`);
  - the parameter definitions;
  - the in-place beta-regulation loop that redraws entries of each row of
    beta until the row's absolute sum reaches `B_ABS_MIN_SUM`.
- **m2** (`M2`): the same layout, phi of length 2, the prior and the
  parameter definitions.
- **`load_stan`** (`StanCache`): strips the extension, derives the model
  name and decides whether to load a pickle, compile and save, or raise
  IOError. Existing files are a set of paths.
- **`get_last_sample`** (`LastSample`, with `FortranOrder` and `Text`):
  builds or reuses one dict of arrays per chain and fills each array with
  the last draw of each trace.
  - Trace names are `p`, `p[d]` or `p[i,j,...]`.
  - Multi-axis parameters are visited in Fortran order, the way
    `np.nditer` steps its multi-index.
  - A PyStan fit is its chain count, parameter names and shapes, and one
    map per chain from trace name to trace.
- **The output-placement prologue of `invert_normal_params`**
  (`NormalParams`): each output is the input itself (`'in_place'`), a
  fresh copy (None) or a caller's buffer.

Random draws are inputs. A group-count draw is a function `nat -> nat`.
The regulation's index and normal draws are functions of (row, attempt).
Values that numpy computes in floating point are Dafny `real`s.

## Model

| member | source | states |
|---|---|---|
| GroupLayout.GroupCounts | experiment/models/m4b.py:128-131 | A range `npg` fails exactly when lo > hi, as `randint` raises. Otherwise there are J counts, each in [lo, hi] for a range and equal to the constant otherwise. |
| GroupLayout.SumBounds | experiment/models/m4b.py:133 | Every group count is at most N = sum(Nj), and N is 0 exactly when every group is empty. |
| GroupLayout.Limits | experiment/models/m4b.py:133-135 | `j_lim` has J+1 entries, starts at 0 and ends at N = sum(Nj). |
| GroupLayout.LimitsStep | experiment/models/m4b.py:135 | Consecutive limits differ by the group's count: `j_lim[j+1] = j_lim[j] + Nj[j]`. |
| GroupLayout.LimitsMonotone | experiment/models/m4b.py:135 | `j_lim` never decreases. |
| GroupLayout.SegmentUnique | experiment/models/m4b.py:137-139 | An observation lies in the segment of at most one group. |
| GroupLayout.LabellingIff | experiment/models/m4b.py:137-139 | Under the labelling, `j_ind[n] == j` exactly when `j_lim[j] <= n < j_lim[j+1]`. |
| GroupLayout.LabelsSorted | experiment/models/m4b.py:137-139 | Labels lie in [0, J) and never decrease along the observations. |
| GroupLayout.Labels | experiment/models/m4b.py:137-139 | The reference labelling (Nj[0] zeros, then Nj[1] ones, ...) has N = sum(Nj) entries, each a group index below J. |
| GroupLayout.LabelsAreLabelling | experiment/models/m4b.py:137-139 | The reference labels (Nj[0] zeros, then Nj[1] ones, ...) satisfy the segment characterisation. |
| GroupLayout.LabellingUnique | experiment/models/m4b.py:137-139 | Two labellings of the same limits are equal, so the characterisation determines `j_ind`. |
| GroupLayout.LabelsCount | experiment/models/m4b.py:137-139 | Group j carries exactly Nj[j] observations. |
| GroupLayout.LabelsBelow | experiment/models/m4b.py:137-139 | No observation carries a label of J or more. |
| GroupLayout.LabelGroups | experiment/models/m4b.py:137-139 | The segment-filling loop gives an array of N labels in which every observation of segment j is labelled j. The array equals the reference labels. |
| GroupLayout.FillSegment | experiment/models/m4b.py:139 | The slice assignment `j_ind[j_lim[j]:j_lim[j+1]] = j` sets exactly that segment to j and leaves every other entry as it was. |
| GroupLayout.SegmentsAreLabels | experiment/models/m4b.py:137-139 | An array meeting the segment characterisation holds j throughout segment j and equals the reference labels. |
| M4b.SlotIndex | experiment/models/m4b.py:165-169 | Every slot of phi maps to an index below 2D+2. |
| M4b.SlotAt | experiment/models/m4b.py:165-169 | Every index below 2D+2 holds a valid slot whose index is that index. |
| M4b.SlotRoundTrip | experiment/models/m4b.py:165-169 | The slot-to-index map is injective, so the four blocks do not overlap. |
| M4b.RowSumUpdate | experiment/models/m4b.py:157-163 | For `M4b.RowSum`, the reference `np.sum` of a row: replacing one entry moves the sum by the difference, so the running `beta_sum -= old; beta_sum += new` stays equal to the row's sum. |
| M4b.RegulateRowLength | experiment/models/m4b.py:156-163 | `M4b.RegulateRow` is the reference for the regulation of one row: redrawing entries until the absolute sum reaches the threshold. Regulating a row keeps its length. |
| M4b.RegulateRowStatus | experiment/models/m4b.py:158 | `M4b.RegulateRow` ends a row regulated exactly when the absolute `RowSum` of the resulting row is at least the threshold, the exit condition of the while loop. |
| M4b.RegulateRowEntries | experiment/models/m4b.py:160-162 | Each entry of the row `M4b.RegulateRow` returns is the original entry or `M4b.Redrawn` for that index, `mu_b[index] + z*sigma_b[index]` with the standard-normal draw z of one of the attempts. |
| M4b.RegulateRowUntouched | experiment/models/m4b.py:157-161 | A row whose absolute sum already reaches the threshold comes out unchanged and regulated, as the while loop never runs. A row can end without an index to draw only when D = 0, where `randint(D)` raises. |
| M4b.Model.constructor | experiment/models/m4b.py:91-95 | Stores J, D and npg; `dphi = 2D + 2`. |
| M4b.Model.SimulateLayout | experiment/models/m4b.py:127-139 | Fails exactly on an empty count range. Otherwise it returns counts, limits and labels that form a layout of J groups under `npg`. |
| M4b.Model.PhiTrue | experiment/models/m4b.py:165-169 | phi has length dphi, with mu_a at index 0, log sigma_a at index 1, mu_b[d] at 2+d and log sigma_b[d] at 2+D+d. |
| M4b.Model.FillBlocks | experiment/models/m4b.py:210-220 | The vector has length dphi, and each index holds the value of its block. |
| M4b.Model.GetPrior | experiment/models/m4b.py:201-224 | For non-zero variances: S0 and Q0 are dphi x dphi and diagonal. S0's diagonal (non-zero, and positive for positive variances) and m0 hold the configured variance and mean of each slot. Q0 * S0 = I and r0[i] * S0[i][i] = m0[i]. |
| M4b.Model.GetParamDefinitions | experiment/models/m4b.py:242-245 | Names (alpha, beta), shapes ((J,), (J, D)) and hierarchy indices (0, 0). |
| M4b.Model.RegulateBeta | experiment/models/m4b.py:155-163 | Each row of beta becomes what the regulation loop makes of it. If a row stops without reaching the threshold, its index and reason are returned and later rows are untouched. |
| M4b.Model.RegulateOneRow | experiment/models/m4b.py:157-163 | The in-place loop keeps `beta_sum` equal to the row's sum. It redraws only row j, and the row ends as the regulation loop says. |
| Matrices.Diag | experiment/models/m4b.py:215 | `np.diag(v)` is square and diagonal, with v on its diagonal. |
| Matrices.DiagOf | experiment/models/m4b.py:222 | `np.diag(S)` has S's diagonal entries. |
| Matrices.Transpose | experiment/models/m4b.py:215 | `.T` swaps indices. |
| Matrices.TransposeDiagonal | experiment/models/m4b.py:215 | Transposing a diagonal matrix changes nothing, so `.T` only affects memory order. |
| Matrices.DiagRoundTrip | experiment/models/m4b.py:222 | `np.diag(np.diag(v)) == v`. |
| Matrices.DiagInverse | experiment/models/m4b.py:222 | Diagonal matrices whose diagonals multiply to one multiply to the identity. |
| Matrices.Reciprocals | experiment/models/m4b.py:222 | Each entry of `1/v` times the matching entry of v is 1. |
| Matrices.Quotients | experiment/models/m4b.py:223 | Each entry of `m/v` times the matching entry of v is the entry of m. |
| Matrices.DiagonalNatural | experiment/models/m4b.py:215-223 | For non-zero variances v, S = diag(v).T is diag(v), and Q = diag(1/diag(S)).T is its inverse. |
| Matrices.NaturalFromMoments | experiment/models/m4b.py:215-223 | The natural parameters computed as numpy does satisfy Q0 * S0 = I and r0 * diag(S0) = m0. |
| M2.SimulateData | experiment/models/m2.py:98-123 | Fails exactly on an empty count range. Otherwise it returns a layout of J groups and phi = (log sigma_a, log sigma_b), with dphi = 2. |
| M2.GetPrior | experiment/models/m2.py:134-145 | Fails with ZeroDivisionError exactly when a variance is zero. Otherwise S0 = diag(V0_A, V0_B) and m0 = (M0_A, M0_B), Q0 is diagonal with Q0 * S0 = I, and r0[i] * S0[i][i] = m0[i]. |
| M2.GetParamDefinitions | experiment/models/m2.py:164-167 | Names (alpha, beta), shapes ((J,), (D,)) and hierarchy indices (0, None). |
| StanCache.StripExtension | dep/util.py:211-214 | A ".pkl" ending is removed first. Otherwise a ".stan" ending is removed. Otherwise the name is unchanged. |
| Text.EndsWith | dep/util.py:211-213 | `str.endswith(suffix)` holds exactly when the suffix fits and the string is some prefix followed by the suffix. |
| Text.EndsWithAppend | dep/util.py:211-213 | Any string followed by a suffix ends with that suffix. |
| StanCache.StripExtensionRoundTrip | dep/util.py:211-214 | Appending either ending and then stripping gives the name back. |
| StanCache.ModelName | dep/util.py:227-232 | The result is the part after the last '/' if there is one, else after the last '\\' if there is one, else the whole name. It is a suffix, free of the separator and preceded by it. |
| StanCache.LoadStan | dep/util.py:211-239 | Loads the pickle iff not `overwrite` and "<base>.pkl" exists. Otherwise compiles "<base>.stan" under the model name and saves "<base>.pkl" iff the source exists. Otherwise reports "File <base>.stan or <base>.pkl not found". |
| StanCache.SpellingsAgree | dep/util.py:199-214 | For a base name m that ends in neither ".pkl" nor ".stan", "m", "m.stan" and "m.pkl" lead to the same action. |
| StanCache.CompileThenLoad | dep/util.py:216-235 | After a compile-and-save, the next call without `overwrite` loads the saved pickle. |
| Text.Split | dep/util.py:228 | `str.split(sep)` returns at least one piece. |
| Text.SplitPiecesFree | dep/util.py:228 | No piece of a split contains the separator. |
| Text.JoinSplit | dep/util.py:228 | Joining the pieces of a split with the separator gives the string back. |
| Text.SplitJoin | dep/util.py:184-189 | Splitting a join of separator-free pieces gives the pieces back, so a comma-joined index list can be read back. |
| Text.JoinEnds | dep/util.py:184-189 | `Text.Join`, the reference for `sep.join` and for the `,{}` template: a join begins with the first piece and ends with the last, as the separator goes only between pieces. |
| Text.LastPiece | dep/util.py:228-230 | `split(sep)[-1]` is a separator-free suffix, preceded by the separator when there is one, and the whole string otherwise. |
| Text.Decimal | dep/util.py:181 | `'{}'.format(d)` is a nonempty string of digits without a leading zero, one digit long exactly when d < 10. |
| Text.DecimalRoundTrip | dep/util.py:181 | Parsing the decimal text of d gives d. |
| Text.DecimalInjective | dep/util.py:181 | Different numbers have different decimal texts. |
| FortranOrder.Flatten | dep/util.py:167 | An in-bounds multi-index has a flat Fortran-order position below the element count. |
| FortranOrder.Unflatten | dep/util.py:185-186 | Every position below the element count has an in-bounds multi-index. |
| FortranOrder.FlattenUnflatten | dep/util.py:185-190 | Position to multi-index to position is the identity. |
| FortranOrder.UnflattenFlatten | dep/util.py:185-190 | Multi-index to position to multi-index is the identity. |
| FortranOrder.Next | dep/util.py:190 | `iternext` steps the first index, carrying into the next one; the index keeps its length. |
| FortranOrder.NextUnflatten | dep/util.py:185-190 | Stepping from the multi-index of position f gives that of f+1, so the order is Fortran order. |
| FortranOrder.UnflattenZero | dep/util.py:185-187 | Iteration starts at the all-zero multi-index, position 0. |
| FortranOrder.VisitedOnce | dep/util.py:185-190 | Every multi-index of the shape is visited at exactly one position. |
| LastSample.Decimals | dep/util.py:184-189 | The formatted indices of a multi-index, one decimal per axis. |
| LastSample.FieldNameOfOne | dep/util.py:177-189 | `LastSample.VectorName` (`p[d]`, util.py:181) is the one-axis case of `LastSample.FieldName`. |
| LastSample.FieldNameReadsBack | dep/util.py:184-189 | `LastSample.FieldName`, the name `p[i,j,...]` that `namefield.format(*multi_index)` builds: it starts with `p[` and ends with `]`, and the text between splits at its commas into the decimal indices, so the multi-index can be read back from the name. |
| LastSample.TraceNameIsFieldName | dep/util.py:174-189 | `LastSample.TraceName`, the trace read for element f: `p` for a scalar, and otherwise the `FieldName` of the Fortran multi-index of f (for one axis, `p[d]`). |
| LastSample.FieldNameInjective | dep/util.py:184-189 | Different multi-indices give different `p[i,j,...]` names. |
| LastSample.TraceNamesDistinct | dep/util.py:177-189 | Distinct elements of a parameter with axes read distinct traces. |
| LastSample.TraceError | dep/util.py:176 | The error of an unreadable trace is the KeyError case exactly when the name is missing, and it records the name. |
| LastSample.ExistsFirstUnreadable | dep/util.py:185-190 | An unreadable element has a first unreadable element at or before it in Fortran order. |
| LastSample.RaisedUnreadable | dep/util.py:173-190 | A parameter that raises an error is not readable. |
| LastSample.RaisedExactlyWhenUnreadable | dep/util.py:173-190 | A parameter raises an error exactly when it is not readable. |
| LastSample.RaisedUnique | dep/util.py:173-190 | A parameter raises one error: the nditer ValueError for a zero-sized multi-axis array, and otherwise the error of its first unreadable trace in Fortran order. |
| LastSample.ReadLast | dep/util.py:176 | `trace[name][-1]` succeeds exactly when the trace exists and is nonempty, and gives its last element. Otherwise it fails with the KeyError case (no such trace) or the IndexError case (an empty trace). The model's error value records the trace name; the IndexError text of the source does not. |
| LastSample.FillParameter | dep/util.py:173-190 | Succeeds iff the parameter is readable (every trace readable, and a multi-axis array not zero-sized), and the array then holds the last draws in Fortran order. Otherwise the error is the one the source raises: the nditer ValueError, or that of the first unreadable trace in Fortran order. Elements before that trace hold their last draws, and the rest are unchanged. |
| LastSample.FillScalar | dep/util.py:174-176 | The scalar branch reads trace p. It succeeds exactly when that trace is readable and then stores its last draw; otherwise it returns that lookup's error and leaves the array unchanged. |
| LastSample.FillVector | dep/util.py:177-181 | The vector loop reads `p[0]`, `p[1]`, ... in order. It succeeds iff all are readable, and the array then holds their last draws. Otherwise the error is that of the first unreadable `p[d]`; entries before d hold their last draws and entries from d on are unchanged. |
| LastSample.Store | dep/util.py:188 | Writing the last draw at position f extends the filled prefix by one. |
| LastSample.FillField | dep/util.py:182-190 | The nditer branch refuses a zero-sized array with the ValueError of nditer and writes nothing. Otherwise it behaves as the nditer loop below. |
| LastSample.IterateFortran | dep/util.py:185-190 | The nditer loop visits elements in Fortran order. It succeeds iff every trace is readable, and the array then equals the last values. Otherwise it stops at the first unreadable element f: the error names f's trace, elements before f hold their last draws, and elements from f on are unchanged. |
| LastSample.AllFilled | dep/util.py:185-190 | `LastSample.LastValues` is the reference content of a parameter's array: the last draw of each element's trace in Fortran order. Once every position is filled, the parameter is readable and the array equals its last values. |
| LastSample.StoppedExtracted | dep/util.py:185-190 | A loop that stopped at element f, with every earlier element filled and later ones untouched, stopped at the first unreadable trace; its writes and error are the ones the source leaves behind. |
| LastSample.NewDict | dep/util.py:167-168 | The fresh dict maps every model parameter, and only those, to a new array of its size, with no two parameters sharing an array. |
| LastSample.NewOutput | dep/util.py:165-169 | The fresh output has one such dict per chain, with no array shared between chains. |
| LastSample.FirstFailingParam | dep/util.py:172-190 | If every parameter before i is readable and parameter i raises e, the chain raises e and is not readable. |
| LastSample.FailingParamUnreadable | dep/util.py:172-190 | The first failing parameter of a chain is not readable, and neither is the chain. |
| LastSample.FailingParamUnique | dep/util.py:172-190 | A chain has at most one first failing parameter, with one error. |
| LastSample.ChainRaisedUnreadable | dep/util.py:172-190 | A chain that raises an error is not readable. |
| LastSample.ChainRaisedUnique | dep/util.py:172-190 | A chain raises one error. |
| LastSample.FailingChainUnique | dep/util.py:171-190 | There is at most one first failing chain, with one error. |
| LastSample.OutputRaisedUnreadable | dep/util.py:171-190 | If the extraction raises an error, some chain is not readable. |
| LastSample.OutputRaisedUnique | dep/util.py:171-190 | The extraction raises one error: the first failing chain's, at its first failing parameter and first unreadable element. |
| LastSample.FillChain | dep/util.py:172-190 | One chain succeeds iff every parameter is readable, and then every array holds its parameter's last draws. Otherwise the error is the one raised by the first failing parameter in `model_pars` order. |
| LastSample.FillNextChain | dep/util.py:171-190 | Filling chain c leaves the arrays of the chains before it as they were. It succeeds iff chain c is readable, and otherwise returns the error chain c raises. |
| LastSample.FillChains | dep/util.py:171-190 | Succeeds iff every chain is readable, and then every array of every chain holds its last draws. Otherwise the error is the one the source raises first: in the first failing chain, at its first failing parameter, at the first unreadable element. |
| LastSample.GetLastSample | dep/util.py:144-191 | An empty `out` is replaced by a structure of fresh arrays, and a given one is filled and returned as is. Succeeds iff every trace needed is readable, and then the result fits the fit and holds the last draws. Otherwise the error is the first one the source raises, in chain, parameter and element order. |
| NormalParams.CopyMatrix | dep/util.py:108 | `A.copy()` is a new matrix of A's shape and entries. |
| NormalParams.CopyMatrixInto | dep/util.py:110 | `np.copyto(B, A)` gives B A's entries and leaves A's entries as they were, even when B is A. |
| NormalParams.PlaceMatrix | dep/util.py:105-110 | 'in_place' returns A itself, None a fresh copy, and a buffer receives A's entries and is returned. The result always holds A's entries. A buffer of another shape is refused. |
| NormalParams.PlaceVector | dep/util.py:116-124 | The vector output is null exactly when b is. Otherwise the same three cases as for A apply. |
| NormalParams.PlaceOutputs | dep/util.py:105-124 | Combines both placements: the matrix first, then the vector. On success the outputs hold the input values, the inputs keep theirs, and out_b is null exactly when b is. A matrix buffer of the wrong shape is refused with nothing written; a vector buffer of the wrong size is refused with that buffer untouched and out_A's buffer already holding A's entries. |

## Left out

- The numerics of `invert_normal_params` (dep/util.py:127-140) are not modelled. These are the Cholesky factorisation, `cho_solve`, LAPACK `potri` and `copy_triu_to_tril`: floating-point calls into scipy, LAPACK and a Cython module that is not part of this model.
- The F-order check and the transpose of `out_A` (dep/util.py:111-115) are numpy memory-layout details. Matrices here have no memory order.
- NormalParams.PlaceMatrix: `np.copyto` also accepts a buffer that A broadcasts to. Here any shape mismatch is refused.
- NormalParams.PlaceVector: as for PlaceMatrix, broadcasting into a buffer of another length is not modelled.
- `compare_plot` (matplotlib) and `suppress_stdout` (file-descriptor redirection) are outside the bookkeeping modelled here.
- The pickle load and dump, the Stan compiler and the prints of `load_stan` are left out. File existence is a set of paths and the result is an action.
- The random draws are inputs. Their distributions are not modelled.
- The floating-point and transcendental computations of `simulate_data` are left out: exp, log, the logistic, `cholesky`, `calc_input_param_classification`, `rand_corr_vine`, and the X and y generation. `PhiTrue` and `M2.SimulateData` take the logarithms as inputs.
- Group counts are `nat`, so negative `npg` values are not modelled. An `npg` sequence whose length is not 2 falls to the constant branch in the source, which would then broadcast a sequence. Here `npg` is a constant or a two-element range.
- M4b.Model.RegulateOneRow: the source keeps drawing until the row's absolute sum reaches `B_ABS_MIN_SUM`, and never stops otherwise. Here the redraws stop after `fuel` attempts and the row ends with status OutOfDraws; the contract ties the result to RegulateRow with the same bound.
- M4b.Model.RegulateBeta: the source loop runs until the sum is large enough, however many draws that takes. Here each row has a bound `fuel` on its redraws, and a row that uses them all ends with status OutOfDraws.
- M4b.Model.GetPrior: requires non-zero variances. The source divides numpy arrays, so a zero variance gives an infinity with a warning rather than an error, and `real` cannot express an infinity.
- m2's `get_prior(J, D)` uses neither of its arguments, so M2.GetPrior takes neither.
- LastSample.FieldName: the source builds a format template `p + '[{}' + ',{}'*(k-1) + ']'`. A parameter name containing braces would change that template; here the name is joined as plain text.
- LastSample.GetLastSample: arrays are kept flat in Fortran order, not as numpy arrays of the declared shape.
- LastSample.GetLastSample: `out=None` and `out=[]` are both "not given", as `not out` makes them.
- LastSample.FillChain: on failure the contract gives the error but not what the arrays of the earlier parameters of the chain hold.
- LastSample.GetLastSample: on failure the contract gives the error but not what the arrays of `out` hold; the source has written the chains and parameters before the failing one.
- LastSample.GetLastSample: a given `out` must have distinct arrays throughout. With shared arrays the later writes would overwrite the earlier ones.
