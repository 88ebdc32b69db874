# Gauss-Newton optimizer state and parameters

A model of GTSAM's `GaussNewtonOptimizer.h`: the parameters of a
Gauss-Newton nonlinear least-squares optimizer (`GaussNewtonParams`) and the
optimizer itself (`GaussNewtonOptimizer`) seen as an immutable snapshot of
factor graph, variable values, parameters, cached total error and iteration
count. Every operation that the header defines builds a new snapshot from
old ones; in Dafny they are pure functions over datatypes.

- `wrappers.dfy` — `Option`, standing for a shared pointer that may be empty.
- `params.dfy` (module `Params`) — the two enumerations, the parameter
  record with its defaults, and the labels that `print` shows for the
  stored enumeration values. Enumerated fields hold integer codes in
  declaration order (elimination: 0 MULTIFRONTAL, 1 SEQUENTIAL;
  factorization: 0 LDL, 1 QR) so that an out-of-range value can be stored
  and labelled `(invalid)`.
- `optimizer.dfy` (module `Optimizer`) — the optimizer record, its public
  and protected constructors, `update` (with the cast of the supplied
  parameters to Gauss-Newton parameters), `clone`, and chains of `update`
  calls.

The factor graph, the values and the error are opaque type parameters.
Evaluating a graph's error at some values happens in code that is not part
of this model, so it is a function parameter `errorOf`; the predicate
`ErrorIsCurrent` says that a record's cached error is `errorOf` of its graph
and values. The public constructors establish it and `update` preserves it.

The label mapping in `print` (line 62) compares the factorization against a
`CHOLESKY` that is not among the enumerators declared at lines 37-40. The
model keeps the two declared factorizations; every other code, including
one that might have been meant as CHOLESKY, prints as `(invalid)`.

## Model

| member | source | states |
|---|---|---|
| `Params.EliminationCode` | gtsam/nonlinear/GaussNewtonOptimizer.h:31-34 | the code of each elimination enumerator decodes back to that enumerator |
| `Params.EliminationFromCode` | gtsam/nonlinear/GaussNewtonOptimizer.h:31-34 | a code names an elimination enumerator exactly when it is 0 or 1, MULTIFRONTAL first |
| `Params.FactorizationCode` | gtsam/nonlinear/GaussNewtonOptimizer.h:37-40 | the code of each factorization enumerator decodes back to that enumerator |
| `Params.FactorizationFromCode` | gtsam/nonlinear/GaussNewtonOptimizer.h:37-40 | a code names a factorization enumerator exactly when it is 0 or 1, LDL first |
| `Params.EliminationLabel` | gtsam/nonlinear/GaussNewtonOptimizer.h:51-56 | total; "MULTIFRONTAL" and "SEQUENTIAL" for those codes, "(invalid)" exactly for the codes that name no enumerator |
| `Params.FactorizationLabel` | gtsam/nonlinear/GaussNewtonOptimizer.h:58-65 | total; "LDL" and "QR" for those codes, "(invalid)" exactly for the codes that name no enumerator |
| `Params.DefaultParams` | gtsam/nonlinear/GaussNewtonOptimizer.h:42-47 | default parameters use MULTIFRONTAL elimination and LDL factorization (and print so) and an empty ordering, meaning automatic |
| `Optimizer.WithState` | gtsam/nonlinear/GaussNewtonOptimizer.h:147-149 | the protected constructor stores graph, values and parameters, and the supplied error and iteration count unchanged |
| `Optimizer.CreateShared` | gtsam/nonlinear/GaussNewtonOptimizer.h:105-107 | the shared-pointer constructor stores its inputs, starts at iteration 0 with the error current for graph and values |
| `Optimizer.Create` | gtsam/nonlinear/GaussNewtonOptimizer.h:91-97 | the plain-object constructor stores (copies of) its inputs, starts at iteration 0 with the error current |
| `Optimizer.CreateIsWithStateAtStart` | gtsam/nonlinear/GaussNewtonOptimizer.h:91-107 | both public constructors give the same optimizer, the protected constructor's at iteration 0 with the evaluated error |
| `Optimizer.CastToGaussNewton` | gtsam/nonlinear/GaussNewtonOptimizer.h:133 | the cast yields parameters exactly when Gauss-Newton parameters were supplied, and then those very parameters |
| `Optimizer.CopyWith` | gtsam/nonlinear/GaussNewtonOptimizer.h:151-154 | each supplied field replaces the original's, each absent one is inherited; the iteration count is kept; the error is kept when graph and values are absent and current when either is supplied |
| `Optimizer.Update` | gtsam/nonlinear/GaussNewtonOptimizer.h:123-134 | supplied graph/values replace the original's; Gauss-Newton parameters replace the original's, absent or other parameters keep them; iteration count kept; error kept when graph and values are absent, current when either is supplied; with nothing effective supplied the result equals the original |
| `Optimizer.UpdateWithOtherParamsIsUpdateWithout` | gtsam/nonlinear/GaussNewtonOptimizer.h:128-134 | update with parameters of another optimizer is exactly update with the parameters absent |
| `Optimizer.Clone` | gtsam/nonlinear/GaussNewtonOptimizer.h:136-139 | the clone equals the original in every field |
| `Optimizer.CloneIsEmptyUpdate` | gtsam/nonlinear/GaussNewtonOptimizer.h:123-139 | cloning is the same as updating with every argument absent |
| `Optimizer.UpdateAll` | gtsam/nonlinear/GaussNewtonOptimizer.h:123-127 | any chain of update calls keeps the iteration count and keeps a current error current |
| `Optimizer.UpdateAllLastSupplied` | gtsam/nonlinear/GaussNewtonOptimizer.h:123-134 | after any chain of update calls, graph, values and parameters are the most recently supplied ones (other optimizers' parameters never count), else the original's |

## Left out

- `iterate()` (line 121): only declared in this header. Linearisation, ordering, elimination, factorization, retraction and error evaluation are floating-point numerics in files that are not part of this model, so no contract is stated for it.
- Console output of `print`: writing to the console, flushing, and the base parameters' own printing. Only the label mapping is modelled.
- The `NonlinearOptimizer` base class and its parameters (stopping criteria, verbosity) are not part of this model, and neither are the bodies of its constructors. The model assumes that a new optimizer starts at iteration 0 with its error evaluated at the initial values. It also assumes that the copy-with-overrides base constructor called at line 153 keeps the iteration count and re-evaluates the error when the graph or the values are replaced (`CopyWith`, `Update`). That re-evaluation is an assumption about the unseen base constructor: read literally, the doc comment at lines 123-127 ("leaving all other state the same") would copy the error unchanged even then. When neither graph nor values is replaced, the error is copied unchanged either way.
- Empty shared pointers passed to the shared-pointer constructor: what the base class does with them is not visible; that constructor takes present values.
- Rejection of an inconsistent graph/values pairing at construction: no such check is visible in this header.
- Pointer mechanics: reference counting, `auto_ptr` ownership transfer, object identity of clones and the copies made by the plain-object constructor. Dafny values have no identity, so "a distinct object" and "the original is not modified" hold trivially.
- `Ordering` and the automatic fill-reducing ordering: an ordering is an opaque sequence of keys; an empty one means "compute automatically".
- The iteration count is an unbounded integer; the C++ `int` width is not modelled, since no operation here does arithmetic on it.
