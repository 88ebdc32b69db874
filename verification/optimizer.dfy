/**
 * The Gauss-Newton optimizer state (class GaussNewtonOptimizer) as an
 * immutable record, and the operations that build a new record from an old
 * one. Every operation is a function: the original record is a value and is
 * never modified.
 *
 * The factor graph (G), the variable values (V) and the cached total error
 * (E) are opaque. Evaluating the graph's error at some values is done by
 * code outside this model and is passed in as `errorOf`.
 */
module Optimizer {
  import opened Wrappers
  import opened Params

  /**
   * Parameters handed to `update` through the base parameter type: either
   * Gauss-Newton parameters, or the parameters of some other optimizer (P).
   */
  datatype OptimizerParams<P> = GaussNewton(gn: GaussNewtonParams) | OtherOptimizer(other: P)

  /** graph, values, Gauss-Newton parameters, cached error, iteration count. */
  datatype GaussNewtonOptimizer<G, V, E> = GaussNewtonOptimizer(
    graph: G,
    values: V,
    params: GaussNewtonParams,
    error: E,
    iterations: int)

  /** The cached error is the graph's error at the current values. */
  ghost predicate ErrorIsCurrent<G, V, E>(o: GaussNewtonOptimizer<G, V, E>, errorOf: (G, V) -> E) {
    o.error == errorOf(o.graph, o.values)
  }

  /** The protected constructor: carries an existing error and iteration count. */
  function WithState<G, V, E>(graph: G, values: V, params: GaussNewtonParams, error: E, iterations: int)
    : (o: GaussNewtonOptimizer<G, V, E>)
    ensures o.graph == graph && o.values == values && o.params == params
    ensures o.error == error && o.iterations == iterations
  {
    GaussNewtonOptimizer(graph, values, params, error, iterations)
  }

  /**
   * The standard constructor over shared pointers: no iteration done yet,
   * the error evaluated at the initial values.
   */
  function CreateShared<G, V, E>(graph: G, values: V, params: GaussNewtonParams, errorOf: (G, V) -> E)
    : (o: GaussNewtonOptimizer<G, V, E>)
    ensures o.graph == graph && o.values == values && o.params == params
    ensures o.iterations == 0
    ensures ErrorIsCurrent(o, errorOf)
  {
    WithState(graph, values, params, errorOf(graph, values), 0)
  }

  /**
   * The standard constructor over plain objects. The source copies each
   * argument into a fresh shared object; values have no identity here.
   */
  function Create<G, V, E>(graph: G, values: V, params: GaussNewtonParams, errorOf: (G, V) -> E)
    : (o: GaussNewtonOptimizer<G, V, E>)
    ensures o.graph == graph && o.values == values && o.params == params
    ensures o.iterations == 0
    ensures ErrorIsCurrent(o, errorOf)
  {
    GaussNewtonOptimizer(graph, values, params, errorOf(graph, values), 0)
  }

  /** A public constructor is the protected one at iteration 0 with the error evaluated. */
  lemma CreateIsWithStateAtStart<G, V, E>(graph: G, values: V, params: GaussNewtonParams, errorOf: (G, V) -> E)
    ensures Create(graph, values, params, errorOf) == CreateShared(graph, values, params, errorOf)
    ensures Create(graph, values, params, errorOf) == WithState(graph, values, params, errorOf(graph, values), 0)
  {
  }

  /**
   * The cast of the supplied base parameters to Gauss-Newton parameters:
   * parameters of any other kind give an empty pointer, like an absent one.
   */
  function CastToGaussNewton<P>(p: Option<OptimizerParams<P>>): (r: Option<GaussNewtonParams>)
    ensures r.Some? <==> p.Some? && p.value.GaussNewton?
    ensures r.Some? ==> r.value == p.value.gn
  {
    match p
    case Some(GaussNewton(gn)) => Some(gn)
    case _ => None
  }

  /**
   * The protected copy-with-overrides constructor: each supplied field
   * replaces the original's, each absent one is inherited. The iteration
   * count is inherited; the error is re-evaluated only when the graph or
   * the values change, so an up-to-date cached error stays up to date.
   */
  function CopyWith<G, V, E>(
    original: GaussNewtonOptimizer<G, V, E>,
    newGraph: Option<G>, newValues: Option<V>, newParams: Option<GaussNewtonParams>,
    errorOf: (G, V) -> E)
    : (o: GaussNewtonOptimizer<G, V, E>)
    ensures newGraph.None? ==> o.graph == original.graph
    ensures newGraph.Some? ==> o.graph == newGraph.value
    ensures newValues.None? ==> o.values == original.values
    ensures newValues.Some? ==> o.values == newValues.value
    ensures newParams.None? ==> o.params == original.params
    ensures newParams.Some? ==> o.params == newParams.value
    ensures o.iterations == original.iterations
    ensures newGraph.None? && newValues.None? ==> o.error == original.error
    ensures newGraph.Some? || newValues.Some? ==> ErrorIsCurrent(o, errorOf)
    ensures ErrorIsCurrent(original, errorOf) ==> ErrorIsCurrent(o, errorOf)
  {
    var graph := newGraph.GetOr(original.graph);
    var values := newValues.GetOr(original.values);
    var error := if newGraph.Some? || newValues.Some? then errorOf(graph, values) else original.error;
    WithState(graph, values, newParams.GetOr(original.params), error, original.iterations)
  }

  /**
   * `update`: a new optimizer with the supplied graph, values and parameters
   * in place of the original's. Parameters that are not Gauss-Newton
   * parameters are dropped by the cast and the original's are kept.
   */
  function Update<G, V, E, P>(
    original: GaussNewtonOptimizer<G, V, E>,
    newGraph: Option<G>, newValues: Option<V>, newParams: Option<OptimizerParams<P>>,
    errorOf: (G, V) -> E)
    : (o: GaussNewtonOptimizer<G, V, E>)
    ensures newGraph.None? ==> o.graph == original.graph
    ensures newGraph.Some? ==> o.graph == newGraph.value
    ensures newValues.None? ==> o.values == original.values
    ensures newValues.Some? ==> o.values == newValues.value
    ensures (newParams.Some? && newParams.value.GaussNewton?) ==> o.params == newParams.value.gn
    ensures !(newParams.Some? && newParams.value.GaussNewton?) ==> o.params == original.params
    ensures o.iterations == original.iterations
    ensures newGraph.None? && newValues.None? ==> o.error == original.error
    ensures newGraph.Some? || newValues.Some? ==> ErrorIsCurrent(o, errorOf)
    ensures newGraph.None? && newValues.None? && !(newParams.Some? && newParams.value.GaussNewton?) ==> o == original
    ensures ErrorIsCurrent(original, errorOf) ==> ErrorIsCurrent(o, errorOf)
  {
    CopyWith(original, newGraph, newValues, CastToGaussNewton(newParams), errorOf)
  }

  /** Parameters of another optimizer are treated exactly as absent ones. */
  lemma UpdateWithOtherParamsIsUpdateWithout<G, V, E, P>(
    original: GaussNewtonOptimizer<G, V, E>, newGraph: Option<G>, newValues: Option<V>,
    other: P, errorOf: (G, V) -> E)
    ensures Update(original, newGraph, newValues, Some(OtherOptimizer(other)), errorOf)
         == Update<G, V, E, P>(original, newGraph, newValues, None, errorOf)
  {
  }

  /** `clone`: a copy equal in every field to the original. */
  function Clone<G, V, E>(original: GaussNewtonOptimizer<G, V, E>): (o: GaussNewtonOptimizer<G, V, E>)
    ensures o == original
  {
    GaussNewtonOptimizer(original.graph, original.values, original.params, original.error, original.iterations)
  }

  /** Cloning is updating with every argument absent. */
  lemma CloneIsEmptyUpdate<G, V, E, P>(original: GaussNewtonOptimizer<G, V, E>, errorOf: (G, V) -> E)
    ensures Clone(original) == Update<G, V, E, P>(original, None, None, None, errorOf)
  {
  }

  /** The arguments of one `update` call. */
  datatype Replacement<G, V, P> = Replacement(
    graph: Option<G>, values: Option<V>, params: Option<OptimizerParams<P>>)

  /** Successive `update` calls, each applied to the result of the one before. */
  function UpdateAll<G, V, E, P>(
    original: GaussNewtonOptimizer<G, V, E>, rs: seq<Replacement<G, V, P>>, errorOf: (G, V) -> E)
    : (o: GaussNewtonOptimizer<G, V, E>)
    ensures o.iterations == original.iterations
    ensures ErrorIsCurrent(original, errorOf) ==> ErrorIsCurrent(o, errorOf)
    decreases |rs|
  {
    if rs == [] then original
    else
      var last := rs[|rs| - 1];
      Update(UpdateAll(original, rs[..|rs| - 1], errorOf), last.graph, last.values, last.params, errorOf)
  }

  /** The most recently supplied value in `xs`, or `fallback` if none was supplied. */
  function LastSupplied<T>(xs: seq<Option<T>>, fallback: T): T
    decreases |xs|
  {
    if xs == [] then fallback
    else if xs[|xs| - 1].Some? then xs[|xs| - 1].value
    else LastSupplied(xs[..|xs| - 1], fallback)
  }

  function SuppliedGraphs<G, V, P>(rs: seq<Replacement<G, V, P>>): seq<Option<G>> {
    seq(|rs|, i requires 0 <= i < |rs| => rs[i].graph)
  }

  function SuppliedValues<G, V, P>(rs: seq<Replacement<G, V, P>>): seq<Option<V>> {
    seq(|rs|, i requires 0 <= i < |rs| => rs[i].values)
  }

  function SuppliedGaussNewtonParams<G, V, P>(rs: seq<Replacement<G, V, P>>): seq<Option<GaussNewtonParams>> {
    seq(|rs|, i requires 0 <= i < |rs| => CastToGaussNewton(rs[i].params))
  }

  /**
   * After any chain of `update` calls, each of graph, values and parameters
   * is the one supplied most recently, or the original's when none was;
   * parameters of other optimizers never count as supplied.
   */
  lemma {:induction false} UpdateAllLastSupplied<G, V, E, P>(
    original: GaussNewtonOptimizer<G, V, E>, rs: seq<Replacement<G, V, P>>, errorOf: (G, V) -> E)
    ensures UpdateAll(original, rs, errorOf).graph == LastSupplied(SuppliedGraphs(rs), original.graph)
    ensures UpdateAll(original, rs, errorOf).values == LastSupplied(SuppliedValues(rs), original.values)
    ensures UpdateAll(original, rs, errorOf).params == LastSupplied(SuppliedGaussNewtonParams(rs), original.params)
    decreases |rs|
  {
    if rs != [] {
      var front := rs[..|rs| - 1];
      UpdateAllLastSupplied(original, front, errorOf);
      assert SuppliedGraphs(rs)[..|rs| - 1] == SuppliedGraphs(front);
      assert SuppliedValues(rs)[..|rs| - 1] == SuppliedValues(front);
      assert SuppliedGaussNewtonParams(rs)[..|rs| - 1] == SuppliedGaussNewtonParams(front);
    }
  }
}
