/**
 * The parameters of a Gauss-Newton optimizer (class GaussNewtonParams).
 *
 * The two enumerated fields are stored as integer codes, because in C++ an
 * enum-typed field can hold a value outside its enumerators; the codes
 * follow the declaration order of the enumerators. The inherited generic
 * parameters (stopping criteria, verbosity) belong to a base class that is
 * not part of this model.
 */
module Params {
  import opened Wrappers

  /** A variable key; an elimination ordering is a sequence of keys. */
  type Key = nat

  /** The elimination algorithms, in declaration order. */
  datatype Elimination = MULTIFRONTAL | SEQUENTIAL

  /**
   * The numerical factorizations, in declaration order. The label mapping
   * in `print` also compares against a CHOLESKY, which is not one of the
   * enumerators declared here; no third factorization is modelled, and a
   * code other than those of LDL and QR is labelled invalid.
   */
  datatype Factorization = LDL | QR

  /** The placeholder printed for a code that names no enumerator. */
  const Invalid: string := "(invalid)"

  /** The integer value of an elimination enumerator. */
  function EliminationCode(e: Elimination): (c: int)
    ensures EliminationFromCode(c) == Some(e)
  {
    match e
    case MULTIFRONTAL => 0
    case SEQUENTIAL => 1
  }

  /** The enumerator an elimination code stands for, if any. */
  function EliminationFromCode(c: int): (r: Option<Elimination>)
    ensures r.Some? <==> 0 <= c < 2
    // the inverse of EliminationCode: a decoded code encodes back to itself
    ensures r.Some? ==> c == (match r.value case MULTIFRONTAL => 0 case SEQUENTIAL => 1)
  {
    if c == 0 then Some(MULTIFRONTAL)
    else if c == 1 then Some(SEQUENTIAL)
    else None
  }

  /** The integer value of a factorization enumerator. */
  function FactorizationCode(f: Factorization): (c: int)
    ensures FactorizationFromCode(c) == Some(f)
  {
    match f
    case LDL => 0
    case QR => 1
  }

  /** The enumerator a factorization code stands for, if any. */
  function FactorizationFromCode(c: int): (r: Option<Factorization>)
    ensures r.Some? <==> 0 <= c < 2
    // the inverse of FactorizationCode: a decoded code encodes back to itself
    ensures r.Some? ==> c == (match r.value case LDL => 0 case QR => 1)
  {
    if c == 0 then Some(LDL)
    else if c == 1 then Some(QR)
    else None
  }

  /** The label `print` shows for a stored elimination code; total. */
  function EliminationLabel(code: int): (text: string)
    ensures text == Invalid <==> EliminationFromCode(code).None?
    ensures EliminationFromCode(code) == Some(MULTIFRONTAL) ==> text == "MULTIFRONTAL"
    ensures EliminationFromCode(code) == Some(SEQUENTIAL) ==> text == "SEQUENTIAL"
  {
    if code == EliminationCode(MULTIFRONTAL) then "MULTIFRONTAL"
    else if code == EliminationCode(SEQUENTIAL) then "SEQUENTIAL"
    else Invalid
  }

  /** The label `print` shows for a stored factorization code; total. */
  function FactorizationLabel(code: int): (text: string)
    ensures text == Invalid <==> FactorizationFromCode(code).None?
    ensures FactorizationFromCode(code) == Some(LDL) ==> text == "LDL"
    ensures FactorizationFromCode(code) == Some(QR) ==> text == "QR"
  {
    if code == FactorizationCode(LDL) then "LDL"
    else if code == FactorizationCode(QR) then "QR"
    else Invalid
  }

  datatype GaussNewtonParams = GaussNewtonParams(
    elimination: int,     // code of an Elimination
    factorization: int,   // code of a Factorization
    ordering: seq<Key>)   // empty: compute an ordering automatically

  /** An empty ordering asks the solver to compute one automatically. */
  predicate UsesAutomaticOrdering(p: GaussNewtonParams) {
    |p.ordering| == 0
  }

  /** The default-constructed parameters. */
  function DefaultParams(): (p: GaussNewtonParams)
    ensures EliminationFromCode(p.elimination) == Some(MULTIFRONTAL)
    ensures FactorizationFromCode(p.factorization) == Some(LDL)
    ensures UsesAutomaticOrdering(p)
    ensures EliminationLabel(p.elimination) == "MULTIFRONTAL"
    ensures FactorizationLabel(p.factorization) == "LDL"
  {
    GaussNewtonParams(EliminationCode(MULTIFRONTAL), FactorizationCode(LDL), [])
  }
}
