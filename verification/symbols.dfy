/**
 * The symbolic variables every other component operates over. The symbolic
 * engine (casadi) is not modelled: a variable is an opaque handle with a name
 * and a size, an expression keeps only its shape, and evaluating an expression
 * at a point means looking its variables up in a valuation.
 */
module Symbols {

  import opened LinearAlgebra

  /** A symbolic column vector `ca.SX.sym(name, size)`. */
  datatype Var = Var(name: string, size: nat)

  /** `ca.is_equal`, taken as structural equality of the handles. */
  predicate IsEqual(u: Var, v: Var) {
    u == v
  }

  /** A symbolic expression, of which only its shape (`size()`) is kept. */
  datatype SymExpr = SymExpr(rows: nat, cols: nat)

  /** A point at which symbolic expressions are evaluated: a value per variable. */
  type Valuation = map<Var, Vec>

  /** The valuation gives every variable of `vars` a value of that variable's size. */
  predicate Binds(env: Valuation, vars: seq<Var>) {
    forall i :: 0 <= i < |vars| ==> vars[i] in env && |env[vars[i]]| == vars[i].size
  }
}
