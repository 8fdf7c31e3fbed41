# Optimization fabrics: differential maps, variable sets and the attractor leaf

A Dafny model of three small pieces of an optimization-fabrics planner, the
framework that composes robot behaviours (goal attraction, obstacle and limit
avoidance) into one second-order system by pulling leaf geometries back
through differential maps.

- **Differential maps** (`diff_map.dfy`, module `DiffMaps`). The three map
  kinds are modelled as classes: the plain map `phi(q)` (`DifferentialMap`),
  the parameter-relative map `phi(q, q_p)` (`VariableDifferentialMap`), and
  the pure relative map `phi = q - q_p` (`RelativeDifferentialMap`).
  - Keyword dispatch is modelled as functions that return the variable list
    `_vars` or the error the constructor raises: `PlainArgs`, `VariableArgs`
    and `RelativeArgs`. The two accepted forms are `q=..., qdot=...` and
    `var=(...)`.
  - The symbolic expressions `phi`, `J`, `Jdot` and `J_p` are functions of
    the evaluation point, a `Valuation` that gives each variable a vector.
  - Whatever casadi computes by differentiation is a constructor input. The
    relative map is the exception: it stores `J = I` and
    `Jdot = Jdot_sign · 0`. These are the Jacobians of `q - q_p` when `q`,
    `qdot` and `q_p` are three distinct symbols. Passing one symbol in two
    roles gives other Jacobians; see "Left out".
  - `phidot()` and `Jdotqdot()` are functions of the point.
  - The two subclasses keep the plain map built by `super().__init__` as
    `base` and extend `base.vars` in place, as `self._vars += ...` does.
  - The main lemma, `RelativeAgreesWithVariable`, shows that the relative
    map's shortcuts `qdot - qdot_p` and `-qddot_p` equal the general
    parameter-relative formulas when `J = I`, `J_p = -I` and `Jdot = 0`.
- **Variable-set helpers** (`helper_functions.dfy`, module `VariableSets`).
  - `checkCompatability` is a two-stage validator.
  - `joinVariables` is a method with the source's nested loops and
    `already_exists` flag. It is proved equal to `Unique`, a reference
    definition of first-occurrence de-duplication.
  - Lemmas about `Unique` state the properties: no duplicates, coverage,
    subsequence, first-seen order, idempotence and count.
- **Attractor leaf** (`attractor.dfy`, module `Attractors`).
  - The parent's parameter table is a class `Variables` holding a
    `map<string, Var>`.
  - `GenericAttractor.SetForwardMap` either reuses the parameter under
    `"x_" + goal_name` or creates one, then adds it to the table.
  - The pure function `Registered` describes the new table. Lemmas about it
    state idempotence and that the table grows by at most one entry.

Supporting modules: `Results` (a `Result` type for raised exceptions),
`Symbols` (a symbolic variable `Var(name, size)`, expression shapes,
valuations) and `LinearAlgebra` (exact-real vectors and matrices, with lemmas
for identity, negated identity, zero and scaled matrix products).

### The relative map's `forward`

The relative map inherits the plain `concretize`,
which compiles all five entries of `self._vars` to `[phi, J, Jdot]`.
`forward` reads only `phi` from that function and computes `xdot` itself.
The model keeps that relation: `x` is `q - q_p` and `xdot` is the relative
`phidot`.

Two behaviours of the source are modelled as written:
- The parameter-relative `Jdotqdot` is `Jdot·qdot + J_p·qddot_p`. It does not
  use the stored `Jdot_p` term.
- Shape errors are not all raised during construction. Three sizes are
  left unchecked there:
  - The parameter-relative map's `qddot_p` is reported by its `Jdotqdot`,
    which returns a `Result`.
  - The relative map's `qdot_p` is reported by its `phidot`, which returns a
    `Result`.
  - The relative map's `qddot_p` is never checked, since its `Jdotqdot` is
    `-1 * qddot_p`.

## Model

| member | source | states |
|---|---|---|
| `DiffMaps.PlainArgs` | fabrics_package/optFabrics/diffGeometry/diffMap.py:10-19 | A successful dispatch yields two variables of equal size; any keyword count other than 1 or 2 raises because `q` is never bound |
| `DiffMaps.KeywordFormsAgreePlain` | fabrics_package/optFabrics/diffGeometry/diffMap.py:11-15 | `var=(q, qdot)` and `q=q, qdot=qdot` give the same variable list or the same error, for any argument values |
| `DiffMaps.PlainLayout` | fabrics_package/optFabrics/diffGeometry/diffMap.py:16-22 | Two symbolic variables construct a plain map exactly when their sizes agree (so `J·qdot` is defined), and the list is then `[q, qdot]` |
| `DiffMaps.PlainArgsForms` | fabrics_package/optFabrics/diffGeometry/diffMap.py:11-19 | Only the two keyword forms construct a plain map: on success the arguments are exactly `q=, qdot=` or `var=(q, qdot)` with symbolic values |
| `DiffMaps.VariableArgs` | fabrics_package/optFabrics/diffGeometry/diffMap.py:53-67 | A successful dispatch yields five variables, `q` and `qdot` of one size, `q_p` and `qdot_p` of one size; any keyword count other than 1 or 5 raises |
| `DiffMaps.RelativeArgs` | fabrics_package/optFabrics/diffGeometry/diffMap.py:106-119 | A successful dispatch yields five variables, with `q`, `qdot` and `q_p` of one size; any keyword count other than 1 or 5 raises |
| `DiffMaps.KeywordFormsAgreeFive` | fabrics_package/optFabrics/diffGeometry/diffMap.py:53-60 | For both five-variable maps, `var=(...)` and the five named keywords give the same result |
| `DiffMaps.VariableLayout` | fabrics_package/optFabrics/diffGeometry/diffMap.py:53-67 | Five symbolic variables construct a parameter-relative map with the list `[q, qdot, q_p, qdot_p, qddot_p]` exactly when `q`, `qdot` are of one size and `q_p`, `qdot_p` are of one size; otherwise a shape error is raised |
| `DiffMaps.RelativeLayout` | fabrics_package/optFabrics/diffGeometry/diffMap.py:106-119 | Five symbolic variables construct a relative map with the list `[q, qdot, q_p, qdot_p, qddot_p]` exactly when `q`, `qdot` and `q_p` are of one size, whatever the sizes of `qdot_p` and `qddot_p`; otherwise a shape error is raised |
| `DiffMaps.DifferentialMap.constructor` | fabrics_package/optFabrics/diffGeometry/diffMap.py:10-22 | Stores `_vars == [q(), qdot()]` as dispatched, `phi`, `J`, and `Jdot = Jdot_sign · d(J·qdot)/dq` |
| `DiffMaps.DifferentialMap.Q` | fabrics_package/optFabrics/diffGeometry/diffMap.py:44-45 | `q()` is entry 0 of `_vars`, and `J` has one column per entry of it |
| `DiffMaps.DifferentialMap.Qdot` | fabrics_package/optFabrics/diffGeometry/diffMap.py:47-48 | `qdot()` is entry 1 of `_vars`, of the size of `q()` |
| `DiffMaps.DifferentialMap.Phidot` | fabrics_package/optFabrics/diffGeometry/diffMap.py:27-28 | `phidot` has one entry per row of `phi`; entry `i` is row `i` of `J` times the value of `qdot()` |
| `DiffMaps.DifferentialMap.Jdotqdot` | fabrics_package/optFabrics/diffGeometry/diffMap.py:24-25 | `Jdotqdot` has one entry per row of `phi`; entry `i` is row `i` of `Jdot` times the value of `qdot()` |
| `DiffMaps.JdotqdotCarriesSign` | fabrics_package/optFabrics/diffGeometry/diffMap.py:22-25 | `Jdotqdot` is `Jdot_sign` times `d(J·qdot)/dq · qdot` |
| `DiffMaps.VariableDifferentialMap.constructor` | fabrics_package/optFabrics/diffGeometry/diffMap.py:52-67 | Runs the plain set-up, then extends `_vars` in place to `[q, qdot, q_p, qdot_p, qddot_p]` (the accessors' layout) and stores `J_p` and `Jdot_p = Jdot_sign · d(J_p·qdot_p)/dq_p` |
| `DiffMaps.VariableDifferentialMap.Q` | fabrics_package/optFabrics/diffGeometry/diffMap.py:44-45 | The inherited `q()` is entry 0 of the extended `_vars`, and `J` has one column per entry of it |
| `DiffMaps.VariableDifferentialMap.Qdot` | fabrics_package/optFabrics/diffGeometry/diffMap.py:47-48 | The inherited `qdot()` is entry 1 of the extended `_vars`, of the size of `q()` |
| `DiffMaps.VariableDifferentialMap.QP` | fabrics_package/optFabrics/diffGeometry/diffMap.py:94-95 | `q_p()` is entry 2 of `_vars`, and `J_p` has one column per entry of it |
| `DiffMaps.VariableDifferentialMap.QdotP` | fabrics_package/optFabrics/diffGeometry/diffMap.py:97-98 | `qdot_p()` is entry 3 of `_vars`, of the size of `q_p()` |
| `DiffMaps.VariableDifferentialMap.QddotP` | fabrics_package/optFabrics/diffGeometry/diffMap.py:100-101 | `qddot_p()` is entry 4 of `_vars`; no size is promised for it |
| `DiffMaps.VariableDifferentialMap.Phidot` | fabrics_package/optFabrics/diffGeometry/diffMap.py:91-92 | `phidot` is the plain map's `phidot` plus `J_p·qdot_p` |
| `DiffMaps.VariableDifferentialMap.Jdotqdot` | fabrics_package/optFabrics/diffGeometry/diffMap.py:88-89 | `Jdotqdot` is the plain map's `Jdotqdot` plus `J_p·qddot_p`; it raises exactly when `qddot_p` is not of `q_p`'s size |
| `DiffMaps.RelativeDifferentialMap.constructor` | fabrics_package/optFabrics/diffGeometry/diffMap.py:105-119 | Builds the plain map of `phi = q - q_p` (with `J = I` and `Jdot = 0` for either sign), then extends `_vars` in place to the five-variable layout |
| `DiffMaps.RelativeDifferentialMap.Q` | fabrics_package/optFabrics/diffGeometry/diffMap.py:44-45 | The inherited `q()` is entry 0 of the extended `_vars`, with one entry per entry of `phi` |
| `DiffMaps.RelativeDifferentialMap.Qdot` | fabrics_package/optFabrics/diffGeometry/diffMap.py:47-48 | The inherited `qdot()` is entry 1 of the extended `_vars`, of the size of `q()` |
| `DiffMaps.RelativeDifferentialMap.QP` | fabrics_package/optFabrics/diffGeometry/diffMap.py:138-139 | `q_p()` is entry 2 of `_vars`, of the size of `q()` |
| `DiffMaps.RelativeDifferentialMap.QdotP` | fabrics_package/optFabrics/diffGeometry/diffMap.py:141-142 | `qdot_p()` is entry 3 of `_vars`; no size is promised for it |
| `DiffMaps.RelativeDifferentialMap.QddotP` | fabrics_package/optFabrics/diffGeometry/diffMap.py:144-145 | `qddot_p()` is entry 4 of `_vars`; no size is promised for it |
| `DiffMaps.RelativeDifferentialMap.Phi` | fabrics_package/optFabrics/diffGeometry/diffMap.py:117 | `phi` is the displacement `q - q_p`, entry by entry |
| `DiffMaps.RelativeDifferentialMap.Phidot` | fabrics_package/optFabrics/diffGeometry/diffMap.py:135-136 | The shortcut `qdot - qdot_p` raises exactly when `qdot_p` and `qdot` differ in size |
| `DiffMaps.RelativeDifferentialMap.Jdotqdot` | fabrics_package/optFabrics/diffGeometry/diffMap.py:132-133 | The shortcut `-1 * qddot_p` has `qddot_p`'s size and never raises |
| `DiffMaps.RelativeDifferentialMap.Forward` | fabrics_package/optFabrics/diffGeometry/diffMap.py:121-130 | `forward`'s `x` is `phi` (`q - q_p`) and its `xdot` is `phidot` (`qdot - qdot_p`); it fails exactly when `phidot` does |
| `DiffMaps.ShortcutsAreGeneralFormulas` | fabrics_package/optFabrics/diffGeometry/diffMap.py:132-136 | With `J = I`, `J_p = -I` and `Jdot = sign·0`, `J·qdot + J_p·qdot_p = qdot - qdot_p` and `Jdot·qdot + J_p·qddot_p = -qddot_p`, for either sign |
| `DiffMaps.RelativeIsGeneralForm` | fabrics_package/optFabrics/diffGeometry/diffMap.py:117-136 | The relative shortcuts equal the stored plain map's `J·qdot` and `Jdot·qdot` plus `-I` applied to `qdot_p` and `qddot_p` |
| `DiffMaps.RelativeAgreesWithVariable` | fabrics_package/optFabrics/diffGeometry/diffMap.py:88-92 | A relative map and a parameter-relative map over the same variables, with the Jacobians of `q - q_p`, have the same `phidot` and the same `Jdotqdot` wherever the general one is defined |
| `VariableSets.CheckCompatability` | fabrics_package/optFabrics/helper_functions.py:6-16 | Passes exactly when the two `x()` variables are `is_equal`; a size difference is reported as "Different dimensions" even when the variables also differ; otherwise "Different variables" |
| `VariableSets.OccursIsMembership` | fabrics_package/optFabrics/helper_functions.py:24-27 | The loop's test (same size and `is_equal` against some kept item) is membership in the kept items |
| `VariableSets.JoinVariables` | fabrics_package/optFabrics/helper_functions.py:19-30 | The nested loops return `Unique(var1 + var2)`: duplicate-free, holding exactly the variables of `var1 + var2`, at most `len(var1) + len(var2)` long |
| `VariableSets.UniqueNoDuplicates` | fabrics_package/optFabrics/helper_functions.py:22-29 | No two entries of the result have the same size and are `is_equal` |
| `VariableSets.UniqueMembers` | fabrics_package/optFabrics/helper_functions.py:20-29 | Every element of `var1 + var2` has an equal entry in the result, and every entry comes from `var1 + var2` |
| `VariableSets.UniqueIsSubsequence` | fabrics_package/optFabrics/helper_functions.py:20-30 | The result is a subsequence of `var1 + var2` |
| `VariableSets.UniqueFirstSeenOrder` | fabrics_package/optFabrics/helper_functions.py:21-29 | Entries of the result are in the order of their first occurrences in `var1 + var2` |
| `VariableSets.UniqueOfDistinct` | fabrics_package/optFabrics/helper_functions.py:19-30 | A duplicate-free list is returned unchanged |
| `VariableSets.JoinIdempotent` | fabrics_package/optFabrics/helper_functions.py:19-30 | Joining a previous result with `[]` returns it, and a duplicate-free `var1` joined with `[]` is returned unchanged |
| `VariableSets.UniqueCount` | fabrics_package/optFabrics/helper_functions.py:19-30 | The result's length is the number of distinct variables in `var1 + var2` |
| `Attractors.Variables.AddParameters` | fabrics/leaves/generics/attractor.py:42 | `add_parameters` merges the given entries into the table, replacing entries under the same names |
| `Attractors.ReferenceName` | fabrics/leaves/generics/attractor.py:31 | The key is `"x_"` followed by the goal name, two characters longer than it |
| `Attractors.ReferenceNameInjective` | fabrics/leaves/generics/attractor.py:31 | Two goals share a key exactly when their names are equal |
| `Attractors.Reference` | fabrics/leaves/generics/attractor.py:33-38 | A parameter already under the key is reused; otherwise a new variable named after the key, with the goal's dimension |
| `Attractors.Registered` | fabrics/leaves/generics/attractor.py:31-42 | After registration the key `"x_" + goal_name` is present and holds the reference. A key already present leaves the table unchanged. An absent key gets a new variable named after the key, sized to the goal. Every other entry is unchanged |
| `Attractors.RegisteredSize` | fabrics/leaves/generics/attractor.py:33-42 | Registration adds one parameter exactly when the key was absent, and none otherwise |
| `Attractors.RegisterIdempotent` | fabrics/leaves/generics/attractor.py:33-42 | A second registration of the same goal, whatever its dimension, reuses the same variable and leaves the table as the first left it |
| `Attractors.GenericAttractor.constructor` | fabrics/leaves/generics/attractor.py:18-28 | The leaf is named `attractor_name + "_leaf"`, has the row count of `fk_goal` as its dimension, and registers the goal in the shared parent table |
| `Attractors.GenericAttractor.SetForwardMap` | fabrics/leaves/generics/attractor.py:30-45 | The parent table becomes `Registered(old table)`, and the forward map is built with exactly the variable now stored under the key |
| `Attractors.GenericAttractor.Map` | fabrics/leaves/generics/attractor.py:61-62 | `map()` returns the forward map, which is built on the leaf's own goal expression |
| `Attractors.ShareReference` | fabrics/leaves/generics/attractor.py:33-42 | Two attractors for the same goal on one parent share one reference parameter; the table gains at most one entry |

## Left out

- DiffMaps.RelativeDifferentialMap.constructor: the stored `J = I` and `Jdot = 0` assume that `q`, `qdot` and `q_p` are three distinct symbols. The model cannot tell one casadi symbol passed twice from two symbols with the same name and size, so it does not model aliasing. casadi would compute other Jacobians in two cases:
  - `q_p` is the same symbol as `q`. Then `phi = q - q` is zero, `J` is the zero matrix and `Jdot` is zero.
  - `qdot` is the same symbol as `q`, and `q_p` is a different symbol. Then `J = I` and `Jdot = Jdot_sign · I`.
  In both cases `RelativeIsGeneralForm` and `RelativeAgreesWithVariable` still hold of the stored `J = I` and `Jdot = 0`, not of what casadi computes.
- Symbolic differentiation (`ca.jacobian` in diffMap.py and `ca.gradient` in attractor.py) is foreign. The Jacobians are constructor inputs, so the model cannot state that `J` is the derivative of `phi`. The relative map is the exception: there `J = I` and `Jdot = 0` are written out.
- `concretize` and the numeric `forward` of the plain and parameter-relative maps compile and run casadi functions over floating-point arrays. They are not modelled. Neither is the failure when `forward` is called before `concretize`. The relative map's `Forward` keeps only the relation between `x`, `xdot` and the inputs.
- casadi's scalar broadcasting is not modelled: neither subtraction of a 1-element vector nor `mtimes` with a 1×1 factor, which casadi multiplies element-wise. A size mismatch in `q - q_p` or `qdot - qdot_p` is treated as a shape error. So is one in the products `J·qdot`, `J_p·qdot_p` and `J_p·qddot_p`.
- Unpacking a symbolic vector through `var=` is not modelled: anything but a tuple of the right length is an unpacking error. The `isinstance(phi, ca.SX)` assertion always holds in the model.
- Errors are distinguished by cause and variable name, not by Python exception class. The message strings of `checkCompatability` are not modelled; its error carries the two sizes or the two variables.
- `checkCompatability` takes the two `x()` variables. The geometry objects that own them are not part of this model.
- `is_equal` is structural equality of `Var(name, size)`. casadi's identity of symbol nodes is not modelled.
- `set_potential` and `set_metric` evaluate arbitrary expression strings and build `Geometry` and `Lagrangian` objects. They are not modelled.
- `Leaf`, `ParameterizedGoalMap`, `Variables` (except its parameter table) and the definition of `Jdot_sign` are not part of this model. `Jdot_sign` is a ±1 parameter.
- The demo script `section103.py` (robot wiring, ODE integration, plotting) is not modelled.
- Floating point is not modelled; vectors and matrices hold exact reals.
