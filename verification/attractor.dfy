/**
 * The generic attractor leaf: it names itself after the attractor, sizes
 * itself to the goal expression, and registers the goal's reference
 * parameter in the parent's shared parameter table, reusing one that is
 * already there.
 */
module Attractors {
  import opened Symbols

  /**
   * `ParameterizedGoalMap(parent_variables, fk, reference)`. Its internals are
   * not part of this model; it records the goal expression and the reference
   * variable it was built with.
   */
  datatype GoalMap = GoalMap(forwardKinematics: SymExpr, reference: Var)

  /** The parent's variable set, of which only the named parameters are modelled. */
  class Variables {
    var parameters: map<string, Var>

    constructor (parameters: map<string, Var>)
      ensures this.parameters == parameters
    {
      this.parameters := parameters;
    }

    /** `add_parameters`: entries of `params` are added, replacing those under the same names. */
    method AddParameters(params: map<string, Var>)
      modifies this
      ensures parameters == old(parameters) + params
    {
      parameters := parameters + params;
    }
  }

  /** `f"x_{goal_name}"`, the key of the goal's reference parameter. */
  function ReferenceName(goalName: string): (key: string)
    ensures |key| == |goalName| + 2
    ensures key[..2] == "x_" && key[2..] == goalName
  {
    "x_" + goalName
  }

  /** Different goals are registered under different keys. */
  lemma ReferenceNameInjective(g1: string, g2: string)
    ensures ReferenceName(g1) == ReferenceName(g2) <==> g1 == g2
  {
    if ReferenceName(g1) == ReferenceName(g2) {
      assert g1 == ReferenceName(g1)[2..];
    }
  }

  /**
   * The reference variable `set_forward_map` settles on: the parameter
   * already stored under the key, or else a fresh symbol named after the key
   * with the goal's dimension.
   */
  function Reference(params: map<string, Var>, goalName: string, goalDimension: nat): (r: Var)
    ensures ReferenceName(goalName) in params ==> r == params[ReferenceName(goalName)]
    ensures ReferenceName(goalName) !in params ==>
      r.name == ReferenceName(goalName) && r.size == goalDimension
  {
    var key := ReferenceName(goalName);
    if key in params then params[key] else Var(key, goalDimension)
  }

  /**
   * The parameter table after `set_forward_map` added `{key: reference}` to
   * it. The key is present and holds the reference; a key already present
   * leaves the table as it was, so the table grows by at most one entry;
   * every other entry is unchanged.
   */
  function Registered(params: map<string, Var>, goalName: string, goalDimension: nat): (r: map<string, Var>)
    ensures ReferenceName(goalName) in r
    ensures r[ReferenceName(goalName)] == Reference(params, goalName, goalDimension)
    ensures ReferenceName(goalName) !in params ==>
      r[ReferenceName(goalName)] == Var(ReferenceName(goalName), goalDimension)
    ensures ReferenceName(goalName) in params ==> r == params
    ensures forall k :: k != ReferenceName(goalName) ==>
      (k in r <==> k in params) && (k in params ==> r[k] == params[k])
  {
    var key := ReferenceName(goalName);
    params + map[key := Reference(params, goalName, goalDimension)]
  }

  /** Registration adds an entry exactly when the key was absent. */
  lemma RegisteredSize(params: map<string, Var>, goalName: string, goalDimension: nat)
    ensures |Registered(params, goalName, goalDimension)| ==
            |params| + (if ReferenceName(goalName) in params then 0 else 1)
  {
    var key := ReferenceName(goalName);
    var r := Registered(params, goalName, goalDimension);
    if key !in params {
      assert r.Keys == params.Keys + {key};
    }
  }

  /**
   * Registering the same goal a second time, whatever the dimension asked
   * for, settles on the same reference variable and leaves the table as the
   * first registration left it.
   */
  lemma RegisterIdempotent(params: map<string, Var>, goalName: string, d1: nat, d2: nat)
    ensures Reference(Registered(params, goalName, d1), goalName, d2) == Reference(params, goalName, d1)
    ensures Registered(Registered(params, goalName, d1), goalName, d2) == Registered(params, goalName, d1)
  {
    var once := Registered(params, goalName, d1);
    assert ReferenceName(goalName) in once;
  }

  class GenericAttractor {
    /** `_parent_variables`: shared with the other leaves of the same parent. */
    const parent: Variables
    /** The leaf's name, `attractor_name + "_leaf"`. */
    const name: string
    /** The leaf's dimension. */
    const dim: nat
    /** `_forward_kinematics`: the goal expression `fk_goal`. */
    const forwardKinematics: SymExpr
    /** `_forward_map`. */
    var forwardMap: GoalMap

    /** The forward map is built on the leaf's own goal expression. */
    ghost predicate Valid()
      reads this
    {
      forwardMap.forwardKinematics == forwardKinematics
    }

    /**
     * `GenericAttractor(root_variables, fk_goal, attractor_name)`: the leaf
     * set-up, then `set_forward_map(attractor_name)`.
     */
    constructor (rootVariables: Variables, fkGoal: SymExpr, attractorName: string)
      modifies rootVariables
      ensures parent == rootVariables && forwardKinematics == fkGoal
      ensures name == attractorName + "_leaf" && dim == fkGoal.rows
      ensures rootVariables.parameters == Registered(old(rootVariables.parameters), attractorName, fkGoal.rows)
      ensures forwardMap == GoalMap(fkGoal, rootVariables.parameters[ReferenceName(attractorName)])
      ensures Valid()
    {
      var goalDimension := fkGoal.rows;
      parent := rootVariables;
      name := attractorName + "_leaf";
      forwardKinematics := fkGoal;
      dim := goalDimension;
      new;
      SetForwardMap(attractorName);
    }

    /**
     * `set_forward_map(goal_name)`: look the reference parameter up in the
     * parent's table or create it, add it to the table, and build the
     * forward map with exactly the variable stored under its key.
     */
    method SetForwardMap(goalName: string)
      modifies this, parent
      ensures parent.parameters == Registered(old(parent.parameters), goalName, forwardKinematics.rows)
      ensures forwardMap == GoalMap(forwardKinematics, parent.parameters[ReferenceName(goalName)])
      ensures Valid()
    {
      var referenceName := ReferenceName(goalName);
      var goalDimension := forwardKinematics.rows;
      var referenceVariable;
      if referenceName in parent.parameters {
        referenceVariable := parent.parameters[referenceName];
      } else {
        referenceVariable := Var(referenceName, goalDimension);
      }
      var geoParameters := map[referenceName := referenceVariable];
      parent.AddParameters(geoParameters);
      forwardMap := GoalMap(forwardKinematics, referenceVariable);
    }

    /** `map()`: the goal map over the leaf's goal expression. */
    function Map(): (r: GoalMap)
      reads this
      requires Valid()
      ensures r == forwardMap && r.forwardKinematics == forwardKinematics
    {
      forwardMap
    }
  }

  /**
   * Two attractors tracking the same goal on one parent share one reference
   * parameter: the table gains at most one entry and keeps every other one.
   */
  method ShareReference(root: Variables, fk1: SymExpr, fk2: SymExpr, goalName: string)
    returns (a1: GenericAttractor, a2: GenericAttractor)
    modifies root
    ensures root.parameters == Registered(old(root.parameters), goalName, fk1.rows)
    ensures |root.parameters| == |old(root.parameters)| + (if ReferenceName(goalName) in old(root.parameters) then 0 else 1)
    ensures a1.Valid() && a2.Valid()
    ensures a1.Map().reference == a2.Map().reference == root.parameters[ReferenceName(goalName)]
  {
    a1 := new GenericAttractor(root, fk1, goalName);
    a2 := new GenericAttractor(root, fk2, goalName);
    RegisterIdempotent(old(root.parameters), goalName, fk1.rows, fk2.rows);
    RegisteredSize(old(root.parameters), goalName, fk1.rows);
  }
}
