/**
 * Differential maps: the plain map `phi(q)`, the parameter-relative map
 * `phi(q, q_p)` and the pure relative map `phi = q - q_p`.
 *
 * The symbolic expressions `phi`, `J = d(phi)/dq`, the Jacobian of `J·qdot`
 * with respect to `q`, `J_p = d(phi)/dq_p` and so on are modelled as functions
 * of the evaluation point (a `Valuation`); those computed by symbolic
 * differentiation are inputs of the constructors. `phidot()` and `Jdotqdot()`
 * are the expressions the maps build from them, read at a point.
 *
 * The relative and parameter-relative maps cannot inherit from the plain one
 * here, so each holds the plain map that its `super().__init__` set up, as
 * `base`, and extends `base.vars` in place.
 */
module DiffMaps {
  import opened Results
  import opened LinearAlgebra
  import opened Symbols

  /** `Jdot_sign`: the process-wide sign of the Jacobian-derivative term. */
  type Sign = s: real | s == 1.0 || s == -1.0 witness 1.0

  /**
   * The value passed for one keyword argument: a symbolic variable, a tuple,
   * or anything else (`None` included).
   */
  datatype Arg = Sym(v: Var) | Tuple(items: seq<Arg>) | Other

  type Kwargs = map<string, Arg>

  /** What construction or evaluation of a map raises. */
  datatype Error =
    | Unbound(name: string)      // UnboundLocalError: no keyword branch bound the name
    | UnpackFailed               // `var` is missing, not a tuple, or of the wrong length
    | NotSymbolic(name: string)  // an `isinstance(_, ca.SX)` assertion failed
    | ShapeMismatch              // casadi rejects a product or difference of mismatched sizes

  /** `kwargs.get(key)`: a missing key gives `None`. */
  function Get(kwargs: Kwargs, key: string): Arg {
    if key in kwargs then kwargs[key] else Other
  }

  /** `a, b, ... = value` with `n` names on the left. */
  function Unpack(value: Arg, n: nat): (r: Result<seq<Arg>, Error>)
    ensures r.Ok? ==> |r.value| == n
  {
    if value.Tuple? && |value.items| == n then Ok(value.items) else Err(UnpackFailed)
  }

  // ---------------------------------------------------------------------------
  // Keyword dispatch and the `_vars` layout
  // ---------------------------------------------------------------------------

  /** The two-keyword dispatch of the plain constructor: `q`, `qdot` or `var`. */
  function TwoArgs(kwargs: Kwargs): Result<seq<Arg>, Error> {
    if |kwargs| == 2 then Ok([Get(kwargs, "q"), Get(kwargs, "qdot")])
    else if |kwargs| == 1 then Unpack(Get(kwargs, "var"), 2)
    else Err(Unbound("q"))
  }

  /** The five-keyword dispatch of the parameter-relative and relative constructors. */
  function FiveArgs(kwargs: Kwargs): Result<seq<Arg>, Error> {
    if |kwargs| == 5 then
      Ok([Get(kwargs, "q"), Get(kwargs, "qdot"), Get(kwargs, "q_p"),
          Get(kwargs, "qdot_p"), Get(kwargs, "qddot_p")])
    else if |kwargs| == 1 then Unpack(Get(kwargs, "var"), 5)
    else Err(Unbound("q_p"))
  }

  /**
   * The checks of the plain constructor once `q` and `qdot` are bound:
   * both symbolic, and `J·qdot` well-shaped (`J` has `q.size` columns).
   */
  function PlainInit(q: Arg, qdot: Arg): Result<seq<Var>, Error> {
    if !q.Sym? then Err(NotSymbolic("q"))
    else if !qdot.Sym? then Err(NotSymbolic("qdot"))
    else if qdot.v.size != q.v.size then Err(ShapeMismatch)
    else Ok([q.v, qdot.v])
  }

  /** `_vars` of `DifferentialMap(phi, **kwargs)`, or what it raises. */
  function PlainArgs(kwargs: Kwargs): (r: Result<seq<Var>, Error>)
    ensures r.Ok? ==> |r.value| == 2 && r.value[0].size == r.value[1].size
    ensures |kwargs| != 1 && |kwargs| != 2 ==> r == Err(Unbound("q"))
  {
    var a :- TwoArgs(kwargs);
    PlainInit(a[0], a[1])
  }

  /**
   * The checks of the parameter-relative constructor once the five names are
   * bound: the three parent variables are symbolic, `super().__init__`
   * succeeds, and `J_p·qdot_p` is well-shaped.
   */
  function VariableInit(a: seq<Arg>): Result<seq<Var>, Error>
    requires |a| == 5
  {
    if !a[2].Sym? then Err(NotSymbolic("q_p"))
    else if !a[3].Sym? then Err(NotSymbolic("qdot_p"))
    else if !a[4].Sym? then Err(NotSymbolic("qddot_p"))
    else
      var plain :- PlainInit(a[0], a[1]);
      if a[3].v.size != a[2].v.size then Err(ShapeMismatch)
      else Ok(plain + [a[2].v, a[3].v, a[4].v])
  }

  /** `_vars` of `VariableDifferentialMap(phi, **kwargs)`, or what it raises. */
  function VariableArgs(kwargs: Kwargs): (r: Result<seq<Var>, Error>)
    ensures r.Ok? ==> |r.value| == 5
    ensures r.Ok? ==> r.value[0].size == r.value[1].size && r.value[2].size == r.value[3].size
    ensures |kwargs| != 1 && |kwargs| != 5 ==> r == Err(Unbound("q_p"))
  {
    var a :- FiveArgs(kwargs);
    VariableInit(a)
  }

  /**
   * The checks of the relative constructor once the five names are bound:
   * the parent variables are symbolic, `q - q_p` is defined, and
   * `super().__init__` succeeds.
   */
  function RelativeInit(a: seq<Arg>): Result<seq<Var>, Error>
    requires |a| == 5
  {
    if !a[2].Sym? then Err(NotSymbolic("q_p"))
    else if !a[3].Sym? then Err(NotSymbolic("qdot_p"))
    else if !a[4].Sym? then Err(NotSymbolic("qddot_p"))
    else if !a[0].Sym? then Err(NotSymbolic("q"))
    else if a[0].v.size != a[2].v.size then Err(ShapeMismatch)
    else
      var plain :- PlainInit(a[0], a[1]);
      Ok(plain + [a[2].v, a[3].v, a[4].v])
  }

  /** `_vars` of `RelativeDifferentialMap(**kwargs)`, or what it raises. */
  function RelativeArgs(kwargs: Kwargs): (r: Result<seq<Var>, Error>)
    ensures r.Ok? ==> |r.value| == 5
    ensures r.Ok? ==> r.value[0].size == r.value[1].size == r.value[2].size
    ensures |kwargs| != 1 && |kwargs| != 5 ==> r == Err(Unbound("q_p"))
  {
    var a :- FiveArgs(kwargs);
    RelativeInit(a)
  }

  /** The keyword arguments `q=..., qdot=...`. */
  function NamedTwo(q: Arg, qdot: Arg): Kwargs {
    map["q" := q, "qdot" := qdot]
  }

  /** The keyword arguments `q=..., qdot=..., q_p=..., qdot_p=..., qddot_p=...`. */
  function NamedFive(a: seq<Arg>): Kwargs
    requires |a| == 5
  {
    map["q" := a[0], "qdot" := a[1], "q_p" := a[2], "qdot_p" := a[3], "qddot_p" := a[4]]
  }

  /** The single keyword argument `var=(...)`. */
  function Packed(a: seq<Arg>): Kwargs {
    map["var" := Tuple(a)]
  }

  /**
   * `var=(q, qdot)` and `q=q, qdot=qdot` construct the same plain map, or
   * raise the same error; the latter is how the subclasses call `super().__init__`.
   */
  lemma KeywordFormsAgreePlain(q: Arg, qdot: Arg)
    ensures PlainArgs(Packed([q, qdot])) == PlainArgs(NamedTwo(q, qdot)) == PlainInit(q, qdot)
  {
    assert NamedTwo(q, qdot).Keys == {"q", "qdot"};
    assert |NamedTwo(q, qdot)| == 2;
  }

  /** The same for the five-variable forms. */
  lemma KeywordFormsAgreeFive(a: seq<Arg>)
    requires |a| == 5
    ensures VariableArgs(Packed(a)) == VariableArgs(NamedFive(a)) == VariableInit(a)
    ensures RelativeArgs(Packed(a)) == RelativeArgs(NamedFive(a)) == RelativeInit(a)
  {
    var k := NamedFive(a);
    assert k.Keys == {"q", "qdot", "q_p", "qdot_p", "qddot_p"};
    assert |k| == 5;
    assert [a[0], a[1], a[2], a[3], a[4]] == a;
    assert FiveArgs(k) == Ok(a);
  }

  /**
   * A plain map can be constructed from two symbolic variables of one size,
   * and its variable list is exactly `[q, qdot]`.
   */
  lemma PlainLayout(q: Var, qdot: Var)
    ensures PlainArgs(NamedTwo(Sym(q), Sym(qdot))).Ok? <==> q.size == qdot.size
    ensures q.size == qdot.size ==> PlainArgs(NamedTwo(Sym(q), Sym(qdot))) == Ok([q, qdot])
  {
    KeywordFormsAgreePlain(Sym(q), Sym(qdot));
  }

  /**
   * The two keyword forms are the only ways to construct a plain map: on
   * success the arguments are `q=q, qdot=qdot` or `var=(q, qdot)`.
   */
  lemma PlainArgsForms(kwargs: Kwargs)
    requires PlainArgs(kwargs).Ok?
    ensures var layout := PlainArgs(kwargs).value;
      kwargs == NamedTwo(Sym(layout[0]), Sym(layout[1])) ||
      kwargs == Packed([Sym(layout[0]), Sym(layout[1])])
  {
    var layout := PlainArgs(kwargs).value;
    if |kwargs| == 2 {
      assert "q" in kwargs && "qdot" in kwargs;
      var named := {"q", "qdot"};
      assert named <= kwargs.Keys;
      assert |named| == 2;
      SubsetOfSameSize(named, kwargs.Keys);
      assert kwargs == NamedTwo(Sym(layout[0]), Sym(layout[1]));
    } else {
      assert "var" in kwargs;
      SubsetOfSameSize({"var"}, kwargs.Keys);
      var items := kwargs["var"].items;
      assert items == [Sym(layout[0]), Sym(layout[1])];
      assert kwargs == Packed([Sym(layout[0]), Sym(layout[1])]);
    }
  }

  /** A subset with as many elements as the whole set is the whole set. */
  lemma SubsetOfSameSize<T>(a: set<T>, b: set<T>)
    requires a <= b && |a| == |b|
    ensures a == b
  {
    assert b == a + (b - a);
    assert a * (b - a) == {};
    assert |b - a| == 0;
  }

  /**
   * A parameter-relative map built from five symbolic variables lists them
   * in the order `[q, qdot, q_p, qdot_p, qddot_p]`; construction fails on a
   * shape error exactly when `J·qdot` or `J_p·qdot_p` is ill-shaped.
   */
  lemma VariableLayout(q: Var, qdot: Var, qp: Var, qdotp: Var, qddotp: Var)
    ensures VariableArgs(NamedFive([Sym(q), Sym(qdot), Sym(qp), Sym(qdotp), Sym(qddotp)]))
         == if q.size == qdot.size && qp.size == qdotp.size then Ok([q, qdot, qp, qdotp, qddotp])
            else Err(ShapeMismatch)
  {
    KeywordFormsAgreeFive([Sym(q), Sym(qdot), Sym(qp), Sym(qdotp), Sym(qddotp)]);
    assert [q, qdot] + [qp, qdotp, qddotp] == [q, qdot, qp, qdotp, qddotp];
  }

  /**
   * A relative map built from five symbolic variables lists them in the same
   * order; construction fails on a shape error exactly when `q - q_p` or
   * `J·qdot` is ill-shaped. The sizes of `qdot_p` and `qddot_p` are not
   * checked.
   */
  lemma RelativeLayout(q: Var, qdot: Var, qp: Var, qdotp: Var, qddotp: Var)
    ensures RelativeArgs(NamedFive([Sym(q), Sym(qdot), Sym(qp), Sym(qdotp), Sym(qddotp)]))
         == if q.size == qp.size && qdot.size == q.size then Ok([q, qdot, qp, qdotp, qddotp])
            else Err(ShapeMismatch)
  {
    KeywordFormsAgreeFive([Sym(q), Sym(qdot), Sym(qp), Sym(qdotp), Sym(qddotp)]);
    assert [q, qdot] + [qp, qdotp, qddotp] == [q, qdot, qp, qdotp, qddotp];
  }

  // ---------------------------------------------------------------------------
  // The plain map
  // ---------------------------------------------------------------------------

  class DifferentialMap {
    /** `_vars`: `[q, qdot]`, extended in place by the parent-relative maps. */
    var vars: seq<Var>
    /** The number of rows of `phi`. */
    const dim: nat
    /** `_phi`, `_J` and `_Jdot`, as functions of the evaluation point. */
    const phi: Valuation -> Vec
    const jac: Valuation -> Mat
    const jacDot: Valuation -> Mat

    ghost predicate Valid()
      reads this
    {
      && |vars| >= 2
      && vars[0].size == vars[1].size
      && (forall e :: |phi(e)| == dim)
      && (forall e :: IsMatrix(jac(e), dim, vars[0].size))
      && (forall e :: IsMatrix(jacDot(e), dim, vars[0].size))
    }

    /**
     * `DifferentialMap(phi, **kwargs)` for keyword arguments that do not
     * raise. `jac` is `ca.jacobian(phi, q)` and `djqdot` is
     * `ca.jacobian(ca.mtimes(J, qdot), q)`, both computed by casadi.
     */
    constructor (phi: Valuation -> Vec, dim: nat, kwargs: Kwargs,
                 jac: Valuation -> Mat, djqdot: Valuation -> Mat, sign: Sign)
      requires PlainArgs(kwargs).Ok?
      requires forall e :: |phi(e)| == dim
      requires forall e :: IsMatrix(jac(e), dim, PlainArgs(kwargs).value[0].size)
      requires forall e :: IsMatrix(djqdot(e), dim, PlainArgs(kwargs).value[0].size)
      ensures Valid()
      ensures vars == PlainArgs(kwargs).value == [Q(), Qdot()]
      ensures this.dim == dim && this.phi == phi && this.jac == jac
      ensures forall e :: jacDot(e) == Scale(sign, djqdot(e))
    {
      vars := PlainArgs(kwargs).value;
      this.dim := dim;
      this.phi := phi;
      this.jac := jac;
      jacDot := e => Scale(sign, djqdot(e));
    }

    /** `q()`: the first entry of `_vars`; `J` has one column per entry of it. */
    function Q(): (r: Var)
      reads this
      requires Valid()
      ensures r == vars[0]
      ensures forall e :: IsMatrix(jac(e), dim, r.size)
    {
      vars[0]
    }

    /** `qdot()`: the second entry of `_vars`, of the size of `q()`. */
    function Qdot(): (r: Var)
      reads this
      requires Valid()
      ensures r == vars[1] && r.size == vars[0].size
    {
      vars[1]
    }

    /** `J·qdot`: one entry per row of `phi`. */
    function Phidot(env: Valuation): (r: Vec)
      reads this
      requires Valid() && Binds(env, vars)
      ensures |r| == dim
      ensures forall i :: 0 <= i < dim ==> r[i] == Dot(jac(env)[i], env[Qdot()])
    {
      MatVec(jac(env), env[Qdot()])
    }

    /** `Jdot·qdot`. */
    function Jdotqdot(env: Valuation): (r: Vec)
      reads this
      requires Valid() && Binds(env, vars)
      ensures |r| == dim
      ensures forall i :: 0 <= i < dim ==> r[i] == Dot(jacDot(env)[i], env[Qdot()])
    {
      MatVec(jacDot(env), env[Qdot()])
    }
  }

  /**
   * The sign convention reaches `Jdotqdot`: it is `Jdot_sign` times the
   * Jacobian of `J·qdot` applied to `qdot`.
   */
  lemma JdotqdotCarriesSign(m: DifferentialMap, djqdot: Valuation -> Mat, sign: Sign, env: Valuation)
    requires m.Valid() && Binds(env, m.vars)
    requires forall e :: IsMatrix(djqdot(e), m.dim, m.Q().size)
    requires forall e :: m.jacDot(e) == Scale(sign, djqdot(e))
    ensures var d := djqdot(env);
      IsMatrix(d, m.dim, |env[m.Qdot()]|) &&
      m.Jdotqdot(env) == ScaleVec(sign, MatVec(d, env[m.Qdot()]))
  {
    MatVecScale(sign, djqdot(env), env[m.Qdot()]);
  }

  // ---------------------------------------------------------------------------
  // The parameter-relative map
  // ---------------------------------------------------------------------------

  class VariableDifferentialMap {
    /** The plain map set up by `super().__init__`, its `vars` extended to five. */
    const base: DifferentialMap
    /** `_J_p` and `_Jdot_p`, as functions of the evaluation point. */
    const jacP: Valuation -> Mat
    const jacDotP: Valuation -> Mat

    ghost predicate Valid()
      reads this, base
    {
      && base.Valid()
      && |base.vars| == 5
      && base.vars[3].size == base.vars[2].size
      && (forall e :: IsMatrix(jacP(e), base.dim, base.vars[2].size))
      && (forall e :: IsMatrix(jacDotP(e), base.dim, base.vars[2].size))
    }

    /**
     * `VariableDifferentialMap(phi, **kwargs)` for keyword arguments that do
     * not raise. `jac`, `djqdot` are as for the plain map; `jacP` is
     * `ca.jacobian(phi, q_p)` and `djpqdotp` is
     * `ca.jacobian(ca.mtimes(J_p, qdot_p), q_p)`.
     */
    constructor (phi: Valuation -> Vec, dim: nat, kwargs: Kwargs,
                 jac: Valuation -> Mat, djqdot: Valuation -> Mat,
                 jacP: Valuation -> Mat, djpqdotp: Valuation -> Mat, sign: Sign)
      requires VariableArgs(kwargs).Ok?
      requires forall e :: |phi(e)| == dim
      requires forall e :: IsMatrix(jac(e), dim, VariableArgs(kwargs).value[0].size)
      requires forall e :: IsMatrix(djqdot(e), dim, VariableArgs(kwargs).value[0].size)
      requires forall e :: IsMatrix(jacP(e), dim, VariableArgs(kwargs).value[2].size)
      requires forall e :: IsMatrix(djpqdotp(e), dim, VariableArgs(kwargs).value[2].size)
      ensures Valid() && fresh(base)
      ensures base.vars == VariableArgs(kwargs).value == [Q(), Qdot(), QP(), QdotP(), QddotP()]
      ensures base.dim == dim && base.phi == phi && base.jac == jac
      ensures forall e :: base.jacDot(e) == Scale(sign, djqdot(e))
      ensures this.jacP == jacP
      ensures forall e :: jacDotP(e) == Scale(sign, djpqdotp(e))
    {
      var layout := VariableArgs(kwargs).value;
      KeywordFormsAgreePlain(Sym(layout[0]), Sym(layout[1]));
      var plain := new DifferentialMap(phi, dim, NamedTwo(Sym(layout[0]), Sym(layout[1])), jac, djqdot, sign);
      plain.vars := plain.vars + layout[2..];
      base := plain;
      this.jacP := jacP;
      jacDotP := e => Scale(sign, djpqdotp(e));
    }

    /** `q()`: entry 0 of `_vars`; `J` has one column per entry of it. */
    function Q(): (r: Var)
      reads this, base
      requires Valid()
      ensures r == base.vars[0]
      ensures forall e :: IsMatrix(base.jac(e), base.dim, r.size)
    {
      base.vars[0]
    }

    /** `qdot()`: entry 1 of `_vars`, of the size of `q()`. */
    function Qdot(): (r: Var)
      reads this, base
      requires Valid()
      ensures r == base.vars[1] && r.size == base.vars[0].size
    {
      base.vars[1]
    }

    /** `q_p()`: entry 2 of `_vars`; `J_p` has one column per entry of it. */
    function QP(): (r: Var)
      reads this, base
      requires Valid()
      ensures r == base.vars[2]
      ensures forall e :: IsMatrix(jacP(e), base.dim, r.size)
    {
      base.vars[2]
    }

    /** `qdot_p()`: entry 3 of `_vars`, of the size of `q_p()`. */
    function QdotP(): (r: Var)
      reads this, base
      requires Valid()
      ensures r == base.vars[3] && r.size == base.vars[2].size
    {
      base.vars[3]
    }

    /** `qddot_p()`: entry 4 of `_vars`, whose size the constructor does not check. */
    function QddotP(): (r: Var)
      reads this, base
      requires Valid()
      ensures r == base.vars[4]
    {
      base.vars[4]
    }

    /** `J·qdot + J_p·qdot_p`: the plain map's `phidot` plus the parent's contribution. */
    function Phidot(env: Valuation): (r: Vec)
      reads this, base
      requires Valid() && Binds(env, base.vars)
      ensures |r| == base.dim
      ensures r == Add(base.Phidot(env), MatVec(jacP(env), env[QdotP()]))
    {
      Add(MatVec(base.jac(env), env[Qdot()]), MatVec(jacP(env), env[QdotP()]))
    }

    /**
     * `Jdot·qdot + J_p·qddot_p`: the plain map's `Jdotqdot` plus the parent's
     * acceleration through `J_p`. casadi rejects the product when `qddot_p`
     * is not of the size of `q_p`.
     */
    function Jdotqdot(env: Valuation): (r: Result<Vec, Error>)
      reads this, base
      requires Valid() && Binds(env, base.vars)
      ensures r.Ok? <==> QddotP().size == QP().size
      ensures r.Ok? ==> r.value == Add(base.Jdotqdot(env), MatVec(jacP(env), env[QddotP()]))
    {
      if QddotP().size != QP().size then Err(ShapeMismatch)
      else Ok(Add(MatVec(base.jacDot(env), env[Qdot()]), MatVec(jacP(env), env[QddotP()])))
    }
  }

  // ---------------------------------------------------------------------------
  // The pure relative map
  // ---------------------------------------------------------------------------

  /** `q - q_p` at a point, or zeros where the point does not bind them. */
  function Difference(q: Var, qp: Var): (f: Valuation -> Vec)
    ensures forall e :: |f(e)| == q.size
  {
    e => if q in e && qp in e && |e[q]| == q.size && |e[qp]| == q.size then Sub(e[q], e[qp]) else Zeros(q.size)
  }

  class RelativeDifferentialMap {
    /** The plain map set up by `super().__init__` for `phi = q - q_p`, its `vars` extended to five. */
    const base: DifferentialMap

    ghost predicate Valid()
      reads this, base
    {
      && base.Valid()
      && |base.vars| == 5
      && base.dim == base.vars[0].size
      && base.vars[2].size == base.vars[0].size
      && (forall e :: base.jac(e) == Identity(base.dim))
      && (forall e :: base.jacDot(e) == Zero(base.dim, base.dim))
      && (forall e :: Binds(e, base.vars) ==> base.phi(e) == Sub(e[base.vars[0]], e[base.vars[2]]))
    }

    /**
     * `RelativeDifferentialMap(**kwargs)` for keyword arguments that do not
     * raise. The Jacobian of `q - q_p` with respect to `q` is the identity,
     * and the Jacobian of `I·qdot` with respect to `q` is zero, for three
     * distinct symbols `q`, `qdot` and `q_p`.
     */
    constructor (kwargs: Kwargs, sign: Sign)
      requires RelativeArgs(kwargs).Ok?
      ensures Valid() && fresh(base)
      ensures base.vars == RelativeArgs(kwargs).value == [Q(), Qdot(), QP(), QdotP(), QddotP()]
    {
      var layout := RelativeArgs(kwargs).value;
      var n := layout[0].size;
      KeywordFormsAgreePlain(Sym(layout[0]), Sym(layout[1]));
      ScaleZero(sign, n, n);
      var plain := new DifferentialMap(Difference(layout[0], layout[2]), n,
                                       NamedTwo(Sym(layout[0]), Sym(layout[1])),
                                       e => Identity(n), e => Zero(n, n), sign);
      plain.vars := plain.vars + layout[2..];
      base := plain;
    }

    /** `q()`: entry 0 of `_vars`; `phi = q - q_p` has one entry per entry of it. */
    function Q(): (r: Var)
      reads this, base
      requires Valid()
      ensures r == base.vars[0] && r.size == base.dim
    {
      base.vars[0]
    }

    /** `qdot()`: entry 1 of `_vars`, of the size of `q()`. */
    function Qdot(): (r: Var)
      reads this, base
      requires Valid()
      ensures r == base.vars[1] && r.size == base.vars[0].size
    {
      base.vars[1]
    }

    /** `q_p()`: entry 2 of `_vars`, of the size of `q()`. */
    function QP(): (r: Var)
      reads this, base
      requires Valid()
      ensures r == base.vars[2] && r.size == base.vars[0].size
    {
      base.vars[2]
    }

    /** `qdot_p()`: entry 3 of `_vars`, whose size the constructor does not check. */
    function QdotP(): (r: Var)
      reads this, base
      requires Valid()
      ensures r == base.vars[3]
    {
      base.vars[3]
    }

    /** `qddot_p()`: entry 4 of `_vars`, whose size the constructor does not check. */
    function QddotP(): (r: Var)
      reads this, base
      requires Valid()
      ensures r == base.vars[4]
    {
      base.vars[4]
    }

    /** `phi` read at a point: the displacement `q - q_p`. */
    function Phi(env: Valuation): (r: Vec)
      reads this, base
      requires Valid() && Binds(env, base.vars)
      ensures |r| == |env[Q()]|
      ensures forall i :: 0 <= i < |r| ==> r[i] == env[Q()][i] - env[QP()][i]
    {
      base.phi(env)
    }

    /** The shortcut `qdot - qdot_p`; the difference is rejected when the sizes differ. */
    function Phidot(env: Valuation): (r: Result<Vec, Error>)
      reads this, base
      requires Valid() && Binds(env, base.vars)
      ensures r.Ok? <==> QdotP().size == Qdot().size
    {
      if QdotP().size != Qdot().size then Err(ShapeMismatch)
      else Ok(Sub(env[Qdot()], env[QdotP()]))
    }

    /** The shortcut `-1 * qddot_p`. */
    function Jdotqdot(env: Valuation): (r: Vec)
      reads this, base
      requires Valid() && Binds(env, base.vars)
      ensures |r| == QddotP().size
    {
      ScaleVec(-1.0, env[QddotP()])
    }

    /**
     * The relation `forward` keeps between its outputs: `x` is `phi` at the
     * point and `xdot` is `qdot - qdot_p`, which is `phidot`.
     */
    function Forward(env: Valuation): (r: Result<(Vec, Vec), Error>)
      reads this, base
      requires Valid() && Binds(env, base.vars)
      ensures r.Ok? <==> Phidot(env).Ok?
      ensures r.Ok? ==> r.value.0 == Phi(env) && r.value.1 == Phidot(env).value
    {
      if QdotP().size != Qdot().size then Err(ShapeMismatch)
      else Ok((base.phi(env), Sub(env[Qdot()], env[QdotP()])))
    }
  }

  // ---------------------------------------------------------------------------
  // The relative map's shortcuts are the general formulas
  // ---------------------------------------------------------------------------

  /**
   * With `J = I`, `J_p = -I` and `Jdot = Jdot_sign · 0`, the parameter-relative
   * formulas `J·qdot + J_p·qdot_p` and `Jdot·qdot + J_p·qddot_p` reduce to
   * `qdot - qdot_p` and `-qddot_p`, whatever the sign.
   */
  lemma ShortcutsAreGeneralFormulas(sign: Sign, qdot: Vec, qdotp: Vec, qddotp: Vec)
    requires |qdotp| == |qdot| && |qddotp| == |qdot|
    ensures Add(MatVec(Identity(|qdot|), qdot), MatVec(NegIdentity(|qdot|), qdotp)) == Sub(qdot, qdotp)
    ensures Add(MatVec(Scale(sign, Zero(|qdot|, |qdot|)), qdot), MatVec(NegIdentity(|qdot|), qddotp))
         == ScaleVec(-1.0, qddotp)
  {
    var n := |qdot|;
    MatVecIdentity(qdot);
    MatVecNegIdentity(qdotp);
    MatVecNegIdentity(qddotp);
    ScaleZero(sign, n, n);
    MatVecZero(n, qdot);
  }

  /**
   * The relative map's `phidot` is its own plain map's `J·qdot` (with the
   * stored `J = I`) plus `J_p·qdot_p` for `J_p = -I`, and its `Jdotqdot` is
   * the stored `Jdot·qdot` (zero) plus `-I·qddot_p`.
   */
  lemma RelativeIsGeneralForm(r: RelativeDifferentialMap, env: Valuation)
    requires r.Valid() && Binds(env, r.base.vars)
    ensures r.Phidot(env).Ok? ==>
      r.Phidot(env).value == Add(r.base.Phidot(env), MatVec(NegIdentity(r.base.dim), env[r.QdotP()]))
    ensures r.QddotP().size == r.base.dim ==>
      r.Jdotqdot(env) == Add(r.base.Jdotqdot(env), MatVec(NegIdentity(r.base.dim), env[r.QddotP()]))
  {
    var n := r.base.dim;
    var qdot := env[r.Qdot()];
    assert r.base.jac(env) == Identity(n);
    assert r.base.jacDot(env) == Zero(n, n);
    MatVecIdentity(qdot);
    MatVecZero(n, qdot);
    MatVecNegIdentity(env[r.QddotP()]);
    if r.Phidot(env).Ok? {
      MatVecNegIdentity(env[r.QdotP()]);
    }
  }

  /**
   * A relative map and a parameter-relative map over the same variables whose
   * Jacobians are those of `phi = q - q_p` (`J = I`, `J_p = -I`,
   * `Jdot = Jdot_sign · 0`) give the same `phidot`, and the same `Jdotqdot`
   * wherever the general one is defined; the shortcut never raises there.
   */
  lemma RelativeAgreesWithVariable(r: RelativeDifferentialMap, v: VariableDifferentialMap,
                                   sign: Sign, env: Valuation)
    requires r.Valid() && v.Valid()
    requires v.base.vars == r.base.vars
    requires forall e :: v.base.jac(e) == Identity(r.base.dim)
    requires forall e :: v.jacP(e) == NegIdentity(r.base.dim)
    requires forall e :: v.base.jacDot(e) == Scale(sign, Zero(r.base.dim, r.base.dim))
    requires Binds(env, r.base.vars)
    ensures r.Phidot(env) == Ok(v.Phidot(env))
    ensures v.Jdotqdot(env).Ok? <==> r.QddotP().size == r.base.dim
    ensures v.Jdotqdot(env).Ok? ==> v.Jdotqdot(env).value == r.Jdotqdot(env)
  {
    var n := r.base.dim;
    var qdot, qdotp, qddotp := env[r.Qdot()], env[r.QdotP()], env[r.QddotP()];
    assert v.base.jac(env) == Identity(n);
    assert v.jacP(env) == NegIdentity(n);
    assert v.base.jacDot(env) == Scale(sign, Zero(n, n));
    if |qddotp| == n {
      ShortcutsAreGeneralFormulas(sign, qdot, qdotp, qddotp);
    } else {
      ShortcutsAreGeneralFormulas(sign, qdot, qdotp, qdotp);
    }
  }
}
