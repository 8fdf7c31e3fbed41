/**
 * Helpers over symbolic variables: the compatibility check between two
 * objects' coordinate variables, and the order-preserving de-duplication of
 * two variable lists.
 */
module VariableSets {
  import opened Symbols

  /** The `SpecException("Operation invalid", ...)` that `checkCompatability` raises. */
  datatype Incompatibility =
    | DifferentDimensions(leftSize: nat, rightSize: nat)
    | DifferentVariables(leftVar: Var, rightVar: Var)

  datatype Outcome = Pass | Fail(error: Incompatibility)

  /**
   * `checkCompatability(a, b)`, given the two coordinate variables `a.x()`
   * and `b.x()`. The size check runs first, so a size difference is reported
   * as such even when the variables differ in name as well.
   */
  function CheckCompatability(ax: Var, bx: Var): (r: Outcome)
    ensures r == Pass <==> IsEqual(ax, bx)
    ensures ax.size != bx.size ==> r == Fail(DifferentDimensions(ax.size, bx.size))
    ensures ax.size == bx.size && !IsEqual(ax, bx) ==> r == Fail(DifferentVariables(ax, bx))
  {
    if ax.size != bx.size then Fail(DifferentDimensions(ax.size, bx.size))
    else if !IsEqual(ax, bx) then Fail(DifferentVariables(ax, bx))
    else Pass
  }

  /** The equality `joinVariables` uses: same size and `is_equal`. */
  predicate SameVariable(u: Var, v: Var) {
    u.size == v.size && IsEqual(u, v)
  }

  /** `x` already has an equal entry in `xs`. */
  predicate Occurs(x: Var, xs: seq<Var>) {
    exists k :: 0 <= k < |xs| && SameVariable(xs[k], x)
  }

  lemma OccursIsMembership(x: Var, xs: seq<Var>)
    ensures Occurs(x, xs) <==> x in xs
  {
    if x in xs {
      var k :| 0 <= k < |xs| && xs[k] == x;
      assert SameVariable(xs[k], x);
    }
  }

  predicate NoDuplicates(s: seq<Var>) {
    forall i, j :: 0 <= i < j < |s| ==> !SameVariable(s[i], s[j])
  }

  /**
   * The reference definition of the join: the entries of `s` that have no
   * equal entry before them, in the order of `s`.
   */
  function Unique(s: seq<Var>): seq<Var>
  {
    if s == [] then []
    else
      var prior := Unique(s[..|s| - 1]);
      if Occurs(s[|s| - 1], prior) then prior else prior + [s[|s| - 1]]
  }

  /** `joinVariables(var1, var2)`: the nested loops with the `already_exists` flag. */
  method JoinVariables(var1: seq<Var>, var2: seq<Var>) returns (uniqueItems: seq<Var>)
    ensures uniqueItems == Unique(var1 + var2)
    ensures NoDuplicates(uniqueItems)
    ensures forall x :: x in uniqueItems <==> x in var1 + var2
    ensures |uniqueItems| <= |var1| + |var2|
  {
    var items := var1 + var2;
    uniqueItems := [];
    var i := 0;
    while i < |items|
      invariant 0 <= i <= |items|
      invariant uniqueItems == Unique(items[..i])
    {
      var item := items[i];
      var alreadyExists := false;
      var j := 0;
      while j < |uniqueItems|
        invariant 0 <= j <= |uniqueItems|
        invariant forall k :: 0 <= k < j ==> !SameVariable(uniqueItems[k], item)
      {
        if uniqueItems[j].size == item.size && IsEqual(uniqueItems[j], item) {
          alreadyExists := true;
          break;
        }
        j := j + 1;
      }
      assert alreadyExists <==> Occurs(item, uniqueItems);
      if !alreadyExists {
        uniqueItems := uniqueItems + [item];
      }
      assert items[..i + 1][..i] == items[..i];
      i := i + 1;
    }
    assert items[..i] == items;
    UniqueNoDuplicates(items);
    UniqueMembers(items);
    UniqueIsSubsequence(items);
    SubsequenceLength(uniqueItems, items);
  }

  /** No two entries of the join are the same variable. */
  lemma {:induction false} UniqueNoDuplicates(s: seq<Var>)
    ensures NoDuplicates(Unique(s))
  {
    if s != [] {
      var p := s[..|s| - 1];
      UniqueNoDuplicates(p);
    }
  }

  /** The join holds exactly the variables of its input. */
  lemma {:induction false} UniqueMembers(s: seq<Var>)
    ensures forall x :: x in Unique(s) <==> x in s
  {
    if s != [] {
      var p, x := s[..|s| - 1], s[|s| - 1];
      UniqueMembers(p);
      OccursIsMembership(x, Unique(p));
      assert s == p + [x];
    }
  }

  /** `r` is `s` with some entries left out, the rest in their order. */
  predicate IsSubsequence(r: seq<Var>, s: seq<Var>)
    decreases |s|
  {
    if r == [] then true
    else if s == [] then false
    else
      (r[|r| - 1] == s[|s| - 1] && IsSubsequence(r[..|r| - 1], s[..|s| - 1]))
      || IsSubsequence(r, s[..|s| - 1])
  }

  lemma {:induction false} SubsequenceLength(r: seq<Var>, s: seq<Var>)
    requires IsSubsequence(r, s)
    ensures |r| <= |s|
    decreases |s|
  {
    if r != [] {
      if r[|r| - 1] == s[|s| - 1] && IsSubsequence(r[..|r| - 1], s[..|s| - 1]) {
        SubsequenceLength(r[..|r| - 1], s[..|s| - 1]);
      } else {
        SubsequenceLength(r, s[..|s| - 1]);
      }
    }
  }

  /** The join keeps the input's order and only leaves entries out. */
  lemma {:induction false} UniqueIsSubsequence(s: seq<Var>)
    ensures IsSubsequence(Unique(s), s)
  {
    if s != [] {
      var p, x := s[..|s| - 1], s[|s| - 1];
      UniqueIsSubsequence(p);
      var r := Unique(s);
      if !Occurs(x, Unique(p)) {
        assert r[..|r| - 1] == Unique(p);
      } else if r != [] {
        assert IsSubsequence(r, p);
      }
    }
  }

  /** The position of the first occurrence of `x` in `s`. */
  function IndexOf(s: seq<Var>, x: Var): (i: nat)
    requires x in s
    ensures i < |s| && s[i] == x
    ensures forall j :: 0 <= j < i ==> s[j] != x
  {
    if s[0] == x then 0 else 1 + IndexOf(s[1..], x)
  }

  lemma IndexOfPrefix(p: seq<Var>, t: seq<Var>, y: Var)
    requires y in p
    ensures IndexOf(p + t, y) == IndexOf(p, y)
  {
    var i, j := IndexOf(p + t, y), IndexOf(p, y);
    assert (p + t)[j] == y;
    assert forall k :: 0 <= k < j ==> (p + t)[k] == p[k];
  }

  /**
   * Entries of the join appear in the order in which the input first shows
   * them.
   */
  lemma {:induction false} UniqueFirstSeenOrder(s: seq<Var>)
    ensures forall k1, k2 :: 0 <= k1 < k2 < |Unique(s)| ==>
      Unique(s)[k1] in s && Unique(s)[k2] in s &&
      IndexOf(s, Unique(s)[k1]) < IndexOf(s, Unique(s)[k2])
  {
    UniqueMembers(s);
    if s != [] {
      var p, x := s[..|s| - 1], s[|s| - 1];
      assert s == p + [x];
      UniqueFirstSeenOrder(p);
      UniqueMembers(p);
      var r, rp := Unique(s), Unique(p);
      forall k1, k2 | 0 <= k1 < k2 < |r|
        ensures IndexOf(s, r[k1]) < IndexOf(s, r[k2])
      {
        assert r[k1] == rp[k1] && r[k1] in p;
        IndexOfPrefix(p, [x], r[k1]);
        if k2 < |rp| {
          assert r[k2] == rp[k2] && r[k2] in p;
          IndexOfPrefix(p, [x], r[k2]);
        } else {
          OccursIsMembership(x, rp);
          assert r[k2] == x && x !in p;
          assert IndexOf(s, x) == |p|;
        }
      }
    }
  }

  /** A list without duplicates is its own join. */
  lemma {:induction false} UniqueOfDistinct(t: seq<Var>)
    requires NoDuplicates(t)
    ensures Unique(t) == t
  {
    if t != [] {
      var p, x := t[..|t| - 1], t[|t| - 1];
      UniqueOfDistinct(p);
      OccursIsMembership(x, p);
      forall k | 0 <= k < |p|
        ensures p[k] != x
      {
        assert !SameVariable(t[k], t[|t| - 1]);
      }
      assert t == p + [x];
    }
  }

  /**
   * Joining a previous result with `[]` gives it back, and a duplicate-free
   * `var1` joined with `[]` is returned unchanged.
   */
  lemma JoinIdempotent(var1: seq<Var>, var2: seq<Var>)
    ensures Unique(Unique(var1 + var2) + []) == Unique(var1 + var2)
    ensures NoDuplicates(var1) ==> Unique(var1 + []) == var1
  {
    var r := Unique(var1 + var2);
    UniqueNoDuplicates(var1 + var2);
    assert r + [] == r;
    UniqueOfDistinct(r);
    assert var1 + [] == var1;
    if NoDuplicates(var1) {
      UniqueOfDistinct(var1);
    }
  }

  /** The join has one entry per distinct variable of the input. */
  lemma {:induction false} UniqueCount(s: seq<Var>)
    ensures |Unique(s)| == |set x | x in s|
  {
    if s != [] {
      var p, x := s[..|s| - 1], s[|s| - 1];
      UniqueCount(p);
      UniqueMembers(p);
      OccursIsMembership(x, Unique(p));
      assert s == p + [x];
      var ps := set y | y in p;
      assert (set y | y in s) == ps + {x};
      if x !in p {
        assert x !in ps;
      }
    }
  }
}
