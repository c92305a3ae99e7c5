/** Concrete instances of the kernel on small terms: the arithmetic test, and one
    instance of each behaviour of `maybe_unify` as the code is written. */
module KanrenExamples {
  import opened PyRuntime
  import opened Terms
  import opened Expressions
  import opened Microkanren

  /** `unify(term(9), term(x) + term(5))` from `State()`: one state, whose
      map binds `x` to the candidates of `x + 5 == 9`, which are `[5 - 9]`. */
  lemma ArithmeticTest(uid: string)
    ensures var x := NewVar(None, uid);
            ToTerm(PyInt(9)) == Ok(IntTerm(9)) &&
            ToTerm(PyTerm(x)) == Ok(x) && ToTerm(PyInt(5)) == Ok(IntTerm(5)) &&
            ApplyOperator(x, Plus, PyTerm(IntTerm(5))) == Ok(BinaryExpr(x, IntTerm(5), Plus)) &&
            Unify(EMPTY_STATE, IntTerm(9), BinaryExpr(x, IntTerm(5), Plus))
              == [State(map[x := Candidates(Ok([IntTerm(-4)]))], [])]
  {
    var x := NewVar(None, uid);
    var d := map[x := Candidates(Ok([IntTerm(-4)]))];
    BinaryExprOnRight(IntTerm(9), BinaryExpr(x, IntTerm(5), Plus));
    ReverseLhsPlusOrder(5, 9);
    assert Union(map[], d) == d;
  }

  /** The candidate the test prints does not solve the equation: `-4 + 5` is 1, not 9. */
  lemma ArithmeticTestCandidateIsWrong()
    ensures Evaluate(IntTerm(-4), Plus, IntTerm(5)) == Ok(IntTerm(1))
  {
  }

  /** A variable facing a value: one state binding the variable to the value. */
  lemma BindVariable(s: State, name: string, n: int)
    ensures var x := Var(name);
            Unify(s, x, IntTerm(n)) == [Substituting(s, map[x := Bound(IntTerm(n))])] &&
            Disunify(s, x, IntTerm(n)) == []
  {
    VarOnLeft(Var(name), IntTerm(n));
  }

  /** Different values: `unify` yields nothing and `disunify` yields the state. */
  lemma DistinctValues(s: State)
    ensures Unify(s, IntTerm(1), IntTerm(2)) == []
    ensures Disunify(s, IntTerm(1), IntTerm(2)) == [s]
  {
  }

  /** Equal values succeed with no delta, so neither goal yields a state. */
  lemma EqualValuesYieldNothing(s: State)
    ensures MaybeUnify(IntTerm(3), IntTerm(3)) == Unified(true, [])
    ensures Unify(s, IntTerm(3), IntTerm(3)) == []
    ensures Disunify(s, IntTerm(3), IntTerm(3)) == []
  {
  }

  /** The type tag is not compared: `True` matches `1`, and `"1"` does not. */
  lemma TagIgnored()
    ensures MaybeUnify(BoolTerm(true), IntTerm(1)) == Unified(true, [])
    ensures MaybeUnify(Value(StrType, NStr("1")), IntTerm(1)) == Unified(false, [])
  {
  }

  /** An ambiguous OR is one state holding both candidates, not two states. */
  lemma AmbiguousOr(s: State, name: string)
    ensures var x := Var(name);
            Unify(s, BinaryExpr(x, BoolTerm(true), Or), BoolTerm(true))
              == [Substituting(s, map[x := Candidates(Ok([BoolTerm(false), BoolTerm(true)]))])]
  {
    var x := Var(name);
    BinaryExprOnLeft(BinaryExpr(x, BoolTerm(true), Or), BoolTerm(true));
    ReverseBooleans(true, true);
  }

  /** A MOD node still succeeds; the bound candidates are the raised TypeError. */
  lemma ModCandidatesRaise(name: string, a: int, b: int)
    ensures var x := Var(name);
            MaybeUnify(BinaryExpr(x, IntTerm(a), Mod), IntTerm(b))
              == Unified(true, [map[x := Candidates(Err(TypeError))]])
  {
  }

  /** Pairs whose second components differ still match. */
  lemma PairSecondFieldIgnored()
    ensures MaybeUnify(Pair(IntTerm(1), IntTerm(2)), Pair(IntTerm(1), IntTerm(3))) == Unified(true, [])
    ensures Unify(EMPTY_STATE, Pair(IntTerm(1), IntTerm(2)), Pair(IntTerm(1), IntTerm(3))) == []
  {
  }

  /** A ground term as the right pair's second component unifies with itself
      with no delta, so the cross product is empty and the binding made by the
      first components is lost: `unify((x, 1), (5, 2))` yields no state. */
  lemma PairBindingLost(s: State, name: string)
    ensures var x := Var(name);
            MaybeUnify(x, IntTerm(5)) == Unified(true, [map[x := Bound(IntTerm(5))]]) &&
            MaybeUnify(Pair(x, IntTerm(1)), Pair(IntTerm(5), IntTerm(2))) == Unified(true, []) &&
            Unify(s, Pair(x, IntTerm(1)), Pair(IntTerm(5), IntTerm(2))) == []
  {
    var x := Var(name);
    PairCase(x, IntTerm(1), IntTerm(5), IntTerm(2));
  }

  /** A pair of variables against a pair of variables: the first binds across,
      the second variable of the right pair is bound to itself. */
  lemma PairOfVariables(a: string, b: string, c: string, d: string)
    requires a != d
    ensures MaybeUnify(Pair(Var(a), Var(b)), Pair(Var(c), Var(d)))
              == Unified(true, [map[Var(a) := Bound(Var(c)), Var(d) := Bound(Var(d))]])
  {
    var p, q := map[Var(a) := Bound(Var(c))], map[Var(d) := Bound(Var(d))];
    VarOnLeft(Var(a), Var(c));
    VarOnLeft(Var(d), Var(d));
    CrossUnionAt([p], [q], 0, 0);
    assert CrossUnion([p], [q]) == [Union(p, q)];
    assert Union(p, q) == map[Var(a) := Bound(Var(c)), Var(d) := Bound(Var(d))];
  }

  /** `term()` of a list fails, `term()` of a tuple holding a variable or a
      nested tuple builds pairs, and the
      `%` sugar raises NameError. */
  lemma TermConstruction(name: string)
    ensures ToTerm(PyTuple([PyTerm(Var(name)), PyInt(5)])) == Ok(Pair(Var(name), IntTerm(5)))
    ensures ToTerm(PyList([PyInt(1), PyInt(2)])) == Err(TypeError)
    ensures ToTerm(PyTuple([PyInt(1), PyTuple([PyNone, PyStr("a")])]))
              == Ok(Pair(IntTerm(1), Pair(Empty, Value(StrType, NStr("a")))))
    ensures ApplyOperator(Var(name), Mod, PyInt(2)) == Err(NameError)
    ensures ApplyOperator(Var(name), Mod, PyList([])) == Err(TypeError)
  {
  }
}
