/** The substitution state and the unifier: merging binding maps, the frozen
    `State` with its binding map and variable ledger, `walk`, the case analysis
    `maybe_unify`, and the `unify`/`disunify` goals built on it. */
module Microkanren {
  import opened PyRuntime
  import opened Terms
  import opened Expressions

  /** `flatmap(xs, f)`: the items of `f(x)` for each `x` in turn. */
  function FlatMap<T, U>(xs: seq<T>, f: T -> seq<U>): (r: seq<U>)
    ensures r == [] <==> forall i :: 0 <= i < |xs| ==> f(xs[i]) == []
  {
    if xs == [] then [] else f(xs[0]) + FlatMap(xs[1..], f)
  }

  lemma {:induction false} FlatMapMembership<T, U>(xs: seq<T>, f: T -> seq<U>, y: U)
    ensures y in FlatMap(xs, f) <==> exists x :: x in xs && y in f(x)
  {
    if xs != [] {
      FlatMapMembership(xs[1..], f, y);
      assert forall x :: x in xs <==> x == xs[0] || x in xs[1..];
    }
  }

  lemma MulSucc(a: int, n: int)
    ensures (a + 1) * n == a * n + n
  {
  }

  /** Block `i` of `m` blocks of `n` items ends inside the whole. */
  lemma IndexInBlocks(i: nat, j: nat, m: nat, n: nat)
    requires i < m && j < n
    ensures i * n + j < m * n
  {
    var k: nat := m - i - 1;
    assert k * n >= 0;
    assert m * n == i * n + n + k * n;
  }

  lemma {:induction false} FlatMapLength<T, U>(xs: seq<T>, f: T -> seq<U>, n: nat)
    requires forall x :: x in xs ==> |f(x)| == n
    ensures |FlatMap(xs, f)| == |xs| * n
  {
    if xs != [] {
      FlatMapLength(xs[1..], f, n);
      MulSucc(|xs| - 1, n);
    }
  }

  /** When every `f(x)` has `n` items, item `j` of `f(xs[i])` sits at `i * n + j`. */
  lemma {:induction false} FlatMapAt<T, U>(xs: seq<T>, f: T -> seq<U>, n: nat, i: nat, j: nat)
    requires forall x :: x in xs ==> |f(x)| == n
    requires i < |xs| && j < n
    ensures i * n + j < |FlatMap(xs, f)| && FlatMap(xs, f)[i * n + j] == f(xs[i])[j]
  {
    FlatMapLength(xs, f, n);
    IndexInBlocks(i, j, |xs|, n);
    var head, rest := f(xs[0]), FlatMap(xs[1..], f);
    assert FlatMap(xs, f) == head + rest;
    if i > 0 {
      FlatMapAt(xs[1..], f, n, i - 1, j);
      MulSucc(i - 1, n);
      assert xs[1..][i - 1] == xs[i];
    }
  }

  /** `union(x, y)`: a new map with the keys of both, `y` winning on a shared key. */
  function Union<K, V>(x: map<K, V>, y: map<K, V>): (z: map<K, V>)
    ensures z.Keys == x.Keys + y.Keys
    ensures forall k :: k in y ==> z[k] == y[k]
    ensures forall k :: k in x && k !in y ==> z[k] == x[k]
  {
    x + y
  }

  /** What a substitution maps a variable to: a term, or the candidate generator
      of a reverse solve, represented by what consuming it gives. */
  datatype Binding = Bound(term: Term) | Candidates(outcome: Result<seq<Term>>)

  type Delta = map<Term, Binding>

  predicate BindsOnlyVars(d: Delta) {
    forall k :: k in d ==> k.Var?
  }

  /** `(union(p, q) for q in qs)`. */
  function UnionEach(p: Delta, qs: seq<Delta>): (r: seq<Delta>)
    ensures |r| == |qs|
    ensures forall j :: 0 <= j < |qs| ==> r[j] == Union(p, qs[j])
  {
    seq(|qs|, j requires 0 <= j < |qs| => Union(p, qs[j]))
  }

  /** `flatmap(ps, lambda p: (union(p, q) for q in qs))`. */
  function CrossUnion(ps: seq<Delta>, qs: seq<Delta>): (r: seq<Delta>)
    ensures |r| == |ps| * |qs|
  {
    var f := p => UnionEach(p, qs);
    FlatMapLength(ps, f, |qs|);
    FlatMap(ps, f)
  }

  /** Entry `i * |qs| + j` of the cross product is `union(ps[i], qs[j])`: the `ps` outer, the `qs` inner. */
  lemma CrossUnionAt(ps: seq<Delta>, qs: seq<Delta>, i: nat, j: nat)
    requires i < |ps| && j < |qs|
    ensures i * |qs| + j < |CrossUnion(ps, qs)|
    ensures CrossUnion(ps, qs)[i * |qs| + j] == Union(ps[i], qs[j])
  {
    var f := p => UnionEach(p, qs);
    FlatMapAt(ps, f, |qs|, i, j);
    assert f(ps[i]) == UnionEach(ps[i], qs);
  }

  lemma CrossUnionBindsOnlyVars(ps: seq<Delta>, qs: seq<Delta>)
    requires forall d :: d in ps ==> BindsOnlyVars(d)
    requires forall d :: d in qs ==> BindsOnlyVars(d)
    ensures forall d :: d in CrossUnion(ps, qs) ==> BindsOnlyVars(d)
  {
    forall d | d in CrossUnion(ps, qs) ensures BindsOnlyVars(d) {
      FlatMapMembership(ps, p => UnionEach(p, qs), d);
      var p :| p in ps && d in UnionEach(p, qs);
      var j :| 0 <= j < |qs| && d == UnionEach(p, qs)[j];
      assert qs[j] in qs;
    }
  }

  /** The frozen `State`: the binding map and the ledger of variables created so far. */
  datatype State = State(substitutions: map<Term, Binding>, vars: seq<Term>)

  const EMPTY_STATE := State(map[], [])

  /** Only variables are ever bound, and only variables enter the ledger. */
  ghost predicate Valid(s: State) {
    BindsOnlyVars(s.substitutions) && forall i :: 0 <= i < |s.vars| ==> s.vars[i].Var?
  }

  /** `State.substituting(d)`: a state whose map is `union(old map, d)` and
      whose ledger is the same. */
  function Substituting(s: State, d: Delta): (r: State)
    ensures r.vars == s.vars
    ensures r.substitutions.Keys == s.substitutions.Keys + d.Keys
    ensures forall k :: k in d ==> r.substitutions[k] == d[k]
    ensures forall k :: k in s.substitutions && k !in d ==> r.substitutions[k] == s.substitutions[k]
    ensures Valid(s) && BindsOnlyVars(d) ==> Valid(r)
  {
    State(Union(s.substitutions, d), s.vars)
  }

  /** A goal maps a state to the states it yields. */
  type Goal = State -> seq<State>

  /** `State.with_new_var(consumer)`: make a generated variable (its fresh
      identifier is the parameter `uid`), append it to the ledger, and run the
      goal the consumer builds from it on the extended state. */
  function WithNewVar(s: State, uid: string, consumer: Term -> Goal): (r: seq<State>)
    ensures var v := NewVar(None, uid);
            r == consumer(v)(State(s.substitutions, s.vars + [v]))
    ensures Valid(s) ==> Valid(State(s.substitutions, s.vars + [NewVar(None, uid)]))
  {
    var v := NewVar(None, uid);
    var extended := State(s.substitutions, s.vars + [v]);
    consumer(v)(extended)
  }

  /** With a consumer that yields the state it is given, and a state holding
      only the variable it received, `with_new_var` shows the ledger grown by
      the one fresh `var-` variable, the bindings untouched and that same
      variable handed to the consumer. */
  lemma WithNewVarLedger(s: State, uid: string)
    ensures var x := Var("var-" + uid);
            WithNewVar(s, uid, v => (st => [st, State(map[], [v])]))
              == [State(s.substitutions, s.vars + [x]), State(map[], [x])]
    ensures Valid(s) ==> Valid(WithNewVar(s, uid, v => (st => [st]))[0])
  {
  }

  /** A Python reference, as the `is` operator compares it: a term instance or
      one of the five term classes. */
  datatype TermClass = EmptyClass | ValueClass | PairClass | VarClass | BinaryExprClass
  datatype PyRef = Instance(t: Term) | ClassObject(c: TermClass)

  /** `State.walk(t)`. Each dispatch test (`t is Var`, `t is Pair`,
      `t is BinaryExpr`) asks whether the term instance IS the class object,
      which no instance is, so every term falls through to `return t`. */
  function Walk(s: State, t: Term): (r: Term)
    ensures r == t
  {
    if Instance(t) == ClassObject(VarClass) then
      // would return the binding of `t`, walked again
      assert false; t
    else if Instance(t) == ClassObject(PairClass) then
      // would read `t.lhs`, which a Pair does not have
      assert false; t
    else if Instance(t) == ClassObject(BinaryExprClass) then
      // would evaluate the node over its substituted operands
      assert false; t
    else
      t
  }

  /** What `maybe_unify` returns: the success flag and the candidate deltas.
      The `(False, None)` of the Pair case is `Unified(false, [])` here. */
  datatype Unified = Unified(ok: bool, deltas: seq<Delta>)

  /** `State.maybe_unify(lhs, rhs)`, in the source's priority order. It never
      reads the state. */
  function MaybeUnify(lhs: Term, rhs: Term): (r: Unified)
    ensures !r.ok ==> r.deltas == []
    ensures |r.deltas| <= 1
    ensures forall d :: d in r.deltas ==> BindsOnlyVars(d)
    decreases rhs
  {
    if lhs.Empty? && rhs.Empty? then Unified(true, [])
    else if lhs.Value? && rhs.Value? then Unified(PyEq(lhs.value, rhs.value), [])
    else if lhs.Pair? && rhs.Pair? then
      var ps := MaybeUnify(lhs.p, rhs.p);
      if !ps.ok then Unified(false, [])
      else
        // the second components compared are `rhs.q` and `rhs.q`
        var qs := MaybeUnify(rhs.q, rhs.q);
        if !qs.ok then Unified(false, [])
        else
          CrossUnionBindsOnlyVars(ps.deltas, qs.deltas);
          Unified(true, CrossUnion(ps.deltas, qs.deltas))
    else if lhs.Var? then Unified(true, [map[lhs := Bound(rhs)]])
    else if rhs.Var? then Unified(true, [map[rhs := Bound(lhs)]])
    // `r is not None` holds of every generator object: these cases never fail
    else if lhs.BinaryExpr? then
      if lhs.lhs.Var? then
        Unified(true, [map[lhs.lhs := Candidates(ReverseEvaluateLhs(lhs.rhs, lhs.op, rhs))]])
      else if lhs.rhs.Var? then
        Unified(true, [map[lhs.rhs := Candidates(ReverseEvaluateRhs(lhs.lhs, lhs.op, rhs))]])
      else Unified(false, [])
    else if rhs.BinaryExpr? then
      if rhs.lhs.Var? then
        Unified(true, [map[rhs.lhs := Candidates(ReverseEvaluateLhs(rhs.rhs, rhs.op, lhs))]])
      else if rhs.rhs.Var? then
        Unified(true, [map[rhs.rhs := Candidates(ReverseEvaluateRhs(rhs.lhs, rhs.op, lhs))]])
      else Unified(false, [])
    else Unified(false, [])
  }

  /** `State.unify(lhs, rhs)`: one `substituting(d)` per delta, in order, and
      nothing when the flag is false. */
  function Unify(s: State, lhs: Term, rhs: Term): (r: seq<State>)
    ensures var u := MaybeUnify(lhs, rhs);
            |r| == (if u.ok then |u.deltas| else 0) &&
            forall i :: 0 <= i < |r| ==> r[i] == Substituting(s, u.deltas[i])
    ensures |r| <= 1
    ensures forall i :: 0 <= i < |r| ==> r[i].vars == s.vars
    ensures Valid(s) ==> forall i :: 0 <= i < |r| ==> Valid(r[i])
  {
    var u := MaybeUnify(Walk(s, lhs), Walk(s, rhs));
    if u.ok then seq(|u.deltas|, i requires 0 <= i < |u.deltas| => Substituting(s, u.deltas[i]))
    else []
  }

  /** `State.disunify(lhs, rhs)`: the unchanged state, once, exactly when the
      flag is false. */
  function Disunify(s: State, lhs: Term, rhs: Term): (r: seq<State>)
    ensures r == if MaybeUnify(lhs, rhs).ok then [] else [s]
  {
    var u := MaybeUnify(Walk(s, lhs), Walk(s, rhs));
    if !u.ok then [s] else []
  }

  /** The two goals never both yield, and they yield nothing at all exactly
      when the flag is true with no delta. */
  lemma UnifyDisunifyExclusive(s: State, lhs: Term, rhs: Term)
    ensures |Unify(s, lhs, rhs)| + |Disunify(s, lhs, rhs)| <= 1
    ensures |Disunify(s, lhs, rhs)| == 1 <==> !MaybeUnify(lhs, rhs).ok
    ensures Unify(s, lhs, rhs) == [] && Disunify(s, lhs, rhs) == [] <==>
              MaybeUnify(lhs, rhs) == Unified(true, [])
  {
  }

  /** Two `Empty`s succeed and two `Value`s succeed exactly when their carried
      values are `==`, in both cases with no delta; the type tags are not
      compared. An `Empty` facing a `Value` fails. */
  lemma ScalarCases(a: Term, b: Term)
    requires (a.Empty? || a.Value?) && (b.Empty? || b.Value?)
    ensures a.Empty? && b.Empty? ==> MaybeUnify(a, b) == Unified(true, [])
    ensures a.Value? && b.Value? ==> MaybeUnify(a, b) == Unified(PyEq(a.value, b.value), [])
    ensures a.Empty? != b.Empty? ==> MaybeUnify(a, b) == Unified(false, [])
  {
  }

  /** Two pairs: the flag is the conjunction of the first components' flag and
      the flag of `rhs.q` against itself; the deltas are then every
      `union(p, q)`, the first components' deltas outer and the others inner. */
  lemma {:induction false} PairCase(a: Term, b: Term, c: Term, d: Term)
    ensures var r, ps, qs := MaybeUnify(Pair(a, b), Pair(c, d)), MaybeUnify(a, c), MaybeUnify(d, d);
            (r.ok <==> ps.ok && qs.ok) &&
            (r.ok ==> |r.deltas| == |ps.deltas| * |qs.deltas|) &&
            (r.ok ==> forall i, j :: 0 <= i < |ps.deltas| && 0 <= j < |qs.deltas| ==>
                        i * |qs.deltas| + j < |r.deltas| &&
                        r.deltas[i * |qs.deltas| + j] == Union(ps.deltas[i], qs.deltas[j]))
  {
    var ps, qs := MaybeUnify(a, c), MaybeUnify(d, d);
    if ps.ok && qs.ok {
      forall i, j | 0 <= i < |ps.deltas| && 0 <= j < |qs.deltas|
        ensures i * |qs.deltas| + j < |CrossUnion(ps.deltas, qs.deltas)|
        ensures CrossUnion(ps.deltas, qs.deltas)[i * |qs.deltas| + j] == Union(ps.deltas[i], qs.deltas[j])
      {
        CrossUnionAt(ps.deltas, qs.deltas, i, j);
      }
    }
  }

  /** A variable on the left binds to the whole right-hand term. */
  lemma VarOnLeft(lhs: Term, rhs: Term)
    requires lhs.Var?
    ensures MaybeUnify(lhs, rhs) == Unified(true, [map[lhs := Bound(rhs)]])
  {
  }

  /** A variable on the right binds to the left-hand term when the left is no variable. */
  lemma VarOnRight(lhs: Term, rhs: Term)
    requires rhs.Var? && !lhs.Var?
    ensures MaybeUnify(lhs, rhs) == Unified(true, [map[rhs := Bound(lhs)]])
  {
  }

  /** An expression node on the left, facing no variable, succeeds with one
      delta binding its variable operand (the left one first) to the solver's
      candidates; with no variable operand it fails, even when the right side
      is an expression node that could be solved. */
  lemma BinaryExprOnLeft(lhs: Term, rhs: Term)
    requires lhs.BinaryExpr? && !rhs.Var?
    ensures lhs.lhs.Var? ==>
              MaybeUnify(lhs, rhs) ==
              Unified(true, [map[lhs.lhs := Candidates(ReverseEvaluateLhs(lhs.rhs, lhs.op, rhs))]])
    ensures !lhs.lhs.Var? && lhs.rhs.Var? ==>
              MaybeUnify(lhs, rhs) ==
              Unified(true, [map[lhs.rhs := Candidates(ReverseEvaluateRhs(lhs.lhs, lhs.op, rhs))]])
    ensures !lhs.lhs.Var? && !lhs.rhs.Var? ==> MaybeUnify(lhs, rhs) == Unified(false, [])
  {
  }

  /** The mirror case: an expression node on the right, facing neither a
      variable nor an expression node. */
  lemma BinaryExprOnRight(lhs: Term, rhs: Term)
    requires rhs.BinaryExpr? && !lhs.Var? && !lhs.BinaryExpr?
    ensures rhs.lhs.Var? ==>
              MaybeUnify(lhs, rhs) ==
              Unified(true, [map[rhs.lhs := Candidates(ReverseEvaluateLhs(rhs.rhs, rhs.op, lhs))]])
    ensures !rhs.lhs.Var? && rhs.rhs.Var? ==>
              MaybeUnify(lhs, rhs) ==
              Unified(true, [map[rhs.rhs := Candidates(ReverseEvaluateRhs(rhs.lhs, rhs.op, lhs))]])
    ensures !rhs.lhs.Var? && !rhs.rhs.Var? ==> MaybeUnify(lhs, rhs) == Unified(false, [])
  {
  }

  /** The Pair case never looks at the left pair's second component. */
  lemma PairIgnoresLeftSecond(a: Term, b: Term, b': Term, rhs: Term)
    requires rhs.Pair?
    ensures MaybeUnify(Pair(a, b), rhs) == MaybeUnify(Pair(a, b'), rhs)
  {
  }

  /** Two ground terms match, as written, when their first components match
      all the way down the chain of `p` fields: scalars by Python `==`, pairs
      by their first components only. */
  ghost predicate FirstComponentsMatch(lhs: Term, rhs: Term) {
    match (lhs, rhs)
    case (Empty, Empty) => true
    case (Value(_, a), Value(_, b)) => PyEq(a, b)
    case (Pair(a, _), Pair(c, _)) => FirstComponentsMatch(a, c)
    case _ => false
  }

  /** Structural equality of ground terms, with Python `==` on the scalars. */
  ghost predicate GroundEqual(lhs: Term, rhs: Term) {
    match (lhs, rhs)
    case (Empty, Empty) => true
    case (Value(_, a), Value(_, b)) => PyEq(a, b)
    case (Pair(a, b), Pair(c, d)) => GroundEqual(a, c) && GroundEqual(b, d)
    case _ => false
  }

  lemma {:induction false} FirstComponentsMatchReflexive(t: Term)
    requires Ground(t)
    ensures FirstComponentsMatch(t, t)
  {
    match t
    case Pair(a, _) => FirstComponentsMatchReflexive(a);
    case Value(_, n) => PyEqIsEquivalence(n, n, n);
    case Empty =>
  }

  /** On ground terms `maybe_unify` never yields a delta, and its flag is
      exactly `FirstComponentsMatch`. */
  lemma {:induction false} GroundMaybeUnify(lhs: Term, rhs: Term)
    requires Ground(lhs) && Ground(rhs)
    ensures MaybeUnify(lhs, rhs) == Unified(FirstComponentsMatch(lhs, rhs), [])
    decreases rhs
  {
    if lhs.Pair? && rhs.Pair? {
      GroundMaybeUnify(lhs.p, rhs.p);
      GroundMaybeUnify(rhs.q, rhs.q);
      FirstComponentsMatchReflexive(rhs.q);
    }
  }

  /** Structurally equal ground terms are accepted; the converse fails, since
      the second components are never compared. */
  lemma {:induction false} GroundEqualMatches(lhs: Term, rhs: Term)
    requires GroundEqual(lhs, rhs)
    ensures FirstComponentsMatch(lhs, rhs)
  {
    match (lhs, rhs)
    case (Pair(a, _), Pair(c, _)) => GroundEqualMatches(a, c);
    case _ =>
  }

  /** For ground terms `unify` yields no state at all, even for equal terms,
      and `disunify` yields the state only when the first components differ. */
  lemma GroundUnifyYieldsNothing(s: State, lhs: Term, rhs: Term)
    requires Ground(lhs) && Ground(rhs)
    ensures Unify(s, lhs, rhs) == []
    ensures Disunify(s, lhs, rhs) == if FirstComponentsMatch(lhs, rhs) then [] else [s]
  {
    GroundMaybeUnify(lhs, rhs);
  }
}
