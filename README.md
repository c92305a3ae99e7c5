# pykanren kernel in Dafny

This project models the unification kernel of pykanren, a small microKanren-style
logic library in Python. It covers three parts:

- **Terms** (`term.dfy`, module `Terms`). There are five term variants: `Empty`,
  `Value(type, value)`, `Pair(p, q)`, `Var(name)` and `BinaryExpr(lhs, rhs, op)`.
  The `term()` smart constructor turns Python values into terms. The operator
  overloads `+ - * // % & |` on a term build expression nodes, and `var()` makes
  variables.
- **Expressions** (`expressions.dfy`, module `Expressions`). `evaluate` applies
  the native operator table to two `Value` terms. The two reverse solvers
  `reverse_evaluate_lhs` and `reverse_evaluate_rhs` take one operand and the
  result and yield candidate terms for the missing operand.
- **The microKanren state** (`microkanren.dfy`, module `Microkanren`). A frozen
  `State` holds a binding map and a ledger of the variables created so far. The
  module also covers the merge helpers `flatmap`, `union`, `substituting` and
  `with_new_var`, then `walk`, the case analysis `maybe_unify`, and the goals
  `unify` and `disunify` built on it.

`native.dfy` (module `PyRuntime`) holds the slice of the Python runtime these
parts use:

- the scalars a `Value` carries: `None`, `bool`, `int` and `str`;
- truthiness and `==`;
- floor division and modulo;
- the functions of the `operator` module that the tables name.

A Python exception is an explicit `Err` value.

`kanren_examples.dfy` (module `KanrenExamples`) holds concrete instances. One is
the repository's arithmetic test, `9 = x + 5`.

The model follows the code as written, including behaviour its authors evidently
did not intend. Each of these is stated and proved:

- `walk` is the identity. Each dispatch test compares a term instance to a class
  object with `is`, which never holds.
- Two `Empty` terms, or two equal `Value`s, succeed with no delta. So `unify`
  yields no state for them, and `disunify` yields none either.
- The Pair case unifies `rhs.q` with itself, so the left pair's second component
  is never looked at.
- When `rhs.q` is a ground term, that self-unification succeeds with no delta.
  The cross product is then empty, and the bindings made by the first
  components are lost: `unify((x, 1), (5, 2))` yields no state.
- The expression branches always succeed, because a generator object is never
  `None`. The variable is bound to the candidates the generator would yield. An
  exception inside the generator is bound as it is, rather than making
  unification fail.
- The reverse solvers receive `(other operand, result)` in that order. So
  `9 = x + 5` proposes `x = 5 - 9 = -4`.
- MOD reversal calls a zero-argument lambda with two arguments, so consuming its
  candidates raises `TypeError`.
- `term()` of a list always raises.
- The `%` overload names the misspelled `BInaryOp` and raises `NameError`, after
  `term(rhs)` has been evaluated.

Python's `bool` is a subclass of `int`, and the model keeps that: `True == 1`,
and `True + 1 == 2`. Integers are unbounded, as in Python. `//` and `%` round
toward negative infinity, as in Python, through `FloorDiv` and `PyMod`.

## Model

| member | source | states |
|---|---|---|
| PyRuntime.PyEqIsEquivalence | pykanren/microkanren.py:64 | Python `==` on the scalars a `Value` carries is reflexive, symmetric and transitive. |
| PyRuntime.FloorDiv | pykanren/expressions.py:9 | The quotient `q` satisfies `b*q <= a < b*q + b` for a positive divisor and the mirror bounds for a negative one, i.e. it is rounded toward negative infinity. |
| PyRuntime.PyMod | pykanren/expressions.py:10 | `a == b * (a // b) + a % b`, and the remainder has the sign of the divisor and is smaller than it in magnitude. |
| PyRuntime.FloorDivOfMultiple | pykanren/expressions.py:23 | `(b * a) // a == b` for every non-zero `a`. |
| Terms.ToTerm | pykanren/term.py:81-101 | A term is returned unchanged, `None` gives `Empty`, a list or an unsupported type raises TypeError, a tuple whose length is not 2 raises TypeError, and a 2-tuple gives `Pair(term(v[0]), term(v[1]))`, or the first error of the two conversions. TypeError is the only exception. |
| Terms.ToTermSucceedsIff | pykanren/term.py:81-101 | `term(v)` succeeds exactly when `v` holds no list and no unsupported object and every tuple in it is a pair, at any depth. |
| Terms.ToTermRoundTrip | pykanren/term.py:85-101 | On plain data (scalars and nested 2-tuples), `term()` gives a ground term that reads back as the same data. |
| Terms.NativeTerm | pykanren/term.py:98-101 | `term()` of a non-`None` scalar is a `Value` tagged with the scalar's exact runtime type. |
| Terms.ApplyOperator | pykanren/term.py:7-26 | The sugar succeeds exactly when the operator is not `%` and `term(rhs)` succeeds. It then builds `BinaryExpr(lhs, term(rhs), op)` with `lhs` unchanged. A `term(rhs)` error comes first, and `%` otherwise raises NameError. |
| Terms.NewVar | pykanren/term.py:104-105 | `var(name)` keeps a truthy name. Otherwise the name is `var-` followed by the fresh identifier. |
| Terms.FreshVarsDiffer | pykanren/term.py:105 | Generated variables with different identifiers are different terms. |
| Expressions.NativeOperator | pykanren/expressions.py:5-13 | No operator returns `None`, and AND/OR on two booleans are logical and/or. |
| Expressions.Evaluate | pykanren/expressions.py:15-16 | A non-`Value` operand raises AttributeError. Otherwise `evaluate` succeeds exactly when the native operator does, and its result is `term()` of the native result: a `Value` whose tag is the result's type. |
| Expressions.EvaluateOnInts | pykanren/expressions.py:5-16 | On integers, `+ - *` are exact and `//` and `%` are Python floor division and modulo. A zero divisor raises ZeroDivisionError, and `&` on integers gives the `Unsupported` error, where Python computes the bitwise and. |
| Expressions.ReverseLhsImpl | pykanren/expressions.py:19-27 | Called with the right operand `x` and the result `y`: on numbers PLUS gives `x - y`, MINUS `x + y`, TIMES `x // y` (ZeroDivisionError when `y` is 0) and DIV `x * y`; MOD raises TypeError; AND gives `x` when `y` is truthy, else `[False, True]`; OR gives `[False, True]` when `x` is truthy, else `y`. |
| Expressions.ReverseRhsImpl | pykanren/expressions.py:39-47 | Called with the left operand `x` and the result `y`: on numbers PLUS gives `x - y`, MINUS `-(x - y)`, TIMES `x // y` and DIV `y // x` (ZeroDivisionError on a zero divisor); MOD raises TypeError; AND gives `x` when `y` is truthy, else `[False, True]`; OR gives `x` when `y` is falsy, else `[False, True]`. |
| Expressions.Yielded | pykanren/expressions.py:31-36 | A `None` table answer yields nothing, a scalar yields one term, and a list yields `term()` of each element in order (`[False, True]` gives the two boolean terms). |
| Expressions.RunSolver | pykanren/expressions.py:29-36 | The table runs on the operand's value, then the result's value. A non-`Value` raises AttributeError. Otherwise the generator succeeds exactly when the table entry does, and it yields what `Yielded` gives for the answer. |
| Expressions.ReverseEvaluateLhs | pykanren/expressions.py:19-36 | A non-`Value` raises AttributeError, MOD always fails, and AND/OR on values never fail. At most two candidates come out, each a `Value` tagged with its runtime type. |
| Expressions.ReverseEvaluateRhs | pykanren/expressions.py:39-56 | The same guarantees for the right-operand solver. |
| Expressions.ReverseLhsMinusInverts | pykanren/expressions.py:21 | Left MINUS proposes `rhs + result`, and that candidate minus `rhs` evaluates to `result`. |
| Expressions.ReverseLhsDivInverts | pykanren/expressions.py:23 | Left DIV proposes `rhs * result` for every `rhs`. For a non-zero `rhs` that candidate `// rhs` evaluates to `result`; for `rhs == 0` the candidate is 0 and evaluating it raises ZeroDivisionError. |
| Expressions.ReverseLhsPlusOrder | pykanren/expressions.py:20-30 | Left PLUS proposes `rhs - result`, because of the argument order. The candidate plus `rhs` gives `result` exactly when `rhs == result`. |
| Expressions.ReverseLhsTimes | pykanren/expressions.py:22-30 | Left TIMES proposes `rhs // result`, and raises ZeroDivisionError when the result is 0. |
| Expressions.ReverseRhsPlusMinusOrder | pykanren/expressions.py:40-50 | Right PLUS proposes `lhs - result` and right MINUS `-(lhs - result)`. Each candidate evaluates back to `result` exactly when `lhs == result`. |
| Expressions.ReverseRhsTimesDiv | pykanren/expressions.py:42-50 | Right TIMES proposes `lhs // result` and raises ZeroDivisionError when the result is 0. Right DIV proposes `result // lhs` and raises ZeroDivisionError when `lhs` is 0. |
| Expressions.ReverseBooleans | pykanren/expressions.py:25-46 | AND yields the known operand when the result is true, else `False` then `True`. Left OR yields `False, True` when `rhs` is true, else `result`. Right OR yields `lhs` when the result is false, else `False, True`. |
| Expressions.NoneAnswerYieldsNothing | pykanren/expressions.py:31-32 | A table answer of `None` ends the generator with no candidate. |
| Microkanren.FlatMap | pykanren/microkanren.py:12-15 | `flatmap(xs, f)` is empty exactly when every `f(x)` is empty; `FlatMapMembership`, `FlatMapLength` and `FlatMapAt` state its contents and order. |
| Microkanren.FlatMapMembership | pykanren/microkanren.py:12-15 | An item is in `flatmap(xs, f)` exactly when it is in `f(x)` for some `x` in `xs`. |
| Microkanren.FlatMapLength | pykanren/microkanren.py:12-15 | When every `f(x)` has `n` items, `flatmap` has `n` items per element of `xs`. |
| Microkanren.FlatMapAt | pykanren/microkanren.py:12-15 | When every `f(x)` has `n` items, item `j` of `f(xs[i])` sits at position `i*n + j`: the `xs` outer and `f(x)` inner. |
| Microkanren.Union | pykanren/microkanren.py:18-21 | The result has exactly the keys of both maps. A key of `y` maps to `y`'s value, and a key only in `x` keeps `x`'s value. The inputs are values and are not modified. |
| Microkanren.UnionEach | pykanren/microkanren.py:71 | `(union(p, q) for q in qs)` has one entry per `q`, in order. |
| Microkanren.CrossUnionAt | pykanren/microkanren.py:71 | Entry `i * len(qs) + j` of the Pair case's cross product is `union(ps[i], qs[j])`. |
| Microkanren.CrossUnion | pykanren/microkanren.py:71 | `flatmap(ps, lambda p: (union(p, q) for q in qs))` has `len(ps) * len(qs)` entries; `CrossUnionAt` gives the entry at each position. |
| Microkanren.CrossUnionBindsOnlyVars | pykanren/microkanren.py:66-71 | If every delta in `ps` and `qs` binds only variables, so does every delta of their cross product. |
| Microkanren.Substituting | pykanren/microkanren.py:30-31 | The new map is the union of the old map and the delta, the ledger is unchanged, and a state binding only variables still does so after a delta that binds only variables. |
| Microkanren.WithNewVar | pykanren/microkanren.py:34-38 | The consumer is called once, with the generated variable. Its goal runs on a state with the same bindings and the ledger extended by that variable, and that state is valid when the original one is. |
| Microkanren.WithNewVarLedger | pykanren/microkanren.py:34-38 | The variable handed to the consumer and the one appended to the ledger are the same `var-` variable. The bindings are untouched, and validity is kept. |
| Microkanren.Walk | pykanren/microkanren.py:41-53 | `walk(t) == t` for every term, because no term instance `is` a class object. |
| Microkanren.MaybeUnify | pykanren/microkanren.py:56-97 | A failed unification carries no delta. There is at most one delta, and every delta binds only variables. |
| Microkanren.Unify | pykanren/microkanren.py:100-104 | `unify` yields one `substituting(d)` per delta of `maybe_unify`, in order, and nothing when the flag is false. So it yields at most one state, with the ledger unchanged and validity kept. |
| Microkanren.Disunify | pykanren/microkanren.py:107-110 | `disunify` yields the unchanged state once exactly when the flag is false, and nothing otherwise. |
| Microkanren.UnifyDisunifyExclusive | pykanren/microkanren.py:100-110 | The two goals never both yield. `disunify` yields exactly when unification fails. Both yield nothing exactly when `maybe_unify` gives `(True, [])`. |
| Microkanren.ScalarCases | pykanren/microkanren.py:60-64 | Two `Empty`s give `(True, [])`. Two `Value`s give `(lhs.value == rhs.value, [])`, comparing the carried values and not the type tags. An `Empty` facing a `Value` gives `(False, [])`. |
| Microkanren.PairCase | pykanren/microkanren.py:66-71 | Two pairs succeed exactly when the first components unify and `rhs.q` unifies with itself. The deltas are then `union(p, q)` for every pair of deltas, the first components' deltas outer and the others inner. |
| Microkanren.VarOnLeft | pykanren/microkanren.py:73-74 | A variable on the left gives exactly `(True, [{lhs: rhs}])`, whatever the right side is. |
| Microkanren.VarOnRight | pykanren/microkanren.py:76-77 | With no variable on the left, a variable on the right gives exactly `(True, [{rhs: lhs}])`. |
| Microkanren.BinaryExprOnLeft | pykanren/microkanren.py:79-86 | An expression on the left, facing no variable, binds its variable operand (the left one first) to the reverse solver's candidates, and always succeeds. With no variable operand it fails, even when the right side is a solvable expression. |
| Microkanren.BinaryExprOnRight | pykanren/microkanren.py:88-97 | The mirror case for an expression on the right, facing a non-variable, non-expression left side. |
| Microkanren.PairIgnoresLeftSecond | pykanren/microkanren.py:66-71 | Against a pair, the outcome does not depend on the left pair's second component. |
| Microkanren.FirstComponentsMatchReflexive | pykanren/microkanren.py:69 | Every ground term matches itself along its first components, so the self-unification of `rhs.q` succeeds on ground terms. |
| Microkanren.GroundMaybeUnify | pykanren/microkanren.py:60-71 | On ground terms `maybe_unify` gives no delta. Its flag is exactly "the scalars compare equal with Python `==` all the way down the chain of first components". |
| Microkanren.GroundEqualMatches | pykanren/microkanren.py:66-71 | Structurally equal ground terms are accepted by that test. |
| Microkanren.GroundUnifyYieldsNothing | pykanren/microkanren.py:100-110 | For ground terms `unify` yields nothing, and `disunify` yields the state exactly when the first components differ. |
| KanrenExamples.ArithmeticTest | test_kanren.py:8-15 | `unify(term(9), term(x) + term(5))` from the empty state yields one state. It binds `x` to the candidates `[Value(int, -4)]`. |
| KanrenExamples.ArithmeticTestCandidateIsWrong | test_kanren.py:11 | The candidate does not solve the equation: `-4 + 5` evaluates to 1. |
| KanrenExamples.BindVariable | pykanren/microkanren.py:73-110 | A variable against a value yields one state binding it, and `disunify` yields nothing. |
| KanrenExamples.DistinctValues | pykanren/microkanren.py:63-64 | Unequal values: `unify` yields nothing and `disunify` yields the state. |
| KanrenExamples.EqualValuesYieldNothing | pykanren/microkanren.py:63-64 | Equal values: neither goal yields a state. |
| KanrenExamples.TagIgnored | pykanren/microkanren.py:64 | `True` matches `1`, and `"1"` does not match `1`. The type tag is not compared. |
| KanrenExamples.AmbiguousOr | pykanren/expressions.py:26 | An OR node over `x` and `True`, facing `True`, gives one state, binding `x` to both candidates `False, True`. |
| KanrenExamples.ModCandidatesRaise | pykanren/expressions.py:24 | A MOD node still unifies, and its bound candidates are the TypeError. |
| KanrenExamples.PairSecondFieldIgnored | pykanren/microkanren.py:69 | `(1, 2)` matches `(1, 3)`. |
| KanrenExamples.PairBindingLost | pykanren/microkanren.py:66-71 | `unify((x, 1), (5, 2))` yields no state: the first components bind `x` to 5, but `rhs.q` against itself gives no delta, so the cross product is empty. |
| KanrenExamples.PairOfVariables | pykanren/microkanren.py:66-74 | `(a, b)` against `(c, d)` binds `a` to `c` and `d` to itself. |
| KanrenExamples.TermConstruction | pykanren/term.py:19-96 | A list raises TypeError, and a tuple holding a variable or a nested tuple becomes pairs. `%` raises NameError, or first the TypeError of `term(rhs)`. |

## Left out

- `pykanren/api.py`: the one-line closures that wrap `State.unify`, `State.disunify` and `State.with_new_var` as goals, and `runGoal`, which starts from the empty state. They have no logic of their own; the goals are the functions `Unify`, `Disunify` and `WithNewVar` applied to a state. The `goal` module they import is not part of this model.
- `uuid.uuid4()` in `var()`: randomness. The fresh identifier is the parameter `uid`. `FreshVarsDiffer` states what distinct identifiers give; their uniqueness itself is not modelled.
- Floats, and float arithmetic in the operator tables.
- Bitwise `&` and `|` on integers other than two booleans: these give the explicit error `Unsupported`, where Python would compute the bitwise result.
- `%` string formatting: a string left operand gives `Unsupported`, where Python would format the string or raise TypeError/ValueError, depending on the format.
- Generator laziness. A generator is modelled by what consuming it gives: the items it yields, or the exception it raises. The solvers raise before their first item, so this loses nothing. The cross product of the Pair case in Python re-iterates a generator of deltas. At most one delta ever exists (proved in `Microkanren.MaybeUnify`), so that exhaustion never changes the result.
- Dictionary insertion order: a binding map is a `map`, so the order in which `__repr__` or `items()` list bindings is not modelled.
- Object identity: `is` on terms and the `dict` lookups by hash. Terms are values, compared structurally.
- The Pair case returns `(False, None)`, which here is `Unified(false, [])`. The callers never read the deltas of a failed unification.
- The `__repr__` methods: pretty-printing only.
- Goals yield finite sequences of states. An infinite stream of states is not modelled.
- `maybe_unify` is a method on `State`, but it never reads the state, so `MaybeUnify` takes no state.
- Expressions.ReverseEvaluateLhs: the exact candidates are stated per operator, in the lemmas beside it, on integers and booleans only, not for strings or mixed operands.
- Expressions.ReverseEvaluateRhs: likewise, stated per operator on integers and booleans only.
