/** Forward evaluation of an expression node over two `Value` terms, and the two
    reverse solvers that, given one operand and the result, produce candidate
    terms for the missing operand. */
module Expressions {
  import opened PyRuntime
  import opened Terms

  /** `OPERATOR_IMPLS[op](a, b)`. */
  function NativeOperator(op: BinaryOp, a: Native, b: Native): (r: Result<Native>)
    ensures r.Ok? ==> !r.value.NNone?
    ensures op == And && a.NBool? && b.NBool? ==> r == Ok(NBool(a.b && b.b))
    ensures op == Or && a.NBool? && b.NBool? ==> r == Ok(NBool(a.b || b.b))
  {
    match op
    case Plus => Add(a, b)
    case Minus => Sub(a, b)
    case Times => Mul(a, b)
    case Div => FloorDivide(a, b)
    case Mod => Modulo(a, b)
    case And => BitAnd(a, b)
    case Or => BitOr(a, b)
  }

  /** `evaluate(lhs, op, rhs)`: apply the native operator to the carried values
      and wrap the outcome with `term()`. Only `Value` terms have a `.value`. */
  function Evaluate(lhs: Term, op: BinaryOp, rhs: Term): (r: Result<Term>)
    ensures !lhs.Value? || !rhs.Value? ==> r == Err(AttributeError)
    ensures r.Ok? ==> r.value.Value? && r.value.ty == TypeOf(r.value.value)
    ensures lhs.Value? && rhs.Value? ==>
              (r.Ok? <==> NativeOperator(op, lhs.value, rhs.value).Ok?)
    ensures r.Ok? ==> ToTerm(FromNative(NativeOperator(op, lhs.value, rhs.value).value)) == r
  {
    if !lhs.Value? || !rhs.Value? then Err(AttributeError)
    else
      match NativeOperator(op, lhs.value, rhs.value)
      case Err(e) => Err(e)
      case Ok(n) => Ok(NativeTerm(n))
  }

  function IntTerm(i: int): Term {
    Value(IntType, NInt(i))
  }

  function BoolTerm(b: bool): Term {
    Value(BoolType, NBool(b))
  }

  /** On integers the evaluator is Python arithmetic, with floor division and
      modulo, and division by zero raising. */
  lemma EvaluateOnInts(a: int, b: int)
    ensures Evaluate(IntTerm(a), Plus, IntTerm(b)) == Ok(IntTerm(a + b))
    ensures Evaluate(IntTerm(a), Minus, IntTerm(b)) == Ok(IntTerm(a - b))
    ensures Evaluate(IntTerm(a), Times, IntTerm(b)) == Ok(IntTerm(a * b))
    ensures b == 0 ==> Evaluate(IntTerm(a), Div, IntTerm(b)) == Err(ZeroDivisionError)
    ensures b == 0 ==> Evaluate(IntTerm(a), Mod, IntTerm(b)) == Err(ZeroDivisionError)
    ensures b != 0 ==> Evaluate(IntTerm(a), Div, IntTerm(b)) == Ok(IntTerm(FloorDiv(a, b)))
    ensures b != 0 ==> Evaluate(IntTerm(a), Mod, IntTerm(b)) == Ok(IntTerm(PyMod(a, b)))
    ensures Evaluate(IntTerm(a), And, IntTerm(b)).Err?
  {
  }

  /** What a reverse table entry returns: one value, or the list `[False, True]`. */
  datatype Solved = Scalar(n: Native) | Choices(items: seq<Native>)

  const BOTH_BOOLEANS: seq<Native> := [NBool(false), NBool(true)]

  /** `REVERSE_LHS_IMPLS[op](x, y)`, called with `x` the right operand and `y`
      the result. The `Mod` entry takes no arguments, so the call raises. */
  function ReverseLhsImpl(op: BinaryOp, x: Native, y: Native): (r: Result<Solved>)
    ensures Numeric(x) && Numeric(y) ==>
              (op == Plus ==> r == Ok(Scalar(NInt(AsInt(x) - AsInt(y))))) &&
              (op == Minus ==> r == Ok(Scalar(NInt(AsInt(x) + AsInt(y))))) &&
              (op == Times && AsInt(y) != 0 ==> r == Ok(Scalar(NInt(FloorDiv(AsInt(x), AsInt(y)))))) &&
              (op == Times && AsInt(y) == 0 ==> r == Err(ZeroDivisionError)) &&
              (op == Div ==> r == Ok(Scalar(NInt(AsInt(x) * AsInt(y)))))
    ensures op == Mod ==> r == Err(TypeError)
    ensures op == And ==> r == Ok(if Truthy(y) then Scalar(x) else Choices(BOTH_BOOLEANS))
    ensures op == Or ==> r == Ok(if Truthy(x) then Choices(BOTH_BOOLEANS) else Scalar(y))
  {
    match op
    case Plus => Solve(Sub(x, y))
    case Minus => Solve(Add(x, y))
    case Times => Solve(FloorDivide(x, y))
    case Div => Solve(Mul(x, y))
    case Mod => Err(TypeError)
    case And => Ok(if Truthy(y) then Scalar(x) else Choices(BOTH_BOOLEANS))
    case Or => Ok(if Truthy(x) then Choices(BOTH_BOOLEANS) else Scalar(y))
  }

  /** `REVERSE_RHS_IMPLS[op](x, y)`, called with `x` the left operand and `y`
      the result. */
  function ReverseRhsImpl(op: BinaryOp, x: Native, y: Native): (r: Result<Solved>)
    ensures Numeric(x) && Numeric(y) ==>
              (op == Plus ==> r == Ok(Scalar(NInt(AsInt(x) - AsInt(y))))) &&
              (op == Minus ==> r == Ok(Scalar(NInt(AsInt(y) - AsInt(x))))) &&
              (op == Times && AsInt(y) != 0 ==> r == Ok(Scalar(NInt(FloorDiv(AsInt(x), AsInt(y)))))) &&
              (op == Times && AsInt(y) == 0 ==> r == Err(ZeroDivisionError)) &&
              (op == Div && AsInt(x) != 0 ==> r == Ok(Scalar(NInt(FloorDiv(AsInt(y), AsInt(x)))))) &&
              (op == Div && AsInt(x) == 0 ==> r == Err(ZeroDivisionError))
    ensures op == Mod ==> r == Err(TypeError)
    ensures op == And ==> r == Ok(if Truthy(y) then Scalar(x) else Choices(BOTH_BOOLEANS))
    ensures op == Or ==> r == Ok(if !Truthy(y) then Scalar(x) else Choices(BOTH_BOOLEANS))
  {
    match op
    case Plus => Solve(Sub(x, y))
    case Minus =>
      (match Sub(x, y)
       case Err(e) => Err(e)
       case Ok(d) => Solve(Neg(d)))
    case Times => Solve(FloorDivide(x, y))
    case Div => Solve(FloorDivide(y, x))
    case Mod => Err(TypeError)
    case And => Ok(if Truthy(y) then Scalar(x) else Choices(BOTH_BOOLEANS))
    case Or => Ok(if !Truthy(y) then Scalar(x) else Choices(BOTH_BOOLEANS))
  }

  function Solve(r: Result<Native>): Result<Solved> {
    match r
    case Err(e) => Err(e)
    case Ok(n) => Ok(Scalar(n))
  }

  /** The items the solver generator yields for a table result: none for
      `None`, `term()` of each element of a list, otherwise `term()` of the value. */
  function Yielded(s: Solved): (ts: seq<Term>)
    ensures s.Scalar? ==> ts == if s.n.NNone? then [] else [Value(TypeOf(s.n), s.n)]
    ensures s.Choices? ==> |ts| == |s.items|
    ensures s.Choices? ==> forall i :: 0 <= i < |ts| ==> ts[i] == NativeTerm(s.items[i])
    ensures s == Choices(BOTH_BOOLEANS) ==> ts == [BoolTerm(false), BoolTerm(true)]
  {
    match s
    case Scalar(n) => if n.NNone? then [] else [NativeTerm(n)]
    case Choices(items) =>
      var ts := seq(|items|, i requires 0 <= i < |items| => NativeTerm(items[i]));
      assert items == BOTH_BOOLEANS ==> ts == [BoolTerm(false), BoolTerm(true)];
      ts
  }

  /** Runs a table entry on the carried values of two terms. The operand is
      read before the result, and a term that is not a `Value` has no `.value`. */
  function RunSolver(table: (Native, Native) -> Result<Solved>, operand: Term, result: Term): (r: Result<seq<Term>>)
    ensures !operand.Value? || !result.Value? ==> r == Err(AttributeError)
    ensures operand.Value? && result.Value? ==>
              (r.Ok? <==> table(operand.value, result.value).Ok?)
    ensures r.Ok? ==> operand.Value? && result.Value? && r.value == Yielded(table(operand.value, result.value).value)
  {
    if !operand.Value? || !result.Value? then Err(AttributeError)
    else
      match table(operand.value, result.value)
      case Err(e) => Err(e)
      case Ok(s) => Ok(Yielded(s))
  }

  /** `reverse_evaluate_lhs(rhs, op, result)`: candidates for the left operand,
      as the items its generator would yield, or the exception it would raise. */
  function ReverseEvaluateLhs(rhs: Term, op: BinaryOp, result: Term): (r: Result<seq<Term>>)
    ensures !rhs.Value? || !result.Value? ==> r == Err(AttributeError)
    ensures op == Mod ==> r.Err?
    ensures (op == And || op == Or) && rhs.Value? && result.Value? ==> r.Ok?
    ensures r.Ok? ==> |r.value| <= 2
    ensures r.Ok? ==> forall t :: t in r.value ==> t.Value? && t.ty == TypeOf(t.value)
  {
    RunSolver((x, y) => ReverseLhsImpl(op, x, y), rhs, result)
  }

  /** `reverse_evaluate_rhs(lhs, op, result)`: candidates for the right operand. */
  function ReverseEvaluateRhs(lhs: Term, op: BinaryOp, result: Term): (r: Result<seq<Term>>)
    ensures !lhs.Value? || !result.Value? ==> r == Err(AttributeError)
    ensures op == Mod ==> r.Err?
    ensures (op == And || op == Or) && lhs.Value? && result.Value? ==> r.Ok?
    ensures r.Ok? ==> |r.value| <= 2
    ensures r.Ok? ==> forall t :: t in r.value ==> t.Value? && t.ty == TypeOf(t.value)
  {
    RunSolver((x, y) => ReverseRhsImpl(op, x, y), lhs, result)
  }

  /** Left-operand MINUS is solved correctly: the candidate `rhs + result`
      minus `rhs` evaluates back to `result`. */
  lemma ReverseLhsMinusInverts(a: int, b: int)
    ensures ReverseEvaluateLhs(IntTerm(a), Minus, IntTerm(b)) == Ok([IntTerm(a + b)])
    ensures Evaluate(IntTerm(a + b), Minus, IntTerm(a)) == Ok(IntTerm(b))
  {
  }

  /** Left-operand DIV is solved correctly for a non-zero divisor: the
      candidate `rhs * result` floor-divided by `rhs` evaluates back to `result`. */
  lemma ReverseLhsDivInverts(a: int, b: int)
    ensures ReverseEvaluateLhs(IntTerm(a), Div, IntTerm(b)) == Ok([IntTerm(a * b)])
    ensures a != 0 ==> Evaluate(IntTerm(a * b), Div, IntTerm(a)) == Ok(IntTerm(b))
    ensures a == 0 ==> Evaluate(IntTerm(a * b), Div, IntTerm(a)) == Err(ZeroDivisionError)
  {
    if a != 0 {
      FloorDivOfMultiple(a, b);
      assert b * a == a * b;
    }
  }

  /** Left-operand PLUS receives `(rhs, result)` in that order, so it proposes
      `rhs - result`; the candidate evaluates back to `result` only when the
      two are equal. */
  lemma ReverseLhsPlusOrder(a: int, b: int)
    ensures ReverseEvaluateLhs(IntTerm(a), Plus, IntTerm(b)) == Ok([IntTerm(a - b)])
    ensures Evaluate(IntTerm(a - b), Plus, IntTerm(a)) == Ok(IntTerm(b)) <==> a == b
  {
  }

  /** Left-operand TIMES proposes `rhs // result`, and raises when the result is 0. */
  lemma ReverseLhsTimes(a: int, b: int)
    ensures b == 0 ==> ReverseEvaluateLhs(IntTerm(a), Times, IntTerm(b)) == Err(ZeroDivisionError)
    ensures b != 0 ==> ReverseEvaluateLhs(IntTerm(a), Times, IntTerm(b)) == Ok([IntTerm(FloorDiv(a, b))])
  {
  }

  /** Right-operand PLUS and MINUS both propose a candidate that evaluates back
      to `result` only when the known operand already equals `result`. */
  lemma ReverseRhsPlusMinusOrder(a: int, b: int)
    ensures ReverseEvaluateRhs(IntTerm(a), Plus, IntTerm(b)) == Ok([IntTerm(a - b)])
    ensures Evaluate(IntTerm(a), Plus, IntTerm(a - b)) == Ok(IntTerm(b)) <==> a == b
    ensures ReverseEvaluateRhs(IntTerm(a), Minus, IntTerm(b)) == Ok([IntTerm(b - a)])
    ensures Evaluate(IntTerm(a), Minus, IntTerm(b - a)) == Ok(IntTerm(b)) <==> a == b
  {
  }

  /** Right-operand TIMES proposes `lhs // result` and DIV proposes `result // lhs`. */
  lemma ReverseRhsTimesDiv(a: int, b: int)
    ensures b != 0 ==> ReverseEvaluateRhs(IntTerm(a), Times, IntTerm(b)) == Ok([IntTerm(FloorDiv(a, b))])
    ensures b == 0 ==> ReverseEvaluateRhs(IntTerm(a), Times, IntTerm(b)) == Err(ZeroDivisionError)
    ensures a != 0 ==> ReverseEvaluateRhs(IntTerm(a), Div, IntTerm(b)) == Ok([IntTerm(FloorDiv(b, a))])
    ensures a == 0 ==> ReverseEvaluateRhs(IntTerm(a), Div, IntTerm(b)) == Err(ZeroDivisionError)
  {
  }

  /** The boolean solvers: one candidate, or the two candidates `False` then
      `True` when the table answers with the list. */
  lemma ReverseBooleans(x: bool, y: bool)
    ensures ReverseEvaluateLhs(BoolTerm(x), And, BoolTerm(y))
              == Ok(if y then [BoolTerm(x)] else [BoolTerm(false), BoolTerm(true)])
    ensures ReverseEvaluateLhs(BoolTerm(x), Or, BoolTerm(y))
              == Ok(if x then [BoolTerm(false), BoolTerm(true)] else [BoolTerm(y)])
    ensures ReverseEvaluateRhs(BoolTerm(x), And, BoolTerm(y))
              == Ok(if y then [BoolTerm(x)] else [BoolTerm(false), BoolTerm(true)])
    ensures ReverseEvaluateRhs(BoolTerm(x), Or, BoolTerm(y))
              == Ok(if !y then [BoolTerm(x)] else [BoolTerm(false), BoolTerm(true)])
  {
  }

  /** A table entry that answers `None` makes the generator stop at once: an
      AND whose result is truthy and whose known operand carries `None`. */
  lemma NoneAnswerYieldsNothing(ty: PyType)
    ensures ReverseEvaluateLhs(Value(ty, NNone), And, BoolTerm(true)) == Ok([])
    ensures ReverseEvaluateRhs(Value(ty, NNone), And, BoolTerm(true)) == Ok([])
  {
  }
}
