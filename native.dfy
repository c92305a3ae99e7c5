/** The slice of the Python runtime the kernel relies on: the scalar objects a
    `Value` term carries, truthiness, `==`, and the functions of the `operator`
    module that the evaluator tables name. Exceptions are values of `PyError`. */
module PyRuntime {

  /** The scalar objects a `Value` term can carry. Floats are not modelled. */
  datatype Native = NNone | NBool(b: bool) | NInt(i: int) | NStr(s: string)

  /** `type(v)` of a scalar, the tag a `Value` term records. */
  datatype PyType = NoneType | BoolType | IntType | StrType

  function TypeOf(n: Native): PyType {
    match n
    case NNone => NoneType
    case NBool(_) => BoolType
    case NInt(_) => IntType
    case NStr(_) => StrType
  }

  /** The exceptions the kernel can raise. `Unsupported` marks an operation on
      values this model does not cover (bitwise `&`/`|` on integers, `%` string
      formatting); Python itself would compute a bitwise result, or format the
      string or raise, depending on the format. */
  datatype PyError = TypeError | AttributeError | NameError | ZeroDivisionError | Unsupported

  datatype Result<+T> = Ok(value: T) | Err(error: PyError)

  datatype Option<+T> = None | Some(value: T)

  /** `bool` is a subclass of `int`: both take part in arithmetic and comparison. */
  predicate Numeric(n: Native) {
    n.NBool? || n.NInt?
  }

  function AsInt(n: Native): int
    requires Numeric(n)
  {
    if n.NBool? then (if n.b then 1 else 0) else n.i
  }

  /** `bool(n)`. */
  predicate Truthy(n: Native) {
    match n
    case NNone => false
    case NBool(b) => b
    case NInt(i) => i != 0
    case NStr(s) => s != ""
  }

  /** Python's `a == b` on scalars: `True == 1`, but a string never equals a number. */
  predicate PyEq(a: Native, b: Native) {
    if Numeric(a) && Numeric(b) then AsInt(a) == AsInt(b)
    else if a.NStr? && b.NStr? then a.s == b.s
    else a.NNone? && b.NNone?
  }

  lemma PyEqIsEquivalence(a: Native, b: Native, c: Native)
    ensures PyEq(a, a)
    ensures PyEq(a, b) ==> PyEq(b, a)
    ensures PyEq(a, b) && PyEq(b, c) ==> PyEq(a, c)
  {
  }

  /** Python's `a // b` on integers: the quotient rounded toward negative infinity. */
  function FloorDiv(a: int, b: int): (q: int)
    requires b != 0
    ensures b > 0 ==> b * q <= a < b * q + b
    ensures b < 0 ==> b * q + b < a <= b * q
  {
    if b > 0 then a / b
    else
      var q := (-a) / (-b);
      assert -a == (-b) * q + (-a) % (-b);
      assert (-b) * q == -(b * q);
      q
  }

  /** Python's `a % b` on integers: the remainder takes the sign of the divisor. */
  function PyMod(a: int, b: int): (m: int)
    requires b != 0
    ensures a == b * FloorDiv(a, b) + m
    ensures b > 0 ==> 0 <= m < b
    ensures b < 0 ==> b < m <= 0
  {
    a - b * FloorDiv(a, b)
  }

  /** Multiplying by a positive number keeps a factor's distance from zero. */
  lemma MulByPositive(x: int, d: int)
    requires x > 0
    ensures d >= 1 ==> x * d >= x
    ensures d <= -1 ==> x * d <= -x
  {
    if d >= 1 {
      assert x * d == x * (d - 1) + x;
    } else if d <= -1 {
      assert x * d == -(x * (-d - 1)) - x;
    }
  }

  /** Floor division undoes multiplication by a non-zero divisor. */
  lemma FloorDivOfMultiple(a: int, b: int)
    requires a != 0
    ensures FloorDiv(b * a, a) == b
  {
    var q := FloorDiv(b * a, a);
    if a > 0 {
      MulByPositive(a, b - q);
      assert a * (b - q) == b * a - a * q;
    } else {
      MulByPositive(-a, q - b);
      assert (-a) * (q - b) == b * a - a * q;
    }
  }

  /** `s * n` for a string and an integer. */
  function Repeat(s: string, n: int): (r: string)
    ensures n <= 0 ==> r == ""
    ensures n > 0 ==> |r| == n * |s|
    decreases n
  {
    if n <= 0 then "" else s + Repeat(s, n - 1)
  }

  /** `operator.add`. */
  function Add(a: Native, b: Native): Result<Native> {
    if Numeric(a) && Numeric(b) then Ok(NInt(AsInt(a) + AsInt(b)))
    else if a.NStr? && b.NStr? then Ok(NStr(a.s + b.s))
    else Err(TypeError)
  }

  /** `operator.sub`. */
  function Sub(a: Native, b: Native): Result<Native> {
    if Numeric(a) && Numeric(b) then Ok(NInt(AsInt(a) - AsInt(b)))
    else Err(TypeError)
  }

  /** `operator.mul`, including repetition of a string by an integer. */
  function Mul(a: Native, b: Native): Result<Native> {
    if Numeric(a) && Numeric(b) then Ok(NInt(AsInt(a) * AsInt(b)))
    else if a.NStr? && Numeric(b) then Ok(NStr(Repeat(a.s, AsInt(b))))
    else if Numeric(a) && b.NStr? then Ok(NStr(Repeat(b.s, AsInt(a))))
    else Err(TypeError)
  }

  /** `operator.floordiv`. */
  function FloorDivide(a: Native, b: Native): Result<Native> {
    if Numeric(a) && Numeric(b) then
      if AsInt(b) == 0 then Err(ZeroDivisionError) else Ok(NInt(FloorDiv(AsInt(a), AsInt(b))))
    else Err(TypeError)
  }

  /** `operator.mod`; on a string left operand it is printf-style formatting. */
  function Modulo(a: Native, b: Native): Result<Native> {
    if Numeric(a) && Numeric(b) then
      if AsInt(b) == 0 then Err(ZeroDivisionError) else Ok(NInt(PyMod(AsInt(a), AsInt(b))))
    else if a.NStr? then Err(Unsupported)
    else Err(TypeError)
  }

  /** `operator.and_`: logical on two booleans, bitwise on other integers. */
  function BitAnd(a: Native, b: Native): Result<Native> {
    if a.NBool? && b.NBool? then Ok(NBool(a.b && b.b))
    else if Numeric(a) && Numeric(b) then Err(Unsupported)
    else Err(TypeError)
  }

  /** `operator.or_`: logical on two booleans, bitwise on other integers. */
  function BitOr(a: Native, b: Native): Result<Native> {
    if a.NBool? && b.NBool? then Ok(NBool(a.b || b.b))
    else if Numeric(a) && Numeric(b) then Err(Unsupported)
    else Err(TypeError)
  }

  /** Unary `-`. */
  function Neg(a: Native): Result<Native> {
    if Numeric(a) then Ok(NInt(-AsInt(a))) else Err(TypeError)
  }
}
