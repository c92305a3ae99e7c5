/** The term algebra: the five term variants, the `term()` smart constructor that
    turns Python values into terms, the operator sugar that builds expression
    nodes, and `var()`. */
module Terms {
  import opened PyRuntime

  datatype BinaryOp = Plus | Minus | Times | Div | Mod | And | Or

  datatype Term =
    | Empty
    | Value(ty: PyType, value: Native)
    | Pair(p: Term, q: Term)
    | Var(name: string)
    | BinaryExpr(lhs: Term, rhs: Term, op: BinaryOp)

  /** The Python objects `term()` can be handed. `PyObject` stands for every
      other type (dict, set, a class instance, ...). */
  datatype PyValue =
    | PyNone
    | PyBool(b: bool)
    | PyInt(i: int)
    | PyStr(s: string)
    | PyTuple(items: seq<PyValue>)
    | PyList(items: seq<PyValue>)
    | PyTerm(t: Term)
    | PyObject

  function FromNative(n: Native): PyValue {
    match n
    case NNone => PyNone
    case NBool(b) => PyBool(b)
    case NInt(i) => PyInt(i)
    case NStr(s) => PyStr(s)
  }

  /** `term(v)`. A list always fails: the list branch subscripts the builtin
      type `list` instead of `v`, and the object that yields is no term. */
  function ToTerm(v: PyValue): (r: Result<Term>)
    ensures v.PyTerm? ==> r == Ok(v.t)
    ensures v.PyNone? ==> r == Ok(Empty)
    ensures v.PyList? || v.PyObject? ==> r == Err(TypeError)
    ensures v.PyTuple? && |v.items| != 2 ==> r == Err(TypeError)
    ensures v.PyTuple? && |v.items| == 2 && ToTerm(v.items[0]).Ok? && ToTerm(v.items[1]).Ok? ==>
              r == Ok(Pair(ToTerm(v.items[0]).value, ToTerm(v.items[1]).value))
    ensures v.PyTuple? && |v.items| == 2 && ToTerm(v.items[0]).Err? ==> r == ToTerm(v.items[0])
    ensures v.PyTuple? && |v.items| == 2 && ToTerm(v.items[0]).Ok? && ToTerm(v.items[1]).Err? ==>
              r == ToTerm(v.items[1])
    ensures r.Err? ==> r.error == TypeError
  {
    match v
    case PyTerm(t) => Ok(t)
    case PyNone => Ok(Empty)
    case PyTuple(items) =>
      if |items| != 2 then Err(TypeError)
      else
        (match ToTerm(items[0])
         case Err(e) => Err(e)
         case Ok(p) =>
           (match ToTerm(items[1])
            case Err(e) => Err(e)
            case Ok(q) => Ok(Pair(p, q))))
    case PyList(_) => Err(TypeError)
    case PyBool(b) => Ok(Value(BoolType, NBool(b)))
    case PyInt(i) => Ok(Value(IntType, NInt(i)))
    case PyStr(s) => Ok(Value(StrType, NStr(s)))
    case PyObject => Err(TypeError)
  }

  /** The inputs `term()` accepts: anything but a list, an unsupported type, or a
      tuple that is not a pair, at any depth. */
  ghost predicate Convertible(v: PyValue) {
    match v
    case PyTuple(items) => |items| == 2 && Convertible(items[0]) && Convertible(items[1])
    case PyList(_) => false
    case PyObject => false
    case _ => true
  }

  /** Plain data: scalars and nested pairs of them, with no term inside. */
  ghost predicate PlainData(v: PyValue) {
    match v
    case PyTuple(items) => |items| == 2 && PlainData(items[0]) && PlainData(items[1])
    case PyList(_) => false
    case PyObject => false
    case PyTerm(_) => false
    case _ => true
  }

  /** A term with no variable and no expression in it. */
  predicate Ground(t: Term) {
    match t
    case Empty => true
    case Value(_, _) => true
    case Pair(p, q) => Ground(p) && Ground(q)
    case _ => false
  }

  /** Reads a ground term back as the Python data it stands for. */
  function Reify(t: Term): Option<PyValue> {
    match t
    case Empty => Some(PyNone)
    case Value(_, n) => Some(FromNative(n))
    case Pair(p, q) =>
      (match (Reify(p), Reify(q))
       case (Some(a), Some(b)) => Some(PyTuple([a, b]))
       case _ => None)
    case _ => None
  }

  lemma {:induction false} ToTermSucceedsIff(v: PyValue)
    ensures ToTerm(v).Ok? <==> Convertible(v)
  {
    match v
    case PyTuple(items) =>
      if |items| == 2 {
        ToTermSucceedsIff(items[0]);
        ToTermSucceedsIff(items[1]);
      }
    case _ =>
  }

  /** `term()` on plain data gives a ground term that reads back as that data. */
  lemma {:induction false} ToTermRoundTrip(v: PyValue)
    requires PlainData(v)
    ensures ToTerm(v).Ok? && Ground(ToTerm(v).value)
    ensures Reify(ToTerm(v).value) == Some(v)
  {
    match v
    case PyTuple(items) =>
      ToTermRoundTrip(items[0]);
      ToTermRoundTrip(items[1]);
      assert items == [items[0], items[1]];
    case _ =>
  }

  /** `term()` of a scalar: `Empty` for `None`, otherwise a `Value` tagged with
      the scalar's exact runtime type. */
  function NativeTerm(n: Native): (t: Term)
    ensures ToTerm(FromNative(n)) == Ok(t)
    ensures !n.NNone? ==> t.Value? && t.ty == TypeOf(n) && t.value == n
  {
    if n.NNone? then Empty else Value(TypeOf(n), n)
  }

  /** `lhs + rhs`, `lhs - rhs`, `lhs * rhs`, `lhs // rhs`, `lhs % rhs`, `lhs & rhs`
      and `lhs | rhs` on a term: build an expression node whose right operand is
      `term(rhs)`. The `%` overload names `BInaryOp`, which does not exist. */
  function ApplyOperator(lhs: Term, op: BinaryOp, rhs: PyValue): (r: Result<Term>)
    ensures r.Ok? <==> op != Mod && ToTerm(rhs).Ok?
    ensures r.Ok? ==> r.value == BinaryExpr(lhs, ToTerm(rhs).value, op)
    ensures ToTerm(rhs).Err? ==> r == Err(ToTerm(rhs).error)
    ensures op == Mod && ToTerm(rhs).Ok? ==> r == Err(NameError)
  {
    match ToTerm(rhs)
    case Err(e) => Err(e)
    case Ok(t) => if op == Mod then Err(NameError) else Ok(BinaryExpr(lhs, t, op))
  }

  /** `var(name)`: a truthy name is used as given; otherwise the name is
      `var-` followed by a fresh identifier, here the parameter `uid`. */
  function NewVar(name: Option<string>, uid: string): (v: Term)
    ensures v.Var?
    ensures name.Some? && name.value != "" ==> v.name == name.value
    ensures !(name.Some? && name.value != "") ==>
              |v.name| == 4 + |uid| && v.name[..4] == "var-" && v.name[4..] == uid
  {
    if name.Some? && name.value != "" then Var(name.value) else Var("var-" + uid)
  }

  /** Generated variables with different identifiers are different variables. */
  lemma FreshVarsDiffer(a: string, b: string)
    requires a != b
    ensures NewVar(None, a) != NewVar(None, b)
  {
  }
}
