/** The data model: the already-parsed YAML tree as a closed tagged variant,
    and the errors that abort a conversion. */
module Values {
  import opened Numbers

  /** A node of the input tree. `Bool` is kept apart from `Int` because Python
      renders it as `True`/`False` even though it passes `isinstance(v, int)`.
      `Flt` carries the text Python's `str()` gives the float. `Map` keeps
      the mapping's entries in document order. `Unsupported` stands for any
      other node type (null, timestamps, ...), named by its type. */
  datatype Value =
    | Str(str: string)
    | Int(n: int)
    | Bool(flag: bool)
    | Flt(text: string)
    | List(items: seq<Value>)
    | Map(entries: seq<(string, Value)>)
    | Unsupported(typeName: string)
  {
    /** `isinstance(v, (int, float, str))` */
    predicate IsScalar() {
      Str? || Int? || Bool? || Flt?
    }

    /** The values Python arithmetic treats as integers: `int` and `bool`. */
    predicate IsIntLike() {
      Int? || Bool?
    }

    /** The integer an int-like value stands for (`True` is 1). */
    function IntValue(): int
      requires IsIntLike()
    {
      if Int? then n else if flag then 1 else 0
    }
  }

  /** The expression operators. */
  datatype Op = Add | Sub | Mul | Mod | Max

  /** Every way a conversion can fail. `NonIntegerOperands` covers float and
      string arithmetic, which this model does not carry out. */
  datatype Error =
    | InvalidName(name: string)
    | UnsupportedValueType(typeName: string)
    | InvalidConstantType(name: string)
    | DefineNotMapping
    | InsufficientOperands(op: Op)
    | UnknownToken(token: string)
    | InvalidExpression(expr: string)
    | NonIntegerOperands(op: Op)
    | DivisionByZero

  /** Python's `str(v)` for a scalar: strings stay raw, integers are decimal,
      booleans are `True`/`False`, floats keep their rendered text. */
  function ScalarText(v: Value): string
    requires v.IsScalar()
  {
    match v
    case Str(s) => s
    case Int(n) => IntToString(n)
    case Bool(b) => if b then "True" else "False"
    case Flt(t) => t
  }
}
