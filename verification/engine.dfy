/** The server's calculation engine: a pure function from an operation name and
    an argument list to a two-variant response. Every input path ends in a
    response; nothing escapes as an exception. */
module Engine {
  import opened Base

  /** What `float(x)` raised for one argument. A `ValueError` is reported with
      its own message; any other exception (a `TypeError` for a list or
      `null`, a `KeyError` when `args` is an object) is reported behind the
      generic prefix. */
  datatype Fault = ValueFault(text: string) | OtherFault(text: string)

  /** One element of `args` after the conversion `float(args[i])`. */
  datatype Arg = Num(value: real) | NotNumeric(fault: Fault)

  /** The `args` field of a request: a value with a length whose first two
      elements are converted one by one, or a value `len()` rejects (a number,
      a boolean, `null`), described by the exception's text. */
  datatype ArgList = Items(items: seq<Arg>) | Unsized(text: string)

  /** The `operation` field as the dictionary lookup sees it: a name (the
      text that the error message interpolates) or an unhashable value (a
      list or an object), described by the `TypeError` text. */
  datatype OpField = Named(name: string) | Unhashable(text: string)

  /** A result as JSON carries it: a Python `int` or a Python `float`. */
  datatype Number = Whole(n: int) | Fraction(x: real)

  datatype Response = Success(result: Number) | Error(message: string)

  datatype Operation = Add | Sub | Mul | Div

  const ArityMessage := "Diperlukan tepat 2 argumen!"
  const DivisionByZeroMessage := "Pembagian dengan nol tidak diperbolehkan!"
  const UnexpectedPrefix := "Terjadi kesalahan: "

  /** The four names the engine accepts. */
  const KnownNames: set<string> := {"add", "sub", "mul", "div"}

  function UnknownOperationMessage(name: string): string
  {
    "Operasi '" + name + "' tidak dikenal!"
  }

  /** The message an argument conversion failure produces. */
  function FaultMessage(f: Fault): string
  {
    match f
    case ValueFault(t) => t
    case OtherFault(t) => UnexpectedPrefix + t
  }

  /** The engine's dispatch table. */
  function Lookup(name: string): (r: Option<Operation>)
    ensures r.Some? <==> name in KnownNames
  {
    if name == "add" then Some(Add)
    else if name == "sub" then Some(Sub)
    else if name == "mul" then Some(Mul)
    else if name == "div" then Some(Div)
    else None
  }

  /** The name under which an operation is registered. */
  function NameOf(o: Operation): string
  {
    match o
    case Add => "add"
    case Sub => "sub"
    case Mul => "mul"
    case Div => "div"
  }

  /** The dispatch table and the names are inverse to each other. */
  lemma LookupNameOf(o: Operation, name: string)
    ensures Lookup(NameOf(o)) == Some(o)
    ensures Lookup(name) == Some(o) ==> name == NameOf(o)
  {
  }

  /** The four engine methods `add`, `subtract`, `multiply`, `divide`;
      `None` stands for the `ValueError` that `divide` raises on a zero
      divisor. */
  function Perform(o: Operation, a: real, b: real): (r: Option<real>)
    ensures r.None? <==> o == Div && b == 0.0
    ensures r.Some? ==> r.value == Exact(NameOf(o), a, b)
  {
    match o
    case Add => Some(a + b)
    case Sub => Some(a - b)
    case Mul => Some(a * b)
    case Div => if b == 0.0 then None else Some(a / b)
  }

  // ---------------------------------------------------------------------
  // Result normalisation
  // ---------------------------------------------------------------------

  /** 10^10: the engine keeps ten decimal places. */
  const Scale: real := 10000000000.0

  /** The largest distance rounding to ten places may move a value. */
  const HalfStep: real := 1.0 / (2.0 * Scale)

  predicate IsIntegral(x: real)
  {
    x.Floor as real == x
  }

  /** Python's `round(x, 10)` on the exact value: the nearest multiple of
      10^-10, ties going to the even multiple. */
  function Round10(x: real): (r: real)
    ensures IsIntegral(r * Scale)
    ensures -HalfStep <= r - x <= HalfStep
  {
    var y := x * Scale;
    var f := y.Floor;
    var d := y - f as real;
    var n := if d < 0.5 then f
             else if d > 0.5 then f + 1
             else if f % 2 == 0 then f else f + 1;
    assert -0.5 <= n as real - y <= 0.5;
    assert (n as real / Scale) * Scale == n as real;
    n as real / Scale
  }

  /** A value that already has at most ten decimals is left alone. */
  lemma Round10Fixes(x: real)
    requires IsIntegral(x * Scale)
    ensures Round10(x) == x
  {
  }

  /** Rounding twice is rounding once. */
  lemma Round10Idempotent(x: real)
    ensures Round10(Round10(x)) == Round10(x)
  {
    Round10Fixes(Round10(x));
  }

  /** The integral-or-round step applied to every successful result. */
  function Normalize(x: real): (r: Number)
    ensures r.Whole? <==> IsIntegral(x)
    ensures r.Whole? ==> r.n as real == x
    ensures r.Fraction? ==> IsIntegral(r.x * Scale) && -HalfStep <= r.x - x <= HalfStep
  {
    if IsIntegral(x) then Whole(x.Floor) else Fraction(Round10(x))
  }

  /** The numeric value a JSON result denotes. */
  function ValueOf(n: Number): real
  {
    match n
    case Whole(i) => i as real
    case Fraction(x) => x
  }

  // ---------------------------------------------------------------------
  // calculate
  // ---------------------------------------------------------------------

  /** The exact mathematical outcome of a recognised request, by name. */
  function Exact(name: string, a: real, b: real): real
    requires name in KnownNames
    requires name == "div" ==> b != 0.0
  {
    if name == "add" then a + b
    else if name == "sub" then a - b
    else if name == "mul" then a * b
    else a / b
  }

  /** The requests `calculate` answers with a success: two numeric arguments,
      a known operation name, and no division by zero. */
  predicate Accepted(op: OpField, args: ArgList)
  {
    && args.Items?
    && |args.items| == 2
    && args.items[0].Num?
    && args.items[1].Num?
    && op.Named?
    && op.name in KnownNames
    && !(op.name == "div" && args.items[1].value == 0.0)
  }

  /** `CalculationEngine.calculate`: validation in the source's order (length,
      conversion of both arguments, operation lookup, zero divisor), then
      normalisation of the result. */
  function Calculate(op: OpField, args: ArgList): (r: Response)
    ensures r.Success? <==> Accepted(op, args)
    ensures r.Success? ==>
              var e := Exact(op.name, args.items[0].value, args.items[1].value);
              && (r.result.Whole? <==> IsIntegral(e))
              && -HalfStep <= ValueOf(r.result) - e <= HalfStep
              && (IsIntegral(e) ==> ValueOf(r.result) == e)
  {
    match args
    case Unsized(t) => Error(UnexpectedPrefix + t)
    case Items(xs) =>
      if |xs| != 2 then Error(ArityMessage)
      else if xs[0].NotNumeric? then Error(FaultMessage(xs[0].fault))
      else if xs[1].NotNumeric? then Error(FaultMessage(xs[1].fault))
      else
        match op
        case Unhashable(t) => Error(UnexpectedPrefix + t)
        case Named(name) =>
          match Lookup(name)
          case None => Error(UnknownOperationMessage(name))
          case Some(o) =>
            match Perform(o, xs[0].value, xs[1].value)
            case None => Error(DivisionByZeroMessage)
            case Some(v) => Success(Normalize(v))
  }

  /** A list of any length other than two is rejected before anything else is
      looked at, whatever the operation. */
  lemma ArityCheckedFirst(op: OpField, xs: seq<Arg>)
    requires |xs| != 2
    ensures Calculate(op, Items(xs)) == Error(ArityMessage)
  {
  }

  /** The operation is only looked at once both arguments have converted: a
      failed conversion gives the same answer for every operation. */
  lemma ConversionBeforeLookup(op1: OpField, op2: OpField, a: Arg, b: Arg)
    requires a.NotNumeric? || b.NotNumeric?
    ensures Calculate(op1, Items([a, b])) == Calculate(op2, Items([a, b]))
    ensures Calculate(op1, Items([a, b])) ==
              Error(FaultMessage(if a.NotNumeric? then a.fault else b.fault))
  {
  }

  /** An `args` value without a length (a number, a boolean, `null`) makes
      `len()` raise, reported behind the generic prefix, whatever the
      operation. */
  lemma UnsizedArgs(op: OpField, t: string)
    ensures Calculate(op, Unsized(t)) == Error(UnexpectedPrefix + t)
  {
  }

  /** An unhashable operation (a list or an object) makes the membership
      test raise, reported behind the generic prefix; that test is only
      reached once both arguments have converted. */
  lemma UnhashableOperation(t: string, x: Arg, y: Arg)
    ensures x.Num? && y.Num? ==> Calculate(Unhashable(t), Items([x, y])) == Error(UnexpectedPrefix + t)
    ensures x.NotNumeric? ==> Calculate(Unhashable(t), Items([x, y])) == Error(FaultMessage(x.fault))
    ensures x.Num? && y.NotNumeric? ==> Calculate(Unhashable(t), Items([x, y])) == Error(FaultMessage(y.fault))
  {
  }

  /** With two numbers, an unknown name is reported by name. */
  lemma UnknownOperation(name: string, a: real, b: real)
    requires name !in KnownNames
    ensures Calculate(Named(name), Items([Num(a), Num(b)])) == Error(UnknownOperationMessage(name))
  {
  }

  /** Dividing by zero is an error for every dividend. */
  lemma DivisionByZero(a: real)
    ensures Calculate(Named("div"), Items([Num(a), Num(0.0)])) == Error(DivisionByZeroMessage)
  {
  }

  /** A recognised operation on two numbers answers with the normalised
      mathematical outcome. */
  lemma SuccessIsNormalizedExact(name: string, a: real, b: real)
    requires name in KnownNames
    requires name == "div" ==> b != 0.0
    ensures Calculate(Named(name), Items([Num(a), Num(b)])) == Success(Normalize(Exact(name, a, b)))
  {
  }
}
