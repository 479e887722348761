/** The operation registry and the guards and results of the operations
    (app/operations.py). Operands are exact reals, not 64-bit floats. */
module Operations {
  import opened Wrappers

  /** An `OperationError` and its message. */
  datatype OperationError = OperationError(message: string)

  /** The ten operation classes. */
  datatype OpKind = Add | Subtract | Multiply | Divide | Power | Root
                  | Modulus | IntDivide | Percent | AbsDiff

  /** The registry key of each operation. */
  function NameOf(k: OpKind): string {
    match k
    case Add => "add"
    case Subtract => "subtract"
    case Multiply => "multiply"
    case Divide => "divide"
    case Power => "power"
    case Root => "root"
    case Modulus => "modulus"
    case IntDivide => "int_divide"
    case Percent => "percent"
    case AbsDiff => "abs_diff"
  }

  /** The factory's dictionary keys, in declaration order, by the
      operation each one creates. */
  const Kinds: seq<OpKind> :=
    [Add, Subtract, Multiply, Divide, Power, Root, Modulus, IntDivide, Percent, AbsDiff]

  lemma KindsComplete(k: OpKind)
    ensures k in Kinds
  {
    match k
    case Add => assert Kinds[0] == k;
    case Subtract => assert Kinds[1] == k;
    case Multiply => assert Kinds[2] == k;
    case Divide => assert Kinds[3] == k;
    case Power => assert Kinds[4] == k;
    case Root => assert Kinds[5] == k;
    case Modulus => assert Kinds[6] == k;
    case IntDivide => assert Kinds[7] == k;
    case Percent => assert Kinds[8] == k;
    case AbsDiff => assert Kinds[9] == k;
  }

  /** Length and first letter already tell the ten keys apart. */
  function KeyShape(s: string): (int, char)
    requires s != []
  {
    (|s|, s[0])
  }

  lemma NameOfInjective(j: OpKind, k: OpKind)
    ensures NameOf(j) == NameOf(k) ==> j == k
  {
    assert KeyShape(NameOf(j)) == KeyShape(NameOf(k)) ==> j == k;
  }

  /** Every key is already lower case. */
  lemma LowerNameOf(k: OpKind)
    ensures Lower(NameOf(k)) == NameOf(k)
  {
    var s := NameOf(k);
    forall i | 0 <= i < |s| ensures LowerChar(s[i]) == s[i] {
      assert s[i] == '_' || 'a' <= s[i] <= 'z';
    }
  }

  /** `str.lower` on one character, for the ASCII letters. */
  function LowerChar(c: char): char {
    if 'A' <= c <= 'Z' then (c as int - 'A' as int + 'a' as int) as char else c
  }

  /** `str.lower`, for the ASCII letters. */
  function Lower(s: string): (r: string)
    ensures |r| == |s|
    ensures forall i :: 0 <= i < |s| ==> r[i] == LowerChar(s[i])
  {
    seq(|s|, i requires 0 <= i < |s| => LowerChar(s[i]))
  }

  /** `dict.get`: the first of `kinds` whose key is `key`, or None. */
  function Lookup(kinds: seq<OpKind>, key: string): (r: Option<OpKind>)
    ensures r.Some? <==> exists i :: 0 <= i < |kinds| && NameOf(kinds[i]) == key
    ensures r.Some? ==> r.value in kinds && NameOf(r.value) == key
  {
    if kinds == [] then None
    else if NameOf(kinds[0]) == key then Some(kinds[0])
    else
      var rest := Lookup(kinds[1..], key);
      assert forall i :: 1 <= i < |kinds| ==> kinds[i] == kinds[1..][i - 1];
      rest
  }

  /** `get_available_operations`: the registry keys in declaration order. */
  function GetAvailableOperations(): (names: seq<string>)
    ensures |names| == |Kinds| == 10
    ensures forall i :: 0 <= i < |names| ==> names[i] == NameOf(Kinds[i])
  {
    seq(|Kinds|, i requires 0 <= i < |Kinds| => NameOf(Kinds[i]))
  }

  /** The available names are the keys of all ten operations, each once. */
  lemma AvailableOperations(k: OpKind)
    ensures NameOf(k) in GetAvailableOperations()
    ensures forall i, j :: 0 <= i < j < 10 ==> GetAvailableOperations()[i] != GetAvailableOperations()[j]
  {
    var names := GetAvailableOperations();
    KindsComplete(k);
    var i :| 0 <= i < |Kinds| && Kinds[i] == k;
    assert names[i] == NameOf(k);
    forall i, j | 0 <= i < j < 10 ensures names[i] != names[j] {
      NameOfInjective(Kinds[i], Kinds[j]);
    }
  }

  /** `create_operation`: the registry entry under the lowercased name, or
      an error quoting the name as given. */
  function CreateOperation(name: string): (r: Result<OpKind, OperationError>)
    ensures r.Success? <==> Lower(name) in GetAvailableOperations()
    ensures r.Success? ==> NameOf(r.value) == Lower(name)
    ensures r.Failure? ==> r.error == OperationError("Unknown operation: " + name)
  {
    match Lookup(Kinds, Lower(name))
    case Some(k) => Success(k)
    case None => Failure(OperationError("Unknown operation: " + name))
  }

  /** Every operation is created from its own key, and from no other. */
  lemma RegistryComplete(k: OpKind, name: string)
    ensures CreateOperation(NameOf(k)) == Success(k)
    ensures CreateOperation(name) == Success(k) <==> Lower(name) == NameOf(k)
  {
    LowerNameOf(k);
    AvailableOperations(k);
    var r := CreateOperation(NameOf(k));
    NameOfInjective(r.value, k);
    if Lower(name) == NameOf(k) {
      NameOfInjective(CreateOperation(name).value, k);
    }
  }

  /** Names that differ only in the case of ASCII letters create the same
      operation. */
  lemma CaseInsensitive(a: string, b: string)
    requires Lower(a) == Lower(b)
    ensures CreateOperation(a).Success? <==> CreateOperation(b).Success?
    ensures CreateOperation(a).Success? ==> CreateOperation(a) == CreateOperation(b)
  {
    if CreateOperation(a).Success? {
      NameOfInjective(CreateOperation(a).value, CreateOperation(b).value);
    }
  }

  lemma AddAnyCase()
    ensures CreateOperation("ADD") == CreateOperation("Add") == CreateOperation("add") == Success(Add)
  {
    assert Lower("ADD") == NameOf(Add);
    assert Lower("Add") == NameOf(Add);
    RegistryComplete(Add, "ADD");
    RegistryComplete(Add, "Add");
  }

  /** An unknown name gives `Unknown operation: <name>`. */
  lemma UnknownOperation()
    ensures CreateOperation("invalid") == Failure(OperationError("Unknown operation: invalid"))
  {
    var s := "invalid";
    LowerUnchanged(s);
    NotAKey(s);
    assert "Unknown operation: " + s == "Unknown operation: invalid";
  }

  /** No key has seven letters and starts with `i`. */
  lemma NotAKey(s: string)
    requires |s| == 7 && s[0] == 'i'
    ensures s !in GetAvailableOperations()
  {
    var names := GetAvailableOperations();
    forall i | 0 <= i < 10 ensures names[i] != s {
      assert KeyShape(s) != KeyShape(NameOf(Kinds[i]));
    }
  }

  lemma LowerUnchanged(s: string)
    requires forall i :: 0 <= i < |s| ==> 'a' <= s[i] <= 'z' || s[i] == '_'
    ensures Lower(s) == s
  {
  }

  /** Addition, subtraction and multiplication have no guard and give the
      exact sum, difference and product. */
  function AddOp(a: real, b: real): real { a + b }

  function SubtractOp(a: real, b: real): real { a - b }

  function MultiplyOp(a: real, b: real): real { a * b }

  /** Division: refuses a zero divisor. */
  function DivideOp(a: real, b: real): (r: Result<real, OperationError>)
    ensures r.Failure? <==> b == 0.0
    ensures r.Failure? ==> r.error == OperationError("Cannot divide by zero")
    ensures r.Success? ==> r.value * b == a
  {
    if b == 0.0 then Failure(OperationError("Cannot divide by zero")) else Success(a / b)
  }

  /** Python's `//` on numbers: the floor of the exact quotient. */
  function FloorDiv(a: real, b: real): (q: real)
    requires b != 0.0
    ensures q == (q.Floor as real)
    ensures q <= a / b < q + 1.0
  {
    (a / b).Floor as real
  }

  /** Python's `%` on numbers: what is left after `//`; it takes the sign
      of the divisor. */
  function PyMod(a: real, b: real): (r: real)
    requires b != 0.0
    ensures FloorDiv(a, b) * b + r == a
    ensures b > 0.0 ==> 0.0 <= r < b
    ensures b < 0.0 ==> b < r <= 0.0
  {
    var q := FloorDiv(a, b);
    var d := a / b - q;
    assert b * (a / b) == a;
    assert a - b * q == b * d;
    ScaleFraction(b, d);
    a - b * q
  }

  /** Scaling a fraction in [0, 1) by `b` stays between 0 and `b`. */
  lemma ScaleFraction(b: real, d: real)
    requires 0.0 <= d < 1.0
    ensures b > 0.0 ==> 0.0 <= b * d < b
    ensures b < 0.0 ==> b < b * d <= 0.0
  {
    assert b * d - b == b * (d - 1.0);
  }

  /** Modulus: refuses a zero divisor. */
  function ModulusOp(a: real, b: real): (r: Result<real, OperationError>)
    ensures r.Failure? <==> b == 0.0
    ensures r.Failure? ==> r.error == OperationError("Cannot perform modulus with zero")
    ensures r.Success? ==> r.value == PyMod(a, b)
  {
    if b == 0.0 then Failure(OperationError("Cannot perform modulus with zero")) else Success(PyMod(a, b))
  }

  /** Integer division: refuses a zero divisor. */
  function IntDivideOp(a: real, b: real): (r: Result<real, OperationError>)
    ensures r.Failure? <==> b == 0.0
    ensures r.Failure? ==> r.error == OperationError("Cannot divide by zero")
    ensures r.Success? ==> r.value == FloorDiv(a, b)
  {
    if b == 0.0 then Failure(OperationError("Cannot divide by zero")) else Success(FloorDiv(a, b))
  }

  /** `//` and `%` agree: an integral quotient and a remainder of the
      divisor's sign between zero and the divisor that add back up to the
      dividend. */
  lemma DivModAgree(a: real, b: real)
    requires b != 0.0
    ensures IntDivideOp(a, b).Success? && ModulusOp(a, b).Success?
    ensures var q, r := IntDivideOp(a, b).value, ModulusOp(a, b).value;
            && q == q.Floor as real
            && q * b + r == a
            && (b > 0.0 ==> 0.0 <= r < b)
            && (b < 0.0 ==> b < r <= 0.0)
  {
  }

  /** Percentage: `(a / b) * 100`, refusing a zero denominator. */
  function PercentOp(a: real, b: real): (r: Result<real, OperationError>)
    ensures r.Failure? <==> b == 0.0
    ensures r.Failure? ==> r.error == OperationError("Cannot calculate percentage with zero denominator")
    ensures r.Success? ==> r.value * b == 100.0 * a
  {
    if b == 0.0 then Failure(OperationError("Cannot calculate percentage with zero denominator"))
    else Success((a / b) * 100.0)
  }

  /** Absolute difference: never negative, and one of the two differences. */
  function AbsDiffOp(a: real, b: real): (r: real)
    ensures r >= 0.0
    ensures r == a - b || r == b - a
  {
    if a - b < 0.0 then b - a else a - b
  }

  lemma AbsDiffSymmetric(a: real, b: real)
    ensures AbsDiffOp(a, b) == AbsDiffOp(b, a)
  {
  }

  function Twice(k: int): real { (2 * k) as real }

  /** `b` is an even whole number. */
  ghost predicate IsEvenInteger(b: real) {
    exists k: int :: b == Twice(k)
  }

  /** Python's `b % 2 == 0` holds exactly for the even whole numbers. */
  lemma ModTwoIsEven(b: real)
    ensures PyMod(b, 2.0) == 0.0 <==> IsEvenInteger(b)
  {
    if PyMod(b, 2.0) == 0.0 {
      assert b == Twice(FloorDiv(b, 2.0).Floor);
    }
    if IsEvenInteger(b) {
      var k: int :| b == Twice(k);
      assert b / 2.0 == k as real;
    }
  }

  /** The two checks of the root operation before it computes
      `a ** (1 / b)`: the error it raises, or None when it goes on. */
  function RootGuard(a: real, b: real): (r: Option<OperationError>)
    ensures r.Some? <==> b == 0.0 || (a < 0.0 && IsEvenInteger(b))
    ensures b == 0.0 ==> r == Some(OperationError("Cannot calculate 0th root"))
    ensures b != 0.0 && r.Some? ==> r == Some(OperationError("Cannot calculate even root of negative number"))
  {
    if b == 0.0 then Some(OperationError("Cannot calculate 0th root"))
    else
      ModTwoIsEven(b);
      if a < 0.0 && PyMod(b, 2.0) == 0.0 then Some(OperationError("Cannot calculate even root of negative number"))
      else None
  }
}
