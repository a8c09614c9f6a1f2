/** The Python values a configuration setting can hold, with the built-in
    conversions (`bool`, `int`, `str`) and the equality `in` uses. */
module PyValue {
  import opened Wrappers
  import PyText

  /** A value of one of the kinds settings use; `VOther` stands for any other
      object (a mapping, a float), known by its type name and truthiness. */
  datatype Value = VNone | VBool(b: bool) | VInt(i: int) | VStr(s: string) | VList(items: seq<Value>) | VOther(kind: string, truthy: bool)

  /** The exceptions a conversion raises. */
  datatype CastError = CastTypeError(kind: string) | CastValueError(text: string)

  /** Python truthiness. */
  predicate Truthy(v: Value) {
    match v
    case VNone => false
    case VBool(b) => b
    case VInt(i) => i != 0
    case VStr(s) => s != []
    case VList(l) => l != []
    case VOther(_, t) => t
  }

  function TypeName(v: Value): string {
    match v
    case VNone => "NoneType"
    case VBool(_) => "bool"
    case VInt(_) => "int"
    case VStr(_) => "str"
    case VList(_) => "list"
    case VOther(k, _) => k
  }

  /** The digits of an `int()` literal: digits, with single underscores allowed
      between two digits. */
  predicate IntDigits(s: string) {
    s != [] && PyText.IsDigit(s[0]) && PyText.IsDigit(s[|s| - 1])
    && (forall i :: 0 <= i < |s| ==> PyText.IsDigit(s[i]) || s[i] == '_')
    && NoDoubleUnderscore(s)
  }

  predicate NoDoubleUnderscore(s: string) {
    |s| < 2 || (!(s[0] == '_' && s[1] == '_') && NoDoubleUnderscore(s[1..]))
  }

  function DropUnderscores(s: string): (r: string)
    ensures (forall i :: 0 <= i < |s| ==> PyText.IsDigit(s[i]) || s[i] == '_') ==> PyText.AllDigits(r)
  {
    if s == [] then [] else (if s[0] == '_' then [] else [s[0]]) + DropUnderscores(s[1..])
  }

  /** `int(text)` in base ten: surrounding whitespace, a sign, then digits. */
  function ParseInt(text: string): (r: Option<int>)
  {
    var t := PyText.Strip(text);
    var negative := |t| > 0 && t[0] == '-';
    var body := if |t| > 0 && (t[0] == '-' || t[0] == '+') then t[1..] else t;
    if IntDigits(body) then
      var n: int := PyText.DigitsValue(DropUnderscores(body));
      Some(if negative then -n else n)
    else None
  }

  /** `int(v)`. */
  function ToInt(v: Value): (r: Result<Value, CastError>)
    ensures r.Success? ==> r.value.VInt?
    ensures v.VInt? ==> r == Success(v)
  {
    match v
    case VBool(b) => Success(VInt(if b then 1 else 0))
    case VInt(_) => Success(v)
    case VStr(s) =>
      (match ParseInt(s)
       case Some(n) => Success(VInt(n))
       case None => Failure(CastValueError(s)))
    case _ => Failure(CastTypeError(TypeName(v)))
  }

  /** `repr(v)` inside a list display; strings are quoted without escaping. */
  function Repr(v: Value): string
    decreases v, 1
  {
    if v.VStr? then "'" + v.s + "'" else Str(v)
  }

  /** `str(v)`. */
  function Str(v: Value): string
    decreases v, 0
  {
    match v
    case VNone => "None"
    case VBool(b) => if b then "True" else "False"
    case VInt(i) => PyText.Itos(i)
    case VStr(s) => s
    case VList(l) => "[" + ReprItems(l) + "]"
    case VOther(k, _) => k
  }

  function ReprItems(l: seq<Value>): string
    decreases l, 2
  {
    if l == [] then ""
    else if |l| == 1 then Repr(l[0])
    else Repr(l[0]) + ", " + ReprItems(l[1..])
  }

  /** The number a `bool` or `int` stands for; `True == 1` in Python. */
  function Number(v: Value): Option<int> {
    match v
    case VBool(b) => Some(if b then 1 else 0)
    case VInt(i) => Some(i)
    case _ => None
  }

  /** Python `==` on these values: numbers by value (so `True == 1`), strings
      and lists by contents, other objects only with themselves. */
  predicate PyEq(a: Value, b: Value)
    decreases a
  {
    if Number(a).Some? || Number(b).Some? then Number(a) == Number(b)
    else match (a, b)
      case (VList(x), VList(y)) => |x| == |y| && forall i :: 0 <= i < |x| ==> PyEq(x[i], y[i])
      case _ => a == b
  }

  /** `v in choices`. */
  predicate InChoices(v: Value, choices: seq<Value>) {
    exists i :: 0 <= i < |choices| && PyEq(v, choices[i])
  }

  lemma {:induction false} PyEqReflexive(a: Value)
    ensures PyEq(a, a)
    decreases a
  {
    if a.VList? {
      forall i | 0 <= i < |a.items| ensures PyEq(a.items[i], a.items[i]) {
        PyEqReflexive(a.items[i]);
      }
    }
  }

  /** A value `int()` accepts is one `str()` turned into text: reading back the
      text of an integer gives the integer. */
  lemma ParseIntOfItos(n: int)
    ensures ParseInt(PyText.Itos(n)) == Some(n)
  {
    var m: nat := if n < 0 then -n else n;
    var d := PyText.NatDigits(m);
    PyText.NatDigitsRoundTrip(m);
    DropNoUnderscore(d);
    NoUnderscoreNoDouble(d);
    if n < 0 {
      assert ("-" + d)[1..] == d;
      SignedDigits(d, "-" + d);
    } else {
      PyText.SignOrDigitNotSpace(d[0]);
      PyText.SignOrDigitNotSpace(d[|d| - 1]);
      StripNoSpace(d);
      assert d[0] != '-' && d[0] != '+';
    }
  }

  /** A minus sign followed by digits reads as the negated number. */
  lemma SignedDigits(d: string, t: string)
    requires PyText.AllDigits(d) && d != [] && IntDigits(d) && DropUnderscores(d) == d
    requires |t| == |d| + 1 && t[0] == '-' && t[1..] == d
    ensures ParseInt(t) == Some(-(PyText.DigitsValue(d) as int))
  {
    SignedStripped(d, t);
  }

  lemma SignedStripped(d: string, t: string)
    requires d != [] && PyText.IsDigit(d[|d| - 1])
    requires |t| == |d| + 1 && t[0] == '-' && t[1..] == d
    ensures PyText.Strip(t) == t
  {
    assert t[|t| - 1] == d[|d| - 1];
    PyText.SignOrDigitNotSpace(t[0]);
    PyText.SignOrDigitNotSpace(t[|t| - 1]);
    StripNoSpace(t);
  }

  lemma StripNoSpace(t: string)
    requires t != [] && !PyText.IsSpace(t[0]) && !PyText.IsSpace(t[|t| - 1])
    ensures PyText.Strip(t) == t
  {
    PyText.StripTrimmed(t);
  }

  lemma {:induction false} NoUnderscoreNoDouble(d: string)
    requires PyText.AllDigits(d)
    ensures NoDoubleUnderscore(d)
    decreases |d|
  {
    if |d| >= 2 { NoUnderscoreNoDouble(d[1..]); }
  }

  lemma {:induction false} DropNoUnderscore(d: string)
    requires PyText.AllDigits(d)
    ensures DropUnderscores(d) == d
    decreases |d|
  {
    if d != [] { DropNoUnderscore(d[1..]); }
  }
}
