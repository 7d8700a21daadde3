/** JSON values as Python's json module hands them to the scraper, and the
    parts of Python's str(), repr(), truthiness and str.join that the
    flattener relies on. */
module PyJson {

  /** A JSON leaf. A float carries the text Python's repr() gives it. */
  datatype Scalar =
    | JStr(s: string)
    | JInt(i: int)
    | JFloat(text: string)
    | JBool(b: bool)
    | JNull

  /** A JSON value. An object stands for a Python dict: its members are in
      insertion order. */
  datatype Json =
    | Leaf(v: Scalar)
    | Arr(elems: seq<Json>)
    | Obj(members: seq<(string, Json)>)

  function DigitChar(d: nat): char
    requires d < 10
  {
    "0123456789"[d]
  }

  function NatToString(n: nat): (r: string)
    ensures |r| > 0 && r[0] != '-'
  {
    if n < 10 then [DigitChar(n)] else NatToString(n / 10) + [DigitChar(n % 10)]
  }

  /** Python's str() of an int: decimal digits, with a leading '-' when negative. */
  function IntToString(i: int): string
  {
    if i < 0 then "-" + NatToString(-i) else NatToString(i)
  }

  /** Python's str() of a leaf. */
  function Show(v: Scalar): string
  {
    match v
    case JStr(s) => s
    case JInt(i) => IntToString(i)
    case JFloat(t) => t
    case JBool(b) => if b then "True" else "False"
    case JNull => "None"
  }

  /** Python's repr() of a leaf: a string is put in single quotes. */
  function ShowRepr(v: Scalar): string
  {
    if v.JStr? then "'" + v.s + "'" else Show(v)
  }

  /** Python's str() of any JSON value; a list or a dict shows its parts with repr(). */
  function Str(j: Json): string
    decreases j, 2
  {
    if j.Leaf? then Show(j.v) else Repr(j)
  }

  function Repr(j: Json): string
    decreases j, 1
  {
    match j
    case Leaf(v) => ShowRepr(v)
    case Arr(es) => "[" + ReprElems(j, |es|) + "]"
    case Obj(ms) => "{" + ReprMembers(j, |ms|) + "}"
  }

  /** repr() of the first n elements of a list, separated by ", ". */
  function ReprElems(j: Json, n: nat): string
    requires j.Arr? && n <= |j.elems|
    decreases j, 0, n
  {
    if n == 0 then ""
    else if n == 1 then Repr(j.elems[0])
    else ReprElems(j, n - 1) + ", " + Repr(j.elems[n - 1])
  }

  /** repr() of the first n members of a dict, as "'key': value" separated by ", ". */
  function ReprMembers(j: Json, n: nat): string
    requires j.Obj? && n <= |j.members|
    decreases j, 0, n
  {
    if n == 0 then ""
    else
      var m := "'" + j.members[n - 1].0 + "': " + Repr(j.members[n - 1].1);
      if n == 1 then m else ReprMembers(j, n - 1) + ", " + m
  }

  /** Python's truth value of a JSON value: None, False, 0, 0.0, "", [] and {} are false. */
  predicate Truthy(j: Json)
  {
    match j
    case Leaf(JStr(s)) => s != ""
    case Leaf(JInt(i)) => i != 0
    case Leaf(JFloat(t)) => t != "0.0" && t != "-0.0"
    case Leaf(JBool(b)) => b
    case Leaf(JNull) => false
    case Arr(es) => es != []
    case Obj(ms) => ms != []
  }

  /** Python's sep.join(parts). */
  function Join(parts: seq<string>, sep: string): string
  {
    if |parts| == 0 then ""
    else if |parts| == 1 then parts[0]
    else parts[0] + sep + Join(parts[1..], sep)
  }

  /** Python's ", ".join(map(str, values)). */
  function JoinShown(values: seq<Scalar>): string
  {
    Join(seq(|values|, i requires 0 <= i < |values| => Show(values[i])), ", ")
  }
}
