/** The Python operations the scraper applies to a decoded JSON body --
    subscripting, iterating and the exceptions they raise -- for the cases
    where the body does not have the shape the scraper expects. */
module PyOps {
  import opened Wrappers
  import opened PyJson
  import opened OrderedDict

  /** The exceptions the scraper lets escape. A KeyError carries the missing
      key as Python shows it. */
  datatype PyError =
    | KeyError(key: string)
    | IndexError
    | TypeError
    | AttributeError

  /** A subscript: x["name"] or x[i]. */
  datatype Key = Name(name: string) | Index(i: int)

  /** The position x[i] denotes in a sequence of length n: Python counts a
      negative index from the end. */
  function Position(i: int, n: nat): (r: Option<nat>)
    ensures r.Some? <==> -(n as int) <= i < n
    ensures r.Some? ==> r.value < n && (r.value == i || r.value == n + i)
  {
    if 0 <= i < n then Some(i)
    else if -(n as int) <= i < 0 then Some(n + i)
    else None
  }

  /** x[key] on a JSON value: a dict looks the key up (an int key is never
      found, as JSON keys are strings); a list or a string takes the element or
      the character at an int index; anything else is not subscriptable. */
  function Subscript(j: Json, key: Key): Result<Json, PyError>
  {
    match (j, key)
    case (Obj(ms), Name(k)) =>
      (match Get(ms, k)
       case Some(v) => Success(v)
       case None => Failure(KeyError(k)))
    case (Obj(_), Index(i)) => Failure(KeyError(IntToString(i)))
    case (Arr(es), Index(i)) =>
      (match Position(i, |es|)
       case Some(p) => Success(es[p])
       case None => Failure(IndexError))
    case (Leaf(JStr(s)), Index(i)) =>
      (match Position(i, |s|)
       case Some(p) => Success(Leaf(JStr([s[p]])))
       case None => Failure(IndexError))
    case _ => Failure(TypeError)
  }

  /** x[k1][k2]...: the subscripts applied left to right; the first that fails
      raises. */
  function Lookup(j: Json, keys: seq<Key>): Result<Json, PyError>
    decreases |keys|
  {
    if keys == [] then Success(j)
    else
      match Subscript(j, keys[0])
      case Failure(e) => Failure(e)
      case Success(v) => Lookup(v, keys[1..])
  }

  /** The items a for-loop visits: a list's elements, a dict's keys, a string's
      characters, each in order; other scalars are not iterable. */
  function Iterate(j: Json): (r: Result<seq<Json>, PyError>)
    ensures j.Arr? ==> r == Success(j.elems)
    ensures r.Success? && !j.Arr? ==> forall x | x in r.value :: x.Leaf? && x.v.JStr?
    ensures r.Success? <==> !j.Leaf? || j.v.JStr?
    ensures j.Obj? ==>
      && |r.value| == |j.members|
      && forall i | 0 <= i < |j.members| :: r.value[i] == Leaf(JStr(Keys(j.members)[i]))
    ensures j.Leaf? && j.v.JStr? ==>
      && |r.value| == |j.v.s|
      && forall i | 0 <= i < |j.v.s| :: r.value[i] == Leaf(JStr([j.v.s[i]]))
  {
    match j
    case Arr(es) => Success(es)
    case Obj(ms) => Success(seq(|ms|, i requires 0 <= i < |ms| => Leaf(JStr(ms[i].0))))
    case Leaf(JStr(s)) => Success(seq(|s|, i requires 0 <= i < |s| => Leaf(JStr([s[i]]))))
    case Leaf(_) => Failure(TypeError)
  }

  /** A lookup succeeds exactly when a dict holds the key, and then gives its value. */
  lemma NameLookup(ms: seq<(string, Json)>, k: string)
    ensures Subscript(Obj(ms), Name(k)).Success? <==> k in Keys(ms)
    ensures Subscript(Obj(ms), Name(k)).Success? ==> (k, Subscript(Obj(ms), Name(k)).value) in ms
  {
    GetSpec(ms, k);
  }
}
