/** _format_data: for every envelope in a detail response's "data" list, the
    "fields" record is popped, flattened with the default separator "-" and
    stored back under "fields". Python does this in place; here the formatted
    response is returned as a new value. */
module Format {
  import opened Wrappers
  import opened PyJson
  import opened OrderedDict
  import opened PyOps
  import opened Flatten
  import opened FlattenOrder

  /** The default separator of _flatten_data. */
  const DefaultSep := "-"

  /** A flat row stored back into the response: a dict of leaves. */
  function RowJson(row: FlatDict): (j: Json)
    ensures j.Obj? && Keys(j.members) == Keys(row)
  {
    Obj(seq(|row|, i requires 0 <= i < |row| => (row[i].0, Leaf(row[i].1))))
  }

  /** The flat row a stored dict of leaves stands for. */
  function AsRow(j: Json): FlatDict
  {
    match j
    case Obj(ms) => seq(|ms|, i requires 0 <= i < |ms| => (ms[i].0, if ms[i].1.Leaf? then ms[i].1.v else JNull))
    case _ => []
  }

  /** Reading a stored row back gives the row that was stored. */
  lemma RowRoundTrip(row: FlatDict)
    ensures AsRow(RowJson(row)) == row
  {
  }

  /** d["fields"] = _flatten_data(d.pop("fields")) on one envelope. pop without
      a default raises KeyError on a dict that has no "fields"; a list's pop
      wants an int (TypeError); other values have no pop (AttributeError). */
  function FormatEnvelope(d: Json): Result<Json, PyError>
  {
    match d
    case Obj(ms) =>
      (match Get(ms, "fields")
       case None => Failure(KeyError("fields"))
       case Some(f) => Success(Obj(Set(Pop(ms, "fields"), "fields", RowJson(FlattenData(f, DefaultSep))))))
    case Arr(_) => Failure(TypeError)
    case Leaf(_) => Failure(AttributeError)
  }

  /** The loop over the envelopes, as a left fold: the first envelope that
      raises stops it. */
  function FormatEnvelopes(envs: seq<Json>): Result<seq<Json>, PyError>
  {
    if envs == [] then Success([])
    else
      match FormatEnvelopes(envs[..|envs| - 1])
      case Failure(e) => Failure(e)
      case Success(done) =>
        (match FormatEnvelope(envs[|envs| - 1])
         case Failure(e) => Failure(e)
         case Success(d) => Success(done + [d]))
  }

  /** _format_data(data). Iterating a dict or a string that is not empty yields
      strings, whose missing pop raises before anything is stored, so only a
      list under "data" is ever rewritten. */
  function Formatted(body: Json): Result<Json, PyError>
  {
    match Subscript(body, Name("data"))
    case Failure(e) => Failure(e)
    case Success(inner) =>
      match Iterate(inner)
      case Failure(e) => Failure(e)
      case Success(envs) =>
        match FormatEnvelopes(envs)
        case Failure(e) => Failure(e)
        case Success(out) =>
          if inner.Arr? && body.Obj? then Success(Obj(Set(body.members, "data", Arr(out))))
          else Success(body)
  }

  // ---------------------------------------------------------------------------
  // The loop, as Python runs it
  // ---------------------------------------------------------------------------

  method FormatData(body: Json) returns (r: Result<Json, PyError>)
    ensures r == Formatted(body)
  {
    var inner := Subscript(body, Name("data"));
    if inner.Failure? {
      return Failure(inner.error);
    }
    var items := Iterate(inner.value);
    if items.Failure? {
      return Failure(items.error);
    }
    var envs := items.value;
    var out: seq<Json> := [];
    var i := 0;
    while i < |envs|
      invariant 0 <= i <= |envs|
      invariant FormatEnvelopes(envs[..i]) == Success(out)
    {
      assert envs[..i + 1][..i] == envs[..i];
      var d := envs[i];
      if !d.Obj? {
        FailureStops(envs, i + 1);
        return Failure(if d.Arr? then TypeError else AttributeError);
      }
      var fields := Get(d.members, "fields");
      if fields.None? {
        FailureStops(envs, i + 1);
        return Failure(KeyError("fields"));
      }
      var flat := FlattenRecord(fields.value, DefaultSep);
      var rest := Pop(d.members, "fields");
      out := out + [Obj(Set(rest, "fields", RowJson(flat)))];
      i := i + 1;
    }
    assert envs[..i] == envs;
    if inner.value.Arr? && body.Obj? {
      r := Success(Obj(Set(body.members, "data", Arr(out))));
    } else {
      r := Success(body);
    }
  }

  // ---------------------------------------------------------------------------
  // Properties
  // ---------------------------------------------------------------------------

  /** On a dict with distinct keys that holds "fields", the flattened record
      replaces "fields", which moves to the end; every other key keeps its
      value and its place. Any other envelope raises. */
  lemma FormatEnvelopeSpec(d: Json)
    ensures FormatEnvelope(d).Success? <==> d.Obj? && "fields" in Keys(d.members)
    ensures d.Obj? && Distinct(d.members) && "fields" in Keys(d.members) ==>
      FormatEnvelope(d) == Success(Obj(Without(d.members, "fields")
        + [("fields", RowJson(FlattenData(Get(d.members, "fields").value, DefaultSep)))]))
    ensures FormatEnvelope(d).Success? ==>
      Lookup(FormatEnvelope(d).value, [Name("fields")]) == Success(RowJson(FlattenData(Get(d.members, "fields").value, DefaultSep)))
  {
    if d.Obj? {
      var ms := d.members;
      GetSpec(ms, "fields");
      if "fields" in Keys(ms) {
        var f := Get(ms, "fields").value;
        var row := RowJson(FlattenData(f, DefaultSep));
        var popped := Pop(ms, "fields");
        SetSpec(popped, "fields", row);
        if Distinct(ms) {
          PopSpec(ms, "fields");
          WithoutSpec(ms, "fields");
          AppendNew(popped, "fields", row);
        }
      }
    }
  }

  /** Once an envelope raises, the envelopes after it are never visited. */
  lemma {:induction false} FailureStops(envs: seq<Json>, j: nat)
    requires j <= |envs| && FormatEnvelopes(envs[..j]).Failure?
    ensures FormatEnvelopes(envs) == FormatEnvelopes(envs[..j])
    decreases |envs| - j
  {
    if j < |envs| {
      assert envs[..|envs| - 1][..j] == envs[..j];
      FailureStops(envs[..|envs| - 1], j);
    } else {
      assert envs[..j] == envs;
    }
  }

  /** The loop succeeds exactly when every envelope does, and then yields each
      envelope formatted, in order. */
  lemma {:induction false} FormatEnvelopesSpec(envs: seq<Json>)
    ensures FormatEnvelopes(envs).Success? <==> forall i | 0 <= i < |envs| :: FormatEnvelope(envs[i]).Success?
    ensures FormatEnvelopes(envs).Success? ==>
      |FormatEnvelopes(envs).value| == |envs| &&
      forall i | 0 <= i < |envs| :: FormatEnvelopes(envs).value[i] == FormatEnvelope(envs[i]).value
  {
    if envs != [] {
      var n := |envs| - 1;
      var init := envs[..n];
      FormatEnvelopesSpec(init);
      assert forall i | 0 <= i < n :: init[i] == envs[i];
    }
  }

  /** A response whose "data" is a list is formatted exactly when every
      envelope in it is; the list is replaced where it stands by the formatted
      envelopes and every other key of the response is untouched. */
  lemma FormattedList(ms: seq<(string, Json)>, envs: seq<Json>)
    requires Get(ms, "data") == Some(Arr(envs))
    ensures Formatted(Obj(ms)).Success? <==> forall i | 0 <= i < |envs| :: FormatEnvelope(envs[i]).Success?
    ensures Formatted(Obj(ms)).Success? ==>
      var r := Formatted(Obj(ms)).value;
      && r.Obj?
      && Keys(r.members) == Keys(ms)
      && (forall k | k != "data" :: Get(r.members, k) == Get(ms, k))
      && Get(r.members, "data") == Some(Arr(FormatEnvelopes(envs).value))
  {
    FormatEnvelopesSpec(envs);
    if FormatEnvelopes(envs).Success? {
      GetSpec(ms, "data");
      SetSpec(ms, "data", Arr(FormatEnvelopes(envs).value));
    }
  }
}
