/** scrape_data: for every disaster in the listing, fetch its detail response,
    skip it when the fetch raised or the response is empty, otherwise format
    the response, take the flat record of its first envelope, drop the keys the
    dataset does not publish, and append the row. Errors outside the try block
    escape and end the scrape. The retriever is a parameter: for each href it
    gives the downloaded body, or the exception the download raised. */
module Scrape {
  import opened Wrappers
  import opened PyJson
  import opened OrderedDict
  import opened PyOps
  import opened Flatten
  import opened FlattenOrder
  import opened Format

  /** What download_json gave for one detail link. */
  datatype Fetch = Raised(message: string) | Body(json: Json)

  /** The keys removed from every row, in the order they are popped. */
  const RemoveKeys: seq<string> :=
    ["uuid", "type-primary", "country-primary", "profile-overview", "profile-overview-html"]

  // ---------------------------------------------------------------------------
  // Dropping the unpublished keys
  // ---------------------------------------------------------------------------

  /** for key in keys: row.pop(key, None) -- a left fold. */
  function PopAll(row: FlatDict, keys: seq<string>): FlatDict
  {
    if keys == [] then row
    else Pop(PopAll(row, keys[..|keys| - 1]), keys[|keys| - 1])
  }

  /** The entries of row whose key is not in ks, in their order. */
  function Drop(row: FlatDict, ks: set<string>): FlatDict
  {
    if row == [] then []
    else (if row[0].0 in ks then [] else [row[0]]) + Drop(row[1..], ks)
  }

  method DropUnpublished(row: FlatDict) returns (out: FlatDict)
    ensures out == PopAll(row, RemoveKeys)
  {
    out := row;
    for i := 0 to |RemoveKeys|
      invariant out == PopAll(row, RemoveKeys[..i])
    {
      assert RemoveKeys[..i + 1][..i] == RemoveKeys[..i];
      out := Pop(out, RemoveKeys[i]);
    }
    assert RemoveKeys[..|RemoveKeys|] == RemoveKeys;
  }

  /** No key of ks is left; every other key keeps its value; distinct keys
      stay distinct. */
  lemma {:induction false} DropSpec(row: FlatDict, ks: set<string>)
    ensures forall k | k in ks :: k !in Keys(Drop(row, ks))
    ensures forall k | k !in ks :: Get(Drop(row, ks), k) == Get(row, k)
    ensures Distinct(row) ==> Distinct(Drop(row, ks))
    ensures forall e | e in Drop(row, ks) :: e in row
  {
    if row != [] {
      DropSpec(row[1..], ks);
      var rest := Drop(row[1..], ks);
      assert row == [row[0]] + row[1..];
      forall e | e in Drop(row, ks) ensures e in row {
        if e in rest {
          assert e in row[1..];
        }
      }
      if row[0].0 in ks {
        assert Drop(row, ks) == rest;
      } else {
        assert Drop(row, ks) == [row[0]] + rest;
        KeysCons(row[0], rest);
        forall k | k !in ks ensures Get(Drop(row, ks), k) == Get(row, k) {
          assert ([row[0]] + rest)[1..] == rest;
        }
      }
      if Distinct(row) {
        DropDistinctStep(row, ks);
      }
    }
  }

  /** Filtering a row with distinct keys keeps them distinct, given that the
      filtered tail does. */
  lemma DropDistinctStep(row: FlatDict, ks: set<string>)
    requires row != [] && Distinct(row)
    requires Distinct(row[1..]) ==> Distinct(Drop(row[1..], ks))
    requires forall e | e in Drop(row[1..], ks) :: e in row[1..]
    ensures Distinct(Drop(row, ks))
  {
    var rest := Drop(row[1..], ks);
    assert Distinct(row[1..]) by {
      forall a, b | 0 <= a < b < |row[1..]| ensures row[1..][a].0 != row[1..][b].0 {
        assert row[1..][a] == row[a + 1] && row[1..][b] == row[b + 1];
      }
    }
    if row[0].0 !in ks {
      forall e | e in rest ensures e.0 != row[0].0 {
        var t :| 0 <= t < |row[1..]| && row[1..][t] == e;
        assert row[t + 1] == e;
      }
      var w := [row[0]] + rest;
      assert Drop(row, ks) == w;
      forall a, b | 0 <= a < b < |w| ensures w[a].0 != w[b].0 {
        assert w[b] == rest[b - 1];
        assert w[b] in rest;
        if a > 0 {
          assert w[a] == rest[a - 1];
        }
      }
    } else {
      assert Drop(row, ks) == rest;
    }
  }

  lemma {:induction false} DropNothing(row: FlatDict)
    ensures Drop(row, {}) == row
  {
    if row != [] {
      DropNothing(row[1..]);
      assert row == [row[0]] + row[1..];
    }
  }

  /** Removing one more key from a filtered row is filtering by one more key. */
  lemma {:induction false} WithoutDrop(row: FlatDict, ks: set<string>, k: string)
    ensures Without(Drop(row, ks), k) == Drop(row, ks + {k})
  {
    if row != [] {
      WithoutDrop(row[1..], ks, k);
      var rest := Drop(row[1..], ks);
      if row[0].0 !in ks {
        var w := [row[0]] + rest;
        assert w[0] == row[0] && w[1..] == rest;
        assert Drop(row, ks) == w;
        if row[0].0 == k {
          assert Without(w, k) == Without(rest, k);
        } else {
          assert Without(w, k) == [row[0]] + Without(rest, k);
        }
      } else {
        assert Drop(row, ks) == rest;
        assert Drop(row, ks + {k}) == Drop(row[1..], ks + {k});
      }
    }
  }

  /** On a row with distinct keys, popping the keys one by one is filtering
      them out at once: the row keeps every other entry, its value and its
      place. */
  lemma {:induction false} PopAllDrop(row: FlatDict, keys: seq<string>)
    requires Distinct(row)
    ensures PopAll(row, keys) == Drop(row, set k | k in keys)
    ensures Distinct(PopAll(row, keys))
  {
    if keys == [] {
      DropNothing(row);
      assert (set k | k in keys) == {};
    } else {
      var init := keys[..|keys| - 1];
      var last := keys[|keys| - 1];
      PopAllDrop(row, init);
      var before := PopAll(row, init);
      PopSpec(before, last);
      WithoutSpec(before, last);
      WithoutDrop(row, (set k | k in init), last);
      assert (set k | k in keys) == (set k | k in init) + {last} by {
        assert keys == init + [last];
      }
    }
  }

  /** The published row: no removed key is left, every other key keeps its
      value, and the keys stay distinct. */
  lemma Published(row: FlatDict)
    requires Distinct(row)
    ensures forall k | k in RemoveKeys :: k !in Keys(PopAll(row, RemoveKeys))
    ensures forall k | k !in RemoveKeys :: Get(PopAll(row, RemoveKeys), k) == Get(row, k)
    ensures Distinct(PopAll(row, RemoveKeys))
  {
    PopAllDrop(row, RemoveKeys);
    DropSpec(row, set k | k in RemoveKeys);
  }

  // ---------------------------------------------------------------------------
  // One detail response
  // ---------------------------------------------------------------------------

  /** flat_data = _format_data(disaster_data); flat_data["data"][0]["fields"] */
  function DetailRow(body: Json): Result<FlatDict, PyError>
  {
    match Formatted(body)
    case Failure(e) => Failure(e)
    case Success(b) =>
      match Lookup(b, [Name("data"), Index(0), Name("fields")])
      case Failure(e) => Failure(e)
      case Success(f) => Success(AsRow(f))
  }

  method FetchRow(body: Json) returns (r: Result<FlatDict, PyError>)
    ensures r == DetailRow(body)
  {
    var formatted := FormatData(body);
    if formatted.Failure? {
      return Failure(formatted.error);
    }
    var f := Lookup(formatted.value, [Name("data"), Index(0), Name("fields")]);
    if f.Failure? {
      return Failure(f.error);
    }
    r := Success(AsRow(f.value));
  }

  /** A detail response the scraper can read: a dict whose "data" is a
      non-empty list of dicts that each hold "fields". */
  predicate Readable(body: Json)
  {
    && body.Obj?
    && Get(body.members, "data").Some?
    && Get(body.members, "data").value.Arr?
    && |Get(body.members, "data").value.elems| > 0
    && forall e | e in Get(body.members, "data").value.elems :: e.Obj? && "fields" in Keys(e.members)
  }

  /** The "fields" record of the first envelope of a readable response. */
  function FirstFields(body: Json): Json
    requires Readable(body)
  {
    var e := Get(body.members, "data").value.elems[0];
    GetSpec(e.members, "fields");
    Get(e.members, "fields").value
  }

  /** A response gives a row exactly when it is readable, and the row is the
      first envelope's record flattened with "-"; only that envelope's record
      becomes a row. Its keys are distinct. */
  lemma DetailRowSpec(body: Json)
    ensures DetailRow(body).Success? <==> Readable(body)
    ensures Readable(body) ==> DetailRow(body).value == FlattenData(FirstFields(body), DefaultSep)
    ensures DetailRow(body).Success? ==> Distinct(DetailRow(body).value)
  {
    if body.Obj? && Get(body.members, "data").Some? && Get(body.members, "data").value.Arr? {
      var ms := body.members;
      var envs := Get(ms, "data").value.elems;
      FormattedList(ms, envs);
      FormatEnvelopesSpec(envs);
      forall i | 0 <= i < |envs| ensures FormatEnvelope(envs[i]).Success? <==> envs[i].Obj? && "fields" in Keys(envs[i].members) {
        FormatEnvelopeSpec(envs[i]);
      }
      if Formatted(body).Success? {
        var b := Formatted(body).value;
        var out := FormatEnvelopes(envs).value;
        if |envs| > 0 {
          FormatEnvelopeSpec(envs[0]);
          var f := Get(envs[0].members, "fields").value;
          assert Lookup(b, [Name("data"), Index(0), Name("fields")]) == Lookup(out[0], [Name("fields")]);
          RowRoundTrip(FlattenData(f, DefaultSep));
          FlattenDataDistinct(f, DefaultSep);
        } else {
          assert Lookup(b, [Name("data"), Index(0), Name("fields")]) == Failure(IndexError);
        }
      }
    } else if body.Obj? && Get(body.members, "data").Some? {
      // "data" holds a dict or a leaf: formatting raises, or leaves nothing at
      // index 0 when the dict or the string is empty.
      var inner := Get(body.members, "data").value;
      if Formatted(body).Success? {
        assert Formatted(body) == Success(body);
        assert Iterate(inner).value == [];
      }
    }
  }

  // ---------------------------------------------------------------------------
  // One disaster of the listing
  // ---------------------------------------------------------------------------

  /** disaster['fields']['name'], which the log line of a skipped disaster reads. */
  function Skip(entry: Json): Result<Option<FlatDict>, PyError>
  {
    match Lookup(entry, [Name("fields"), Name("name")])
    case Failure(e) => Failure(e)
    case Success(_) => Success(None)
  }

  /** One pass of the loop: the row it appends, None when the disaster is
      skipped, or the exception that escapes. */
  function Item(entry: Json, download: Json -> Fetch): Result<Option<FlatDict>, PyError>
  {
    match Subscript(entry, Name("href"))
    case Failure(e) => Failure(e)
    case Success(url) =>
      match download(url)
      case Raised(_) => Skip(entry)
      case Body(b) =>
        if !Truthy(b) then Skip(entry)
        else
          match DetailRow(b)
          case Failure(e) => Failure(e)
          case Success(row) => Success(Some(PopAll(row, RemoveKeys)))
  }

  /** A row appended for a disaster is its first envelope's flattened record
      without the removed keys; its keys are distinct and none is removed. */
  lemma ItemRow(entry: Json, download: Json -> Fetch)
    requires Item(entry, download).Success? && Item(entry, download).value.Some?
    ensures var row := Item(entry, download).value.value;
      && Subscript(entry, Name("href")).Success?
      && var fetched := download(Subscript(entry, Name("href")).value);
      && fetched.Body?
      && Truthy(fetched.json)
      && Readable(fetched.json)
      && row == Drop(FlattenData(FirstFields(fetched.json), DefaultSep), set k | k in RemoveKeys)
      && Distinct(row)
      && forall k | k in RemoveKeys :: k !in Keys(row)
  {
    var b := download(Subscript(entry, Name("href")).value).json;
    DetailRowSpec(b);
    var flat := DetailRow(b).value;
    PopAllDrop(flat, RemoveKeys);
    Published(flat);
  }

  // ---------------------------------------------------------------------------
  // The whole listing
  // ---------------------------------------------------------------------------

  /** The loop over the passes, as a left fold: the first pass that raises ends
      the scrape. */
  function Gather(steps: seq<Result<Option<FlatDict>, PyError>>): Result<seq<FlatDict>, PyError>
  {
    if steps == [] then Success([])
    else
      match Gather(steps[..|steps| - 1])
      case Failure(e) => Failure(e)
      case Success(rows) =>
        match steps[|steps| - 1]
        case Failure(e) => Failure(e)
        case Success(None) => Success(rows)
        case Success(Some(row)) => Success(rows + [row])
  }

  function Items(entries: seq<Json>, download: Json -> Fetch): seq<Result<Option<FlatDict>, PyError>>
  {
    seq(|entries|, i requires 0 <= i < |entries| => Item(entries[i], download))
  }

  /** scrape_data(): data["data"] of the listing, iterated. */
  function Scraped(listing: Json, download: Json -> Fetch): Result<seq<FlatDict>, PyError>
  {
    match Subscript(listing, Name("data"))
    case Failure(e) => Failure(e)
    case Success(l) =>
      match Iterate(l)
      case Failure(e) => Failure(e)
      case Success(entries) => Gather(Items(entries, download))
  }

  method ScrapeData(listing: Json, download: Json -> Fetch) returns (r: Result<seq<FlatDict>, PyError>)
    ensures r == Scraped(listing, download)
  {
    var l := Subscript(listing, Name("data"));
    if l.Failure? {
      return Failure(l.error);
    }
    var it := Iterate(l.value);
    if it.Failure? {
      return Failure(it.error);
    }
    var entries := it.value;
    ghost var steps := Items(entries, download);
    var rows: seq<FlatDict> := [];
    var i := 0;
    while i < |entries|
      invariant 0 <= i <= |entries|
      invariant Gather(steps[..i]) == Success(rows)
    {
      assert steps[..i + 1] + steps[i + 1..] == steps by {
        assert |steps| == |entries|;
      }
      assert steps[..i + 1] == steps[..i] + [steps[i]];
      GatherConcat(steps[..i], [steps[i]]);
      GatherConcat(steps[..i + 1], steps[i + 1..]);
      var entry := entries[i];
      var url := Subscript(entry, Name("href"));
      if url.Failure? {
        return Failure(url.error);
      }
      var fetched := download(url.value);
      if fetched.Raised? || !Truthy(fetched.json) {
        var name := Lookup(entry, [Name("fields"), Name("name")]);
        if name.Failure? {
          return Failure(name.error);
        }
      } else {
        var row := FetchRow(fetched.json);
        if row.Failure? {
          return Failure(row.error);
        }
        var kept := DropUnpublished(row.value);
        rows := rows + [kept];
      }
      i := i + 1;
    }
    assert steps[..i] == steps;
    r := Success(rows);
  }

  /** The passes compose: the scrape of two runs of passes is the scrape of the
      first, then of the second, and an exception in the first ends it. */
  lemma {:induction false} GatherConcat(a: seq<Result<Option<FlatDict>, PyError>>, b: seq<Result<Option<FlatDict>, PyError>>)
    ensures Gather(a + b) ==
      match Gather(a)
      case Failure(e) => Failure(e)
      case Success(x) =>
        match Gather(b)
        case Failure(e) => Failure(e)
        case Success(y) => Success(x + y)
  {
    if b == [] {
      assert a + b == a;
      assert Gather(b) == Success([]);
      if Gather(a).Success? {
        assert Gather(a).value + [] == Gather(a).value;
      }
    } else {
      var init := b[..|b| - 1];
      GatherConcat(a, init);
      assert (a + b)[..|a + b| - 1] == a + init;
      assert (a + b)[|a + b| - 1] == b[|b| - 1];
      if Gather(a).Success? && Gather(init).Success? {
        var x := Gather(a).value;
        var y := Gather(init).value;
        assert Gather(a + init) == Success(x + y);
        match b[|b| - 1]
        case Failure(e) =>
        case Success(None) =>
        case Success(Some(row)) =>
          assert x + y + [row] == x + (y + [row]);
      }
    }
  }

  /** A skipped disaster changes nothing: the scrape with it is the scrape
      without it. */
  lemma SkipChangesNothing(a: seq<Result<Option<FlatDict>, PyError>>, b: seq<Result<Option<FlatDict>, PyError>>)
    ensures Gather(a + [Success(None)] + b) == Gather(a + b)
  {
    GatherConcat(a, [Success(None)]);
    GatherConcat(a + [Success(None)], b);
    GatherConcat(a, b);
    var skip: seq<Result<Option<FlatDict>, PyError>> := [Success(None)];
    assert skip[..0] == [];
  }

  /** The number of passes that skip. */
  function Skipped(steps: seq<Result<Option<FlatDict>, PyError>>): nat
  {
    if steps == [] then 0
    else Skipped(steps[..|steps| - 1]) + (if steps[|steps| - 1] == Success(None) then 1 else 0)
  }

  /** The rows the passes append, in the order of the passes: the row of every
      pass that produced one. */
  function Kept(steps: seq<Result<Option<FlatDict>, PyError>>): seq<FlatDict>
  {
    if steps == [] then []
    else
      (if steps[0].Success? && steps[0].value.Some? then [steps[0].value.value] else [])
      + Kept(steps[1..])
  }

  /** One more pass at the end adds its row, if any, at the end. */
  lemma {:induction false} KeptSnoc(steps: seq<Result<Option<FlatDict>, PyError>>, x: Result<Option<FlatDict>, PyError>)
    ensures Kept(steps + [x]) == Kept(steps) + Kept([x])
  {
    if steps != [] {
      assert (steps + [x])[0] == steps[0];
      assert (steps + [x])[1..] == steps[1..] + [x];
      KeptSnoc(steps[1..], x);
    }
  }

  /** The scrape succeeds exactly when every pass does; it then holds one row
      per pass that was not skipped, each the row that pass produced, in order
      of the listing. When it fails, the exception is that of the first pass
      that raised. */
  lemma {:induction false} GatherSpec(steps: seq<Result<Option<FlatDict>, PyError>>)
    ensures Gather(steps).Success? <==> forall i | 0 <= i < |steps| :: steps[i].Success?
    ensures Gather(steps).Success? ==> |Gather(steps).value| + Skipped(steps) == |steps|
    ensures Gather(steps).Success? ==>
      forall r | r in Gather(steps).value :: exists i :: 0 <= i < |steps| && steps[i] == Success(Some(r))
    ensures Gather(steps).Success? ==> Gather(steps).value == Kept(steps)
    ensures Gather(steps).Failure? ==>
      exists j :: 0 <= j < |steps| && steps[j] == Failure(Gather(steps).error)
        && forall i | 0 <= i < j :: steps[i].Success?
  {
    if steps != [] {
      var n := |steps| - 1;
      var init := steps[..n];
      GatherSpec(init);
      assert forall i | 0 <= i < n :: init[i] == steps[i];
      assert steps == init + [steps[n]];
      KeptSnoc(init, steps[n]);
      assert Kept([steps[n]]) == (if steps[n].Success? && steps[n].value.Some? then [steps[n].value.value] else []) + Kept([]);
      if Gather(init).Failure? {
        var j :| 0 <= j < n && init[j] == Failure(Gather(init).error) && forall i | 0 <= i < j :: init[i].Success?;
        assert steps[j] == init[j];
      } else if Gather(steps).Success? {
        forall r | r in Gather(steps).value ensures exists i :: 0 <= i < |steps| && steps[i] == Success(Some(r)) {
          if r !in Gather(init).value {
            assert steps[n] == Success(Some(r));
          } else {
            var i :| 0 <= i < n && init[i] == Success(Some(r));
            assert steps[i] == Success(Some(r));
          }
        }
      } else {
        assert steps[n] == Failure(Gather(steps).error);
      }
    }
  }

  /** Every row of a finished scrape has distinct keys and none of the removed
      keys, and is the flattened record of a readable detail response. */
  lemma ScrapedRows(listing: Json, download: Json -> Fetch)
    requires Scraped(listing, download).Success?
    ensures forall row | row in Scraped(listing, download).value ::
      Distinct(row) && forall k | k in RemoveKeys :: k !in Keys(row)
  {
    var entries := Iterate(Subscript(listing, Name("data")).value).value;
    var steps := Items(entries, download);
    GatherSpec(steps);
    forall row | row in Scraped(listing, download).value
      ensures Distinct(row) && forall k | k in RemoveKeys :: k !in Keys(row)
    {
      var i :| 0 <= i < |steps| && steps[i] == Success(Some(row));
      ItemRow(entries[i], download);
    }
  }

  // ---------------------------------------------------------------------------
  // generate_dataset
  // ---------------------------------------------------------------------------

  /** list(disaster_list[0].keys()): the CSV headers are the first row's keys;
      an empty list raises IndexError. */
  function Headers(rows: seq<FlatDict>): (r: Result<seq<string>, PyError>)
    ensures r.Failure? <==> rows == []
  {
    if rows == [] then Failure(IndexError) else Success(Keys(rows[0]))
  }

  /** The headers of a scrape are distinct and name none of the removed keys. */
  lemma HeadersPublished(listing: Json, download: Json -> Fetch)
    requires Scraped(listing, download).Success?
    requires Scraped(listing, download).value != []
    ensures var hs := Headers(Scraped(listing, download).value).value;
      && (forall a, b | 0 <= a < b < |hs| :: hs[a] != hs[b])
      && forall k | k in RemoveKeys :: k !in hs
  {
    var rows := Scraped(listing, download).value;
    ScrapedRows(listing, download);
    assert rows[0] in rows;
    var hs := Keys(rows[0]);
    forall a, b | 0 <= a < b < |hs| ensures hs[a] != hs[b] {
      assert hs[a] == rows[0][a].0 && hs[b] == rows[0][b].0;
    }
  }
}
