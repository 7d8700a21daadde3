# ReliefWeb disasters scraper — record flattening and row extraction

This project models the core of `hdx-scraper-reliefweb` in Dafny. That core is the code that turns the ReliefWeb API's disaster records into the flat rows of the "ReliefWeb Disasters List" CSV. It has four parts:

- **`_flatten_data` / `_flatten_inner`** write every leaf of a nested record into one shared, insertion-ordered dict, under the `-`-joined path of keys that leads to it. A list is merged under its parent's key:
  - a list of scalars is collected and written once as a `", "`-joined string;
  - for a list of dicts, each element is flattened into the shared dict. After each element, the whole shared dict is scanned for keys below the list's key, and the values found are collected per sub-key.
- **`_format_data`** pops the `"fields"` record of every envelope in a detail response's `"data"` list. It flattens the record and stores it back under `"fields"`.
- **The loop of `scrape_data`** handles each disaster of the listing in turn:
  1. It fetches the disaster's detail response.
  2. It skips the disaster when the fetch raised or the response is empty.
  3. Otherwise it formats the response and takes the flattened record of the first envelope.
  4. It removes `uuid`, `type-primary`, `country-primary`, `profile-overview` and `profile-overview-html`.
  5. It appends the row.
- **`generate_dataset`** takes its CSV headers from the keys of the first row.

## Modules

- `PyJson`: JSON values as Python holds them. It defines Python's `str()`/`repr()` of those values, their truth value and `str.join`.
- `OrderedDict`: a Python dict, as an insertion-ordered association list. It has lookup, assignment (in place for an existing key, appended for a new one), `pop(k, None)` and their laws.
- `Flatten`: the flattener.
  - The functions `Inner`, `InnerMembers`, `InnerElems`, `Scan`, `Collect` and `Emit` state the computation as left folds.
  - The methods `FlattenInner`, `CollectPrefixed`, `AppendCollected`, `EmitJoined` and `FlattenRecord` run the loops. Each is proved equal to its fold.
  - The shared `flat_dict` is threaded through the methods: each method receives it and returns it updated.
- `FlattenNested`, `FlattenOrder`, `FlattenScalarList`, `FlattenDictList`: closed forms and laws of the flattener.
- `FlattenExamples`: three worked records.
- `PyOps`: subscripting and iterating a JSON value, and the exceptions these raise.
- `Format`: `_format_data`.
- `Scrape`: the `scrape_data` loop, the key removal and the CSV headers.

The model follows the code. Three things the code does are not shown by the example in the docstring of `_flatten_data` (`reliefweb.py:151-183`), and the third contradicts it:

- A list of scalars at key `p` comes out under `p-p`. See `FlattenScalarList.ScalarList` and `FlattenExamples.DoubledKey`.
- An element of a list of dicts that lacks a sub-key an earlier element had contributes the earlier element's value again. This is because the scan reads the shared dict. See `FlattenDictList.CarriedOver` and `FlattenExamples.CarryOver`.
- A sub-key first seen in a later element is collected only from that element on. A record shaped like the docstring's example therefore also yields `type-primary` = `"True"`; that key is one of the keys `scrape_data` removes. See `FlattenExamples.LateKey`.

## Model

| member | source | states |
|---|---|---|
| OrderedDict.GetSpec | src/hdx/scraper/reliefweb/reliefweb.py:204 | A dict lookup finds a key exactly when it is present and returns the value stored with it. With distinct keys, that is the value at the key's position. |
| OrderedDict.SetSpec | src/hdx/scraper/reliefweb/reliefweb.py:202 | `d[k] = v` keeps the key order and appends k only when k is new. Afterwards k maps to v, and every other key keeps its value. |
| OrderedDict.SetDistinct | src/hdx/scraper/reliefweb/reliefweb.py:202 | Assignment never makes a key appear twice. |
| OrderedDict.SetOverwrite | src/hdx/scraper/reliefweb/reliefweb.py:202 | Assigning a key twice is the same as assigning the second value once, where the key stands. |
| OrderedDict.SetAt | src/hdx/scraper/reliefweb/reliefweb.py:202 | At the first position holding k, a lookup gives that entry's value, and an assignment replaces that entry in place. |
| OrderedDict.PopSpec | src/hdx/scraper/reliefweb/reliefweb.py:84-85 | `pop(k, None)` leaves a dict without k unchanged. On a dict with distinct keys, it removes exactly the entries under k. |
| OrderedDict.WithoutSpec | src/hdx/scraper/reliefweb/reliefweb.py:84-85 | After the entries under k are removed, no entry under k remains. Every other key keeps its value, distinct keys stay distinct, and nothing new appears. |
| OrderedDict.AppendNew | src/hdx/scraper/reliefweb/reliefweb.py:146 | Assigning a key that is absent appends the entry at the end. |
| Flatten.CollectPrefixed | src/hdx/scraper/reliefweb/reliefweb.py:199-202 | The scan loop over flat_dict computes `Scan`: every key starting with `parent_key + sep`, with that prefix cut off, and its value. |
| Flatten.AppendCollected | src/hdx/scraper/reliefweb/reliefweb.py:203-206 | The collect loop computes `Collect`: each scanned value is appended to its sub-key's list, and a new sub-key starts an empty list. |
| Flatten.EmitJoined | src/hdx/scraper/reliefweb/reliefweb.py:213-214 | The emit loop computes `Emit`: each collected sub-key is written under `parent_key + sep + k` as the `", "`-join of its values. |
| Flatten.FlattenInner | src/hdx/scraper/reliefweb/reliefweb.py:186-216 | The recursive routine, with its member and element loops, computes `Inner`. This covers the dict, list and leaf branches, the list's dict and non-dict elements, and the emit step. |
| Flatten.FlattenRecord | src/hdx/scraper/reliefweb/reliefweb.py:184-219 | `_flatten_data` starts from an empty flat_dict and an empty parent key, and computes `FlattenData`. |
| FlattenNested.ListFreeFlatten | src/hdx/scraper/reliefweb/reliefweb.py:187-191 | A value with no list writes each of its leaves, unchanged and in depth-first order, under the key its path of keys builds. |
| FlattenNested.PathKeyJoin | src/hdx/scraper/reliefweb/reliefweb.py:190 | Below a non-empty parent key, a path's flat key is the parent, the separator and the path's keys joined with the separator. |
| FlattenNested.RootPathKeyJoin | src/hdx/scraper/reliefweb/reliefweb.py:190 | From the top level, a path whose first key is not empty is named by its keys joined with the separator. |
| FlattenNested.SetAllFresh | src/hdx/scraper/reliefweb/reliefweb.py:215-216 | Leaf writes whose keys are distinct and new are appended in order. |
| FlattenNested.ListFreeRecord | src/hdx/scraper/reliefweb/reliefweb.py:184-191 | A list-free record whose leaves have distinct flat keys flattens to exactly its leaves, unchanged, in depth-first order, under their joined paths. |
| FlattenNested.SetAllConcat | src/hdx/scraper/reliefweb/reliefweb.py:189-191 | Applying two runs of leaf writes one after the other is the same as applying their concatenation. |
| FlattenOrder.InnerExtends | src/hdx/scraper/reliefweb/reliefweb.py:186-216 | `_flatten_inner` never moves or removes a key already in flat_dict: it only replaces values or appends keys. It keeps the keys distinct. |
| FlattenOrder.EmitExtends | src/hdx/scraper/reliefweb/reliefweb.py:213-214 | Writing a list's joined values only replaces values or appends keys. |
| FlattenOrder.FlattenDataDistinct | src/hdx/scraper/reliefweb/reliefweb.py:150-219 | A flattened record never holds the same key twice. |
| FlattenOrder.SetAllExtends | src/hdx/scraper/reliefweb/reliefweb.py:215-216 | A run of leaf writes only replaces values or appends keys. |
| FlattenScalarList.ScalarList | src/hdx/scraper/reliefweb/reliefweb.py:207-214 | A non-empty list of non-dict values at `p` writes one key, `p + sep + p`, holding the `", "`-join of the `str()` of its elements in order. An empty list writes nothing. |
| FlattenDictList.ElementWrites | src/hdx/scraper/reliefweb/reliefweb.py:196-198 | A dict element at a non-empty parent writes its sub-leaves behind `parent + sep`. |
| FlattenDictList.ScanBehindRoot | src/hdx/scraper/reliefweb/reliefweb.py:199-202 | When nothing else lies under `parent + sep`, the scan finds exactly the merged sub-entries, in the order they were first written. |
| FlattenDictList.ColumnsStep | src/hdx/scraper/reliefweb/reliefweb.py:203-206 | Collecting after one more element turns list_items into the columns of the longer list. |
| FlattenDictList.ElementStep | src/hdx/scraper/reliefweb/reliefweb.py:196-206 | Flattening one more element merges its sub-leaves into the entries under the list's key. The scan then returns the merged entries. |
| FlattenDictList.ScanMerged | src/hdx/scraper/reliefweb/reliefweb.py:199-202 | When nothing else in flat_dict lies under the list's key, the scan returns exactly the merged sub-keys and values, in the order they were first written. |
| FlattenDictList.ListOfDicts | src/hdx/scraper/reliefweb/reliefweb.py:192-214 | A list of list-free dicts at a non-empty parent, flattened into a flat_dict with nothing under `parent + sep`, appends each sub-key once. The sub-key goes behind `parent + sep`, in first-seen order, and holds the `", "`-join of the values collected after each element. |
| FlattenDictList.MergedDistinct | src/hdx/scraper/reliefweb/reliefweb.py:203-206 | The collected sub-keys are distinct. |
| FlattenDictList.ColumnUnseen | src/hdx/scraper/reliefweb/reliefweb.py:203-206 | A sub-key that no element has written yet has collected nothing. |
| FlattenDictList.GetSetAll | src/hdx/scraper/reliefweb/reliefweb.py:198-202 | After an element's writes, a key holds the element's last value when the element writes it, and its earlier value otherwise. |
| FlattenDictList.CarriedOver | src/hdx/scraper/reliefweb/reliefweb.py:198-206 | An element that lacks sub-key s still adds, to s's column, the value an earlier element left. If no earlier element had s, it adds nothing. |
| FlattenDictList.OwnValueAppended | src/hdx/scraper/reliefweb/reliefweb.py:198-206 | An element that has sub-key s adds its own value to s's column. |
| FlattenDictList.UniformColumn | src/hdx/scraper/reliefweb/reliefweb.py:192-214 | When every element has sub-key s, s's column holds each element's own value, in element order (the docstring's `"4624, 4611"`). |
| FlattenExamples.CarryOver | src/hdx/scraper/reliefweb/reliefweb.py:192-214 | `{"type": [{"id": 1, "name": "A"}, {"id": 2}]}` flattens to `type-id` = `"1, 2"` and `type-name` = `"A, A"`. |
| FlattenExamples.LateKey | src/hdx/scraper/reliefweb/reliefweb.py:192-214 | `{"type": [{"id": 2}, {"id": 2, "primary": true}]}` flattens to `type-id` = `"2, 2"` and `type-primary` = `"True"`. |
| FlattenExamples.DoubledKey | src/hdx/scraper/reliefweb/reliefweb.py:207-214 | `{"tags": ["x", "y"]}` flattens to `tags-tags` = `"x, y"`. |
| PyOps.Position | src/hdx/scraper/reliefweb/reliefweb.py:74 | An int index selects an element exactly when it lies in `[-n, n)`. A negative index counts from the end. |
| PyOps.Iterate | src/hdx/scraper/reliefweb/reliefweb.py:53 | A for-loop visits a list's elements; a dict's keys, each as a string, as many as the dict has and in insertion order; or a string's characters, one by one and in order. Only other scalars raise TypeError. |
| PyOps.NameLookup | src/hdx/scraper/reliefweb/reliefweb.py:50 | `x["k"]` on a dict succeeds exactly when k is a key, and gives its value. |
| Format.RowRoundTrip | src/hdx/scraper/reliefweb/reliefweb.py:146 | The flat record stored under "fields" reads back as the same row. |
| Format.FormatData | src/hdx/scraper/reliefweb/reliefweb.py:140-147 | The envelope loop computes `Formatted`. It raises on a missing "data" or "fields" and on a body or envelope of the wrong type, and stops at the first envelope that raises. |
| Format.FormatEnvelopeSpec | src/hdx/scraper/reliefweb/reliefweb.py:146 | An envelope is formatted exactly when it is a dict holding "fields". Its other keys keep their values and places, and "fields" moves to the end, holding the record flattened with "-". |
| Format.FailureStops | src/hdx/scraper/reliefweb/reliefweb.py:145-146 | Once an envelope raises, no later envelope is visited, and that exception is the result. |
| Format.FormatEnvelopesSpec | src/hdx/scraper/reliefweb/reliefweb.py:145-146 | The loop succeeds exactly when every envelope does, and yields each envelope formatted, in order. |
| Format.FormattedList | src/hdx/scraper/reliefweb/reliefweb.py:140-147 | A response whose "data" is a list is formatted exactly when every envelope is. The list is replaced in place, and every other key of the response keeps its value. |
| Scrape.DropUnpublished | src/hdx/scraper/reliefweb/reliefweb.py:77-85 | The removal loop pops the five listed keys in order. |
| Scrape.PopAllDrop | src/hdx/scraper/reliefweb/reliefweb.py:84-85 | On a row with distinct keys, popping keys one by one is the same as filtering them out at once, and the keys stay distinct. |
| Scrape.DropSpec | src/hdx/scraper/reliefweb/reliefweb.py:84-85 | Filtering leaves none of the removed keys. Every other key keeps its value, distinct keys stay distinct, and no entry is invented. |
| Scrape.WithoutDrop | src/hdx/scraper/reliefweb/reliefweb.py:84-85 | Removing one more key from a filtered row is the same as filtering by one more key. |
| Scrape.Published | src/hdx/scraper/reliefweb/reliefweb.py:76-87 | An appended row holds none of the five removed keys, every other key keeps its value, and the keys are distinct. |
| Scrape.FetchRow | src/hdx/scraper/reliefweb/reliefweb.py:73-74 | Formatting a response and reading `["data"][0]["fields"]` computes `DetailRow`, including the exceptions either step raises. |
| Scrape.DetailRowSpec | src/hdx/scraper/reliefweb/reliefweb.py:73-74 | A response gives a row exactly when it is a dict whose "data" is a non-empty list of dicts that each hold "fields". The row is the first envelope's record flattened with "-", and its keys are distinct. |
| Scrape.ItemRow | src/hdx/scraper/reliefweb/reliefweb.py:54-87 | A disaster yields a row only when its href lookup succeeded and the fetch returned a truthy, readable response. The row is that response's first record, flattened, minus the removed keys; it has distinct keys and none of them removed. |
| Scrape.ScrapeData | src/hdx/scraper/reliefweb/reliefweb.py:50-89 | The loop over the listing computes `Scraped`. Each disaster is skipped (after its name is read for the log), appended, or ends the scrape with its exception. |
| Scrape.GatherConcat | src/hdx/scraper/reliefweb/reliefweb.py:53-89 | Disasters are handled independently and in order: the scrape of two runs is the first run's rows and then the second's. An exception in the first run ends the scrape. |
| Scrape.SkipChangesNothing | src/hdx/scraper/reliefweb/reliefweb.py:56-71 | A skipped disaster (failed fetch or empty response) changes nothing: the scrape with it equals the scrape without it. |
| Scrape.GatherSpec | src/hdx/scraper/reliefweb/reliefweb.py:53-89 | The scrape succeeds exactly when every disaster's pass does. It then holds exactly the rows the passes produced, in listing order (`Kept`), one per disaster not skipped (rows plus skips equal the listing's length). A failure carries the exception of the first pass that raised. |
| Scrape.ScrapedRows | src/hdx/scraper/reliefweb/reliefweb.py:76-89 | Every row of a finished scrape has distinct keys and none of the removed keys. |
| Scrape.Headers | src/hdx/scraper/reliefweb/reliefweb.py:117 | Taking the first row's keys raises IndexError exactly when there are no rows. |
| Scrape.HeadersPublished | src/hdx/scraper/reliefweb/reliefweb.py:117 | The CSV headers of a non-empty scrape are distinct and name none of the removed keys. |

## Left out

- Retrieval:
  - The HTTP retrieval (`Retrieve.download_json`) is a parameter. `Scrape.ScrapeData` takes the downloaded listing body and a function from an href value to the body or the exception its download raised.
  - Building the listing URL and the listing download are not modelled.
- Logging: the `"404"` test only picks a log level and is not modelled. Reading `disaster['fields']['name']` for the log message is modelled, because it can raise.
- `generate_dataset` is modelled only for its use of the first row's keys.
  - `Dataset`, tags, HXL tags, resources, the CSV writing and `slugify` are calls into HDX libraries that are not part of this model.
  - So are the configuration getters `_create_tags` and `_create_hxl_tags`.
- Floats are carried as the text Python's `repr()` gives them. Their value is not interpreted, except that `0.0` and `-0.0` are falsy.
- `repr()` of a string nested in a list is shown between single quotes, without Python's escaping of quotes and control characters.
- `_format_data` changes the response in place; the model returns the changed response as a new value. Aliasing between the appended row and the response is not modelled, since nothing reads the response afterwards.
- Exceptions are reduced to their class, with a KeyError's key. Messages are not modelled.
- Closed forms:
  - The closed form of a list of dicts (`FlattenDictList.ListOfDicts`) covers elements with no list inside them, at a non-empty parent key, with nothing yet stored under `parent + sep`.
  - Lists nested inside list elements, and mixed lists of dicts and scalars, are covered only by the general fold that `Flatten.FlattenInner` is proved against, not by a closed form.
- Scrape.Published: the key-removal properties assume distinct keys in the row. Every row the scraper builds has them (`FlattenOrder.FlattenDataDistinct`). On a dict with a repeated key, `pop` would remove only the first entry, but a Python dict cannot hold one.
- A JSON object with a repeated key is a value the model admits but a Python dict cannot hold: Python's decoder keeps only the last member under that key. The flattening lemmas make no claim that such a value flattens as Python would flatten its decoded dict.
- `src/hdx/scraper/reliefweb/__main__.py` (the command-line entry point and the HDX upload) is not part of this model.
