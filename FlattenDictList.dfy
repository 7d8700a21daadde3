/** What the flattener does with a list of dicts. Every element is flattened
    into the shared accumulator under the list's own key; after each element
    the whole accumulator is scanned for keys under that key, and each value
    found is appended to the list of its sub-key. Afterwards each sub-key is
    written once, as the ", "-join of its list.

    Because the scan reads the shared accumulator, an element that lacks a
    sub-key that an earlier element had contributes that earlier value again,
    and a sub-key first seen in a later element is collected only from that
    element on. The lemmas below give the outcome in closed form, for lists
    of list-free dicts written into an accumulator that holds nothing under
    the list's key yet. */
module FlattenDictList {
  import opened Wrappers
  import opened PyJson
  import opened OrderedDict
  import opened Flatten
  import opened FlattenNested
  import opened FlattenOrder

  // ---------------------------------------------------------------------
  // The closed form
  // ---------------------------------------------------------------------

  /** The sub-keys an element writes below the list's key: each leaf under its
      path of keys joined with the separator. */
  function SubLeaves(e: Json, sep: string): FlatDict
  {
    var ps := LeafPaths(e);
    seq(|ps|, i requires 0 <= i < |ps| => (Join(ps[i].0, sep), ps[i].1))
  }

  /** The same entries, each key behind root. */
  function Under(root: string, d: FlatDict): FlatDict
  {
    seq(|d|, i requires 0 <= i < |d| => (root + d[i].0, d[i].1))
  }

  /** The sub-keys found by the scan after the elements es, each with the
      value of the latest element that wrote it, in the order first written. */
  function Merged(es: seq<Json>, sep: string): FlatDict
  {
    if es == [] then [] else SetAll(Merged(es[..|es| - 1], sep), SubLeaves(es[|es| - 1], sep))
  }

  /** The values collected for sub-key s over the elements es: after each
      element, the value the scan finds for s, if it finds s at all. */
  function Column(es: seq<Json>, s: string, sep: string): seq<Scalar>
  {
    if es == [] then []
    else
      Column(es[..|es| - 1], s, sep)
      + (match Get(Merged(es, sep), s) case Some(v) => [v] case None => [])
  }

  /** list_items after the elements es. */
  function Columns(es: seq<Json>, sep: string): ListItems
  {
    var m := Merged(es, sep);
    seq(|m|, i requires 0 <= i < |m| => (m[i].0, Column(es, m[i].0, sep)))
  }

  /** What a list of dicts at parent adds to the accumulator: each sub-key,
      behind parent and the separator, with the ", "-join of its column. */
  function Aggregated(es: seq<Json>, parent: string, sep: string): FlatDict
  {
    var m := Merged(es, sep);
    seq(|m|, i requires 0 <= i < |m| => (parent + sep + m[i].0, JStr(JoinShown(Column(es, m[i].0, sep)))))
  }

  /** No key of d starts with root. */
  predicate NothingUnder(d: FlatDict, root: string)
  {
    forall i | 0 <= i < |d| :: !HasPrefix(d[i].0, root)
  }

  // ---------------------------------------------------------------------
  // Writes of one element
  // ---------------------------------------------------------------------

  lemma {:induction false} MemberLeafPathsNonEmpty(j: Json, n: nat)
    requires j.Obj? && n <= |j.members|
    ensures forall i | 0 <= i < |MemberLeafPaths(j, n)| :: MemberLeafPaths(j, n)[i].0 != []
  {
    if n > 0 {
      MemberLeafPathsNonEmpty(j, n - 1);
      var a: seq<(seq<string>, Scalar)> := MemberLeafPaths(j, n - 1);
      var b: seq<(seq<string>, Scalar)> := UnderKey(j.members[n - 1].0, LeafPaths(j.members[n - 1].1));
      forall i | 0 <= i < |a + b| ensures |(a + b)[i].0| > 0 {
        if i >= |a| {
          assert (a + b)[i] == b[i - |a|];
        }
      }
    }
  }

  /** A dict element at a non-empty parent writes its sub-leaves behind parent + sep. */
  lemma ElementWrites(e: Json, parent: string, sep: string)
    requires e.Obj? && parent != ""
    ensures Keyed(parent, LeafPaths(e), sep) == Under(parent + sep, SubLeaves(e, sep))
  {
    var ps := LeafPaths(e);
    assert ps == MemberLeafPaths(e, |e.members|);
    MemberLeafPathsNonEmpty(e, |e.members|);
    forall i | 0 <= i < |ps|
      ensures PathKey(parent, ps[i].0, sep) == parent + sep + Join(ps[i].0, sep)
    {
      PathKeyJoin(parent, ps[i].0, sep);
    }
  }

  // ---------------------------------------------------------------------
  // The accumulator: what lies before root, then the merged entries behind root
  // ---------------------------------------------------------------------

  lemma {:induction false} SetBehindRoot(acc: FlatDict, root: string, m: FlatDict, s: string, v: Scalar)
    requires NothingUnder(acc, root)
    ensures Set(acc + Under(root, m), root + s, v) == acc + Under(root, Set(m, s, v))
    decreases |acc| + |m|
  {
    if acc != [] {
      assert (acc + Under(root, m))[0] == acc[0];
      assert (root + s)[..|root|] == root;
      SetBehindRoot(acc[1..], root, m, s, v);
      assert (acc + Under(root, m))[1..] == acc[1..] + Under(root, m);
    } else if m != [] {
      assert acc + Under(root, m) == Under(root, m);
      assert Under(root, m)[1..] == Under(root, m[1..]);
      if m[0].0 != s {
        assert root + m[0].0 != root + s by {
          assert (root + m[0].0)[|root|..] == m[0].0 && (root + s)[|root|..] == s;
        }
        SetBehindRoot([], root, m[1..], s, v);
        assert [] + Under(root, m[1..]) == Under(root, m[1..]);
        assert Under(root, Set(m, s, v)) == [Under(root, m)[0]] + Under(root, Set(m[1..], s, v));
      } else {
        assert Under(root, Set(m, s, v)) == [(root + s, v)] + Under(root, m[1..]);
      }
    } else {
      assert acc + Under(root, m) == [];
      assert Under(root, Set(m, s, v)) == [(root + s, v)];
    }
  }

  lemma {:induction false} SetAllBehindRoot(acc: FlatDict, root: string, m: FlatDict, w: FlatDict)
    requires NothingUnder(acc, root)
    ensures SetAll(acc + Under(root, m), Under(root, w)) == acc + Under(root, SetAll(m, w))
  {
    if w != [] {
      var n := |w|;
      assert Under(root, w)[..n - 1] == Under(root, w[..n - 1]);
      SetAllBehindRoot(acc, root, m, w[..n - 1]);
      SetBehindRoot(acc, root, SetAll(m, w[..n - 1]), w[n - 1].0, w[n - 1].1);
    }
  }

  lemma {:induction false} ScanNothingUnder(acc: FlatDict, root: string)
    requires NothingUnder(acc, root)
    ensures Scan(acc, root) == []
  {
    if acc != [] {
      ScanNothingUnder(acc[..|acc| - 1], root);
    }
  }

  /** The scan of such an accumulator finds exactly the merged entries. */
  lemma {:induction false} ScanBehindRoot(acc: FlatDict, root: string, m: FlatDict, i: nat)
    requires NothingUnder(acc, root) && Distinct(m) && i <= |m|
    ensures Scan((acc + Under(root, m))[..|acc| + i], root) == m[..i]
  {
    var d := acc + Under(root, m);
    if i == 0 {
      assert d[..|acc|] == acc;
      ScanNothingUnder(acc, root);
    } else {
      ScanBehindRoot(acc, root, m, i - 1);
      var prefix := d[..|acc| + i];
      assert prefix[..|prefix| - 1] == d[..|acc| + i - 1];
      var (k, v) := prefix[|prefix| - 1];
      assert k == root + m[i - 1].0 && v == m[i - 1].1;
      assert k[..|root|] == root && k[|root|..] == m[i - 1].0;
      var ks := Keys(m[..i - 1]);
      assert m[i - 1].0 !in ks by {
        forall t | 0 <= t < |ks| ensures ks[t] != m[i - 1].0 {
          assert ks[t] == m[t].0;
        }
      }
      AppendNew(m[..i - 1], m[i - 1].0, m[i - 1].1);
      assert m[..i - 1] + [m[i - 1]] == m[..i];
    }
  }

  // ---------------------------------------------------------------------
  // list_items
  // ---------------------------------------------------------------------

  /** list_items whose keys are the first keys of m, after the first i entries
      of m have been collected into it. */
  function Aligned(items: ListItems, m: FlatDict, i: nat): ListItems
    requires |items| <= |m| && i <= |m|
  {
    var n := if i < |items| then |items| else i;
    seq(n, t requires 0 <= t < n =>
      (m[t].0, (if t < |items| then items[t].1 else []) + (if t < i then [m[t].1] else [])))
  }

  predicate KeysAligned(items: ListItems, m: FlatDict)
  {
    && |items| <= |m|
    && forall t | 0 <= t < |items| :: items[t].0 == m[t].0
  }

  lemma AlignedStepPresent(items: ListItems, m: FlatDict, i: nat)
    requires Distinct(m) && KeysAligned(items, m) && 0 < i <= |items|
    ensures Append(Aligned(items, m, i - 1), m[i - 1].0, m[i - 1].1) == Aligned(items, m, i)
  {
    var c := Aligned(items, m, i - 1);
    var (k, v) := m[i - 1];
    assert c[i - 1] == (k, items[i - 1].1 + []);
    assert items[i - 1].1 + [] == items[i - 1].1;
    SetAt(c, i - 1, k, c[i - 1].1 + [v]);
  }

  lemma AlignedStepNew(items: ListItems, m: FlatDict, i: nat)
    requires Distinct(m) && KeysAligned(items, m) && |items| < i <= |m|
    ensures Append(Aligned(items, m, i - 1), m[i - 1].0, m[i - 1].1) == Aligned(items, m, i)
  {
    var c := Aligned(items, m, i - 1);
    var (k, v) := m[i - 1];
    assert k !in Keys(c) by {
      forall t | 0 <= t < |c| ensures Keys(c)[t] != k {
        assert c[t].0 == m[t].0;
      }
    }
    GetSpec(c, k);
    AppendNew(c, k, [] + [v]);
  }

  /** Collecting the distinct entries of m into list_items whose keys are the
      first keys of m appends each value to its key's list, where the key
      stands, or adds the key at the end with a one-value list. */
  lemma {:induction false} CollectAligned(items: ListItems, m: FlatDict, i: nat)
    requires Distinct(m) && KeysAligned(items, m) && i <= |m|
    ensures Collect(items, m[..i]) == Aligned(items, m, i)
  {
    if i == 0 {
      assert m[..0] == [];
      forall t | 0 <= t < |items|
        ensures items[t] == (m[t].0, items[t].1 + [])
      {
        assert items[t].1 + [] == items[t].1;
      }
    } else {
      CollectAligned(items, m, i - 1);
      assert m[..i][..i - 1] == m[..i - 1];
      assert Collect(items, m[..i]) == Append(Aligned(items, m, i - 1), m[i - 1].0, m[i - 1].1);
      if i <= |items| {
        AlignedStepPresent(items, m, i);
      } else {
        AlignedStepNew(items, m, i);
      }
    }
  }

  lemma MergedDistinct(es: seq<Json>, sep: string)
    ensures Distinct(Merged(es, sep))
    decreases |es|
  {
    if es != [] {
      MergedDistinct(es[..|es| - 1], sep);
      SetAllExtends(Merged(es[..|es| - 1], sep), SubLeaves(es[|es| - 1], sep));
    }
  }

  /** A sub-key that no element has written yet has collected nothing. */
  lemma {:induction false} ColumnUnseen(es: seq<Json>, s: string, sep: string)
    requires s !in Keys(Merged(es, sep))
    ensures Column(es, s, sep) == []
  {
    if es != [] {
      var before := Merged(es[..|es| - 1], sep);
      SetAllExtends(before, SubLeaves(es[|es| - 1], sep));
      assert s !in Keys(before) by {
        forall t | 0 <= t < |before| ensures Keys(before)[t] != s {
          assert Keys(Merged(es, sep))[..|before|][t] == Keys(before)[t];
        }
      }
      ColumnUnseen(es[..|es| - 1], s, sep);
      GetSpec(Merged(es, sep), s);
    }
  }

  /** One more element turns list_items into the columns of the longer list. */
  lemma ColumnsStep(es: seq<Json>, e: Json, sep: string)
    ensures Collect(Columns(es, sep), Merged(es + [e], sep)) == Columns(es + [e], sep)
  {
    var m := Merged(es, sep);
    var m' := Merged(es + [e], sep);
    assert (es + [e])[..|es|] == es;
    assert m' == SetAll(m, SubLeaves(e, sep));
    SetAllExtends(m, SubLeaves(e, sep));
    MergedDistinct(es, sep);
    MergedDistinct(es + [e], sep);
    var cols := Columns(es, sep);
    forall t | 0 <= t < |cols| ensures cols[t].0 == m'[t].0 {
      assert Keys(m')[..|m|][t] == Keys(m)[t];
    }
    CollectAligned(cols, m', |m'|);
    assert m'[..|m'|] == m';
    var c := Collect(cols, m');
    forall t | 0 <= t < |m'| ensures c[t] == Columns(es + [e], sep)[t] {
      var s := m'[t].0;
      SetAt(m', t, s, m'[t].1);
      if t < |m| {
        assert Keys(m')[..|m|][t] == Keys(m)[t];
      } else {
        assert s !in Keys(m) by {
          forall u | 0 <= u < |m| ensures Keys(m)[u] != s {
            assert Keys(m')[..|m|][u] == Keys(m)[u];
            assert Keys(m')[u] != Keys(m')[t];
          }
        }
        ColumnUnseen(es, s, sep);
      }
    }
  }

  // ---------------------------------------------------------------------
  // The whole list
  // ---------------------------------------------------------------------

  /** One more dict element: flattening it into the accumulator merges its
      sub-leaves behind root, and the scan then finds the merged entries. */
  lemma ElementStep(es: seq<Json>, e: Json, parent: string, sep: string, acc: FlatDict)
    requires parent != "" && e.Obj? && ListFree(e)
    requires NothingUnder(acc, parent + sep)
    ensures Inner(e, parent, sep, acc + Under(parent + sep, Merged(es, sep)))
         == acc + Under(parent + sep, Merged(es + [e], sep))
    ensures Scan(acc + Under(parent + sep, Merged(es + [e], sep)), parent + sep) == Merged(es + [e], sep)
  {
    var root := parent + sep;
    var m := Merged(es, sep);
    ListFreeFlatten(e, parent, sep, acc + Under(root, m));
    ElementWrites(e, parent, sep);
    SetAllBehindRoot(acc, root, m, SubLeaves(e, sep));
    assert (es + [e])[..|es|] == es;
    ScanMerged(es + [e], root, sep, acc);
  }

  /** With nothing else under root, the scan finds exactly the merged
      entries, in the order they were first written. */
  lemma ScanMerged(es: seq<Json>, root: string, sep: string, acc: FlatDict)
    requires NothingUnder(acc, root)
    ensures Scan(acc + Under(root, Merged(es, sep)), root) == Merged(es, sep)
  {
    var m := Merged(es, sep);
    MergedDistinct(es, sep);
    ScanBehindRoot(acc, root, m, |m|);
    assert (acc + Under(root, m))[..|acc| + |m|] == acc + Under(root, m);
    assert m[..|m|] == m;
  }

  /** After the first n elements: the accumulator is what was there before
      followed by the merged entries behind parent + sep, and list_items holds
      the columns. */
  lemma {:induction false} ElemsClosed(item: Json, n: nat, parent: string, sep: string, acc: FlatDict)
    requires item.Arr? && n <= |item.elems| && parent != ""
    requires forall e | e in item.elems :: e.Obj? && ListFree(e)
    requires NothingUnder(acc, parent + sep)
    ensures InnerElems(item, n, parent, sep, acc)
         == (acc + Under(parent + sep, Merged(item.elems[..n], sep)), Columns(item.elems[..n], sep))
  {
    var root := parent + sep;
    if n == 0 {
      assert item.elems[..0] == [];
      assert Merged([], sep) == [] && Columns([], sep) == [];
      assert acc + Under(root, []) == acc;
    } else {
      ElemsClosed(item, n - 1, parent, sep, acc);
      var es := item.elems[..n - 1];
      var e := item.elems[n - 1];
      assert e in item.elems;
      assert item.elems[..n] == es + [e];
      ElementStep(es, e, parent, sep, acc);
      ColumnsStep(es, e, sep);
      var f := acc + Under(root, Merged(es, sep));
      var f' := Inner(e, parent, sep, f);
      assert InnerElems(item, n, parent, sep, acc) == (f', Collect(Columns(es, sep), Scan(f', root)));
    }
  }

  /** Part way through the emit loop, the next key to write is first held by
      the merged entry it replaces. */
  lemma EmitTarget(es: seq<Json>, parent: string, sep: string, acc: FlatDict, i: nat)
    requires NothingUnder(acc, parent + sep)
    requires 0 < i <= |Merged(es, sep)|
    ensures var x := acc + Aggregated(es, parent, sep)[..i - 1] + Under(parent + sep, Merged(es, sep))[i - 1..];
            var k := parent + sep + Merged(es, sep)[i - 1].0;
            && |acc| + i - 1 < |x| && x[|acc| + i - 1].0 == k
            && forall u | 0 <= u < |acc| + i - 1 :: x[u].0 != k
  {
    var root := parent + sep;
    var m := Merged(es, sep);
    var agg := Aggregated(es, parent, sep);
    var under := Under(root, m);
    MergedDistinct(es, sep);
    var x := acc + agg[..i - 1] + under[i - 1..];
    var k := parent + sep + m[i - 1].0;
    var t := |acc| + i - 1;
    assert x[t] == under[i - 1];
    assert k[..|root|] == root && k[|root|..] == m[i - 1].0;
    forall u | 0 <= u < t ensures x[u].0 != k {
      if u < |acc| {
        assert x[u] == acc[u];
      } else {
        assert x[u] == agg[u - |acc|];
        var ku := x[u].0;
        assert ku[|root|..] == m[u - |acc|].0;
      }
    }
  }

  /** Replacing the first entry of the tail by the head's next entry moves the
      boundary between head and tail one place on. */
  lemma Splice<T>(a: seq<T>, b: seq<T>, c: seq<T>, i: nat)
    requires 0 < i <= |b| == |c|
    ensures (a + b[..i - 1] + c[i - 1..])[|a| + i - 1 := b[i - 1]] == a + b[..i] + c[i..]
  {
    var x := (a + b[..i - 1] + c[i - 1..])[|a| + i - 1 := b[i - 1]];
    var y := a + b[..i] + c[i..];
    assert |x| == |y|;
    forall u | 0 <= u < |x| ensures x[u] == y[u] {
      if u < |a| {
      } else if u < |a| + i {
        assert y[u] == b[u - |a|];
      } else {
        assert y[u] == c[u - |a| - i + i];
      }
    }
  }

  /** One step of the emit loop over the collected columns. */
  lemma EmitClosedStep(es: seq<Json>, parent: string, sep: string, acc: FlatDict, i: nat)
    requires NothingUnder(acc, parent + sep)
    requires 0 < i <= |Merged(es, sep)|
    requires Emit(Columns(es, sep)[..i - 1], parent, sep, acc + Under(parent + sep, Merged(es, sep)))
         == acc + Aggregated(es, parent, sep)[..i - 1] + Under(parent + sep, Merged(es, sep))[i - 1..]
    ensures Emit(Columns(es, sep)[..i], parent, sep, acc + Under(parent + sep, Merged(es, sep)))
         == acc + Aggregated(es, parent, sep)[..i] + Under(parent + sep, Merged(es, sep))[i..]
  {
    var m := Merged(es, sep);
    var agg := Aggregated(es, parent, sep);
    var under := Under(parent + sep, m);
    var cols := Columns(es, sep)[..i];
    assert cols[..i - 1] == Columns(es, sep)[..i - 1];
    var x := acc + agg[..i - 1] + under[i - 1..];
    var k := parent + sep + m[i - 1].0;
    var j := JStr(JoinShown(Column(es, m[i - 1].0, sep)));
    assert cols[i - 1] == (m[i - 1].0, Column(es, m[i - 1].0, sep));
    assert Emit(cols, parent, sep, acc + under) == Set(x, k, j);
    EmitTarget(es, parent, sep, acc, i);
    SetAt(x, |acc| + i - 1, k, j);
    assert agg[i - 1] == (k, j);
    Splice(acc, agg, under, i);
  }

  /** Writing the joined columns replaces each merged entry where it stands. */
  lemma {:induction false} EmitClosed(es: seq<Json>, parent: string, sep: string, acc: FlatDict, i: nat)
    requires NothingUnder(acc, parent + sep)
    requires i <= |Merged(es, sep)|
    ensures Emit(Columns(es, sep)[..i], parent, sep, acc + Under(parent + sep, Merged(es, sep)))
         == acc + Aggregated(es, parent, sep)[..i] + Under(parent + sep, Merged(es, sep))[i..]
  {
    if i == 0 {
      var under := Under(parent + sep, Merged(es, sep));
      assert Columns(es, sep)[..0] == [];
      assert Aggregated(es, parent, sep)[..0] == [] && under[0..] == under;
    } else {
      EmitClosed(es, parent, sep, acc, i - 1);
      EmitClosedStep(es, parent, sep, acc, i);
    }
  }

  /** A list of list-free dicts at a non-empty parent, flattened into an
      accumulator holding nothing under parent + sep yet, adds exactly one key
      per sub-key, parent + sep + sub-key, in the order the sub-keys were first
      written, each holding the ", "-join of the str() of its column. */
  lemma ListOfDicts(es: seq<Json>, parent: string, sep: string, acc: FlatDict)
    requires parent != ""
    requires forall e | e in es :: e.Obj? && ListFree(e)
    requires NothingUnder(acc, parent + sep)
    ensures Inner(Arr(es), parent, sep, acc) == acc + Aggregated(es, parent, sep)
  {
    var item := Arr(es);
    ElemsClosed(item, |es|, parent, sep, acc);
    assert es[..|es|] == es;
    var m := Merged(es, sep);
    EmitClosed(es, parent, sep, acc, |m|);
    assert Columns(es, sep)[..|m|] == Columns(es, sep);
    assert Aggregated(es, parent, sep)[..|m|] == Aggregated(es, parent, sep);
    assert Under(parent + sep, m)[|m|..] == [];
  }

  // ---------------------------------------------------------------------
  // What each element contributes to a column
  // ---------------------------------------------------------------------

  /** The value an element itself gives sub-key s: its last leaf under s. */
  function OwnValue(e: Json, s: string, sep: string): Option<Scalar>
  {
    Get(SetAll([], SubLeaves(e, sep)), s)
  }

  /** After a run of writes, a key holds its last written value, or the value
      it held before when the run does not write it. */
  lemma {:induction false} GetSetAll(d: FlatDict, w: FlatDict, s: string)
    ensures Get(SetAll(d, w), s) == if s in Keys(w) then Get(SetAll([], w), s) else Get(d, s)
    ensures s in Keys(w) ==> Get(SetAll(d, w), s).Some?
    decreases |w|
  {
    if w != [] {
      var w' := w[..|w| - 1];
      var (k, v) := w[|w| - 1];
      assert SetAll(d, w) == Set(SetAll(d, w'), k, v);
      assert SetAll([], w) == Set(SetAll([], w'), k, v);
      assert Keys(w) == Keys(w') + [k];
      if s == k {
        SetSpec(SetAll(d, w'), k, v);
        SetSpec(SetAll([], w'), k, v);
      } else {
        GetSetAll(d, w', s);
        GetSetAll([], w', s);
        SetSpec(SetAll(d, w'), k, v);
        SetSpec(SetAll([], w'), k, v);
        assert s in Keys(w) <==> s in Keys(w');
      }
    }
  }

  /** Stale carry-over: an element that lacks sub-key s still adds a value to
      the column of s, namely the value left by the latest earlier element
      that had s; if no earlier element had s, it adds nothing. */
  lemma CarriedOver(es: seq<Json>, e: Json, s: string, sep: string)
    requires s !in Keys(SubLeaves(e, sep))
    ensures Get(Merged(es, sep), s).Some? ==>
      Column(es + [e], s, sep) == Column(es, s, sep) + [Get(Merged(es, sep), s).value]
    ensures Get(Merged(es, sep), s).None? ==> Column(es + [e], s, sep) == Column(es, s, sep)
  {
    assert (es + [e])[..|es|] == es;
    GetSetAll(Merged(es, sep), SubLeaves(e, sep), s);
  }

  /** An element that has sub-key s adds its own value to the column of s. */
  lemma OwnValueAppended(es: seq<Json>, e: Json, s: string, sep: string)
    requires s in Keys(SubLeaves(e, sep))
    ensures OwnValue(e, s, sep).Some?
    ensures Column(es + [e], s, sep) == Column(es, s, sep) + [OwnValue(e, s, sep).value]
  {
    assert (es + [e])[..|es|] == es;
    GetSetAll(Merged(es, sep), SubLeaves(e, sep), s);
    GetSetAll([], SubLeaves(e, sep), s);
  }

  /** When every element has sub-key s, its column holds one value per
      element, each element's own, in element order. */
  lemma {:induction false} UniformColumn(es: seq<Json>, s: string, sep: string)
    requires forall e | e in es :: s in Keys(SubLeaves(e, sep))
    ensures forall e | e in es :: OwnValue(e, s, sep).Some?
    ensures Column(es, s, sep)
         == seq(|es|, i requires 0 <= i < |es| && OwnValue(es[i], s, sep).Some? => OwnValue(es[i], s, sep).value)
  {
    if es != [] {
      var es' := es[..|es| - 1];
      var e := es[|es| - 1];
      assert forall x | x in es' :: x in es;
      UniformColumn(es', s, sep);
      assert es' + [e] == es;
      OwnValueAppended(es', e, s, sep);
      forall x | x in es ensures OwnValue(x, s, sep).Some? {
        if x != e {
          assert x in es';
        }
      }
    }
  }
}
