/** Key order of the flattener: keys come out in the order in which they were
    first written. A later write to a key (such as the joined value of a
    list, written over the per-element values) replaces the value where the
    key stands, so no step ever moves or removes a key of the accumulator,
    and the accumulator never holds a key twice. */
module FlattenOrder {
  import opened PyJson
  import opened OrderedDict
  import opened Flatten
  import opened FlattenNested

  /** b holds the keys of a, in the same positions, possibly followed by more. */
  predicate Extends(a: FlatDict, b: FlatDict)
  {
    |a| <= |b| && Keys(b)[..|a|] == Keys(a)
  }

  lemma ExtendsTrans(a: FlatDict, b: FlatDict, c: FlatDict)
    requires Extends(a, b) && Extends(b, c)
    ensures Extends(a, c)
  {
    assert Keys(c)[..|a|] == Keys(c)[..|b|][..|a|];
  }

  lemma SetExtends(d: FlatDict, k: string, v: Scalar)
    ensures Extends(d, Set(d, k, v))
    ensures Distinct(d) ==> Distinct(Set(d, k, v))
  {
    SetSpec(d, k, v);
    if Distinct(d) {
      SetDistinct(d, k, v);
    }
  }

  /** Writing a list's joined values only replaces values or appends keys. */
  lemma {:induction false} EmitExtends(items: ListItems, parent: string, sep: string, flat: FlatDict)
    ensures Extends(flat, Emit(items, parent, sep, flat))
    ensures Distinct(flat) ==> Distinct(Emit(items, parent, sep, flat))
  {
    if items != [] {
      var (k, vs) := items[|items| - 1];
      var before := Emit(items[..|items| - 1], parent, sep, flat);
      EmitExtends(items[..|items| - 1], parent, sep, flat);
      SetExtends(before, parent + sep + k, JStr(JoinShown(vs)));
      ExtendsTrans(flat, before, Emit(items, parent, sep, flat));
    }
  }

  /** _flatten_inner never moves or removes a key of the accumulator, and
      keeps its keys distinct. */
  lemma {:induction false} InnerExtends(item: Json, parent: string, sep: string, flat: FlatDict)
    ensures Extends(flat, Inner(item, parent, sep, flat))
    ensures Distinct(flat) ==> Distinct(Inner(item, parent, sep, flat))
    decreases item, 2
  {
    match item
    case Leaf(v) =>
      SetExtends(flat, parent, v);
    case Obj(ms) =>
      MembersExtend(item, |ms|, parent, sep, flat);
    case Arr(es) =>
      var (f, items) := InnerElems(item, |es|, parent, sep, flat);
      ElemsExtend(item, |es|, parent, sep, flat);
      EmitExtends(items, parent, sep, f);
      ExtendsTrans(flat, f, Inner(item, parent, sep, flat));
  }

  lemma {:induction false} MembersExtend(item: Json, n: nat, parent: string, sep: string, flat: FlatDict)
    requires item.Obj? && n <= |item.members|
    ensures Extends(flat, InnerMembers(item, n, parent, sep, flat))
    ensures Distinct(flat) ==> Distinct(InnerMembers(item, n, parent, sep, flat))
    decreases item, 1, n
  {
    if n > 0 {
      var f := InnerMembers(item, n - 1, parent, sep, flat);
      MembersExtend(item, n - 1, parent, sep, flat);
      InnerExtends(item.members[n - 1].1, ChildKey(parent, sep, item.members[n - 1].0), sep, f);
      ExtendsTrans(flat, f, InnerMembers(item, n, parent, sep, flat));
    }
  }

  lemma {:induction false} ElemsExtend(item: Json, n: nat, parent: string, sep: string, flat: FlatDict)
    requires item.Arr? && n <= |item.elems|
    ensures Extends(flat, InnerElems(item, n, parent, sep, flat).0)
    ensures Distinct(flat) ==> Distinct(InnerElems(item, n, parent, sep, flat).0)
    decreases item, 1, n
  {
    if n > 0 {
      var f := InnerElems(item, n - 1, parent, sep, flat).0;
      ElemsExtend(item, n - 1, parent, sep, flat);
      var e := item.elems[n - 1];
      if e.Obj? {
        InnerExtends(e, parent, sep, f);
        ExtendsTrans(flat, f, Inner(e, parent, sep, f));
      }
    }
  }

  /** A flattened record never holds the same key twice. */
  lemma FlattenDataDistinct(data: Json, sep: string)
    ensures Distinct(FlattenData(data, sep))
  {
    InnerExtends(data, "", sep, []);
  }

  /** A run of writes only replaces values or appends keys. */
  lemma {:induction false} SetAllExtends(d: FlatDict, w: FlatDict)
    ensures Extends(d, SetAll(d, w))
    ensures Distinct(d) ==> Distinct(SetAll(d, w))
  {
    if w != [] {
      var before := SetAll(d, w[..|w| - 1]);
      SetAllExtends(d, w[..|w| - 1]);
      SetExtends(before, w[|w| - 1].0, w[|w| - 1].1);
      ExtendsTrans(d, before, SetAll(d, w));
    }
  }
}
