/** What the flattener does with a list of scalars: the str() of each element
    is collected under the parent key itself, and the emit step then writes
    parent + sep + parent, so a list at "p" comes out under "p-p". */
module FlattenScalarList {
  import opened Wrappers
  import opened PyJson
  import opened OrderedDict
  import opened Flatten

  /** The str() of each element, in index order. */
  function Shown(es: seq<Json>): seq<string>
  {
    seq(|es|, i requires 0 <= i < |es| => Str(es[i]))
  }

  lemma {:induction false} ScalarElems(item: Json, n: nat, parent: string, sep: string, flat: FlatDict)
    requires item.Arr? && n <= |item.elems|
    requires forall e | e in item.elems :: !e.Obj?
    ensures InnerElems(item, n, parent, sep, flat)
         == (flat, if n == 0 then [] else [(parent, seq(n, i requires 0 <= i < n => JStr(Str(item.elems[i]))))])
  {
    if n > 0 {
      ScalarElems(item, n - 1, parent, sep, flat);
      assert item.elems[n - 1] in item.elems;
      var prev := seq(n - 1, i requires 0 <= i < n - 1 => JStr(Str(item.elems[i])));
      var now := seq(n, i requires 0 <= i < n => JStr(Str(item.elems[i])));
      assert now == prev + [JStr(Str(item.elems[n - 1]))];
      var v := JStr(Str(item.elems[n - 1]));
      if n == 1 {
        assert Append([], parent, v) == [(parent, [] + [v])];
        assert now == [v];
      } else {
        assert Get([(parent, prev)], parent) == Some(prev);
        assert Append([(parent, prev)], parent, v) == [(parent, prev + [v])];
      }
    }
  }

  /** A non-empty list of non-dict elements at parent writes one key,
      parent + sep + parent, holding the ", "-join of the str() of its
      elements in index order; an empty list writes nothing. */
  lemma ScalarList(es: seq<Json>, parent: string, sep: string, flat: FlatDict)
    requires forall e | e in es :: !e.Obj?
    ensures Inner(Arr(es), parent, sep, flat)
         == if es == [] then flat else Set(flat, parent + sep + parent, JStr(Join(Shown(es), ", ")))
  {
    var item := Arr(es);
    ScalarElems(item, |es|, parent, sep, flat);
    if es != [] {
      var vs := seq(|es|, i requires 0 <= i < |es| => JStr(Str(es[i])));
      var items := [(parent, vs)];
      assert items[..0] == [];
      assert seq(|vs|, i requires 0 <= i < |vs| => Show(vs[i])) == Shown(es);
      assert Emit(items, parent, sep, flat) == Set(flat, parent + sep + parent, JStr(JoinShown(vs)));
    }
  }
}
