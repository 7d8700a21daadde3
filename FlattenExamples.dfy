/** Worked records, evaluated through the closed forms: a list of dicts whose
    second element lacks a sub-key the first one had, one whose second element
    brings a sub-key the first one lacked, and a list of strings. */
module FlattenExamples {
  import opened Wrappers
  import opened PyJson
  import opened OrderedDict
  import opened Flatten
  import opened FlattenNested
  import opened FlattenDictList
  import opened FlattenScalarList

  /** {"id": 1, "name": "A"} */
  function E1(): Json { Obj([("id", Leaf(JInt(1))), ("name", Leaf(JStr("A")))]) }
  /** {"id": 2} */
  function E2(): Json { Obj([("id", Leaf(JInt(2)))]) }

  lemma SubLeavesExample()
    ensures SubLeaves(E1(), "-") == [("id", JInt(1)), ("name", JStr("A"))]
    ensures SubLeaves(E2(), "-") == [("id", JInt(2))]
  {
    var e1 := E1();
    var e2 := E2();
    var pi: seq<string> := ["id"];
    var pn: seq<string> := ["name"];
    assert pi + [] == pi && pn + [] == pn;
    assert UnderKey("id", [([], JInt(1))])[0] == (["id"], JInt(1));
    assert UnderKey("name", [([], JStr("A"))])[0] == (["name"], JStr("A"));
    assert UnderKey("id", [([], JInt(2))])[0] == (["id"], JInt(2));
    assert MemberLeafPaths(e1, 1) == [(["id"], JInt(1))];
    assert MemberLeafPaths(e1, 2) == [(["id"], JInt(1)), (["name"], JStr("A"))];
    assert MemberLeafPaths(e2, 1) == [(["id"], JInt(2))];
    assert Join(["id"], "-") == "id" && Join(["name"], "-") == "name";
  }

  lemma MergedExample()
    ensures Merged([E1()], "-") == [("id", JInt(1)), ("name", JStr("A"))]
    ensures Merged([E1(), E2()], "-") == [("id", JInt(2)), ("name", JStr("A"))]
  {
    SubLeavesExample();
    var w1 := SubLeaves(E1(), "-");
    var w2 := SubLeaves(E2(), "-");
    assert w1[..1] == [("id", JInt(1))];
    assert w1[..1][..0] == [];
    assert SetAll([], w1[..1]) == [("id", JInt(1))];
    assert Set([("id", JInt(1))], "name", JStr("A")) == [("id", JInt(1)), ("name", JStr("A"))];
    assert [E1()][..0] == [];
    assert [E1(), E2()][..1] == [E1()];
    assert w2[..0] == [];
  }

  lemma ColumnExample()
    ensures Column([E1(), E2()], "id", "-") == [JInt(1), JInt(2)]
    ensures Column([E1(), E2()], "name", "-") == [JStr("A"), JStr("A")]
  {
    MergedExample();
    assert [E1()][..0] == [];
    assert [E1(), E2()][..1] == [E1()];
    assert Get([("id", JInt(1)), ("name", JStr("A"))], "name") == Some(JStr("A"));
    assert Get([("id", JInt(2)), ("name", JStr("A"))], "name") == Some(JStr("A"));
  }

  lemma JoinExample()
    ensures JoinShown([JInt(1), JInt(2)]) == "1, 2"
    ensures JoinShown([JStr("A"), JStr("A")]) == "A, A"
  {
    assert DigitChar(1) == '1' && DigitChar(2) == '2';
    assert Show(JInt(1)) == "1" && Show(JInt(2)) == "2";
    var parts: seq<string> := ["1", "2"];
    assert parts[1..] == ["2"];
    assert seq(2, i requires 0 <= i < 2 => Show([JInt(1), JInt(2)][i])) == parts;
    var aa: seq<string> := ["A", "A"];
    assert aa[1..] == ["A"];
    assert seq(2, i requires 0 <= i < 2 => Show([JStr("A"), JStr("A")][i])) == aa;
  }

  /** {"type": [{"id": 1, "name": "A"}, {"id": 2}]}: the second element has
      no "name", and the scan finds the first element's name again. */
  lemma CarryOver()
    ensures FlattenData(Obj([("type", Arr([E1(), E2()]))]), "-")
         == [("type-id", JStr("1, 2")), ("type-name", JStr("A, A"))]
  {
    var es := [E1(), E2()];
    MergedExample();
    ColumnExample();
    JoinExample();
    var m := Merged(es, "-");
    assert m[0].0 == "id" && m[1].0 == "name";
    assert "type" + "-" + "id" == "type-id" && "type" + "-" + "name" == "type-name";
    var agg := Aggregated(es, "type", "-");
    assert |agg| == 2;
    assert agg[0] == ("type-id", JStr("1, 2"));
    assert agg[1] == ("type-name", JStr("A, A"));
    assert Aggregated(es, "type", "-") == [("type-id", JStr("1, 2")), ("type-name", JStr("A, A"))];
    ListOfDicts(es, "type", "-", []);
    var data := Obj([("type", Arr(es))]);
    assert InnerMembers(data, 0, "", "-", []) == [];
    assert Inner(data, "", "-", []) == Inner(Arr(es), "type", "-", []);
  }

  /** {"tags": ["x", "y"]}: a list of strings comes out under "tags-tags". */
  lemma DoubledKey()
    ensures FlattenData(Obj([("tags", Arr([Leaf(JStr("x")), Leaf(JStr("y"))]))]), "-")
         == [("tags-tags", JStr("x, y"))]
  {
    var es := [Leaf(JStr("x")), Leaf(JStr("y"))];
    ScalarList(es, "tags", "-", []);
    var parts: seq<string> := ["x", "y"];
    assert Shown(es) == parts;
    assert parts[1..] == ["y"];
    assert Join(parts, ", ") == "x, y";
    assert "tags" + "-" + "tags" == "tags-tags";
    var data := Obj([("tags", Arr(es))]);
    assert InnerMembers(data, 0, "", "-", []) == [];
    assert Inner(data, "", "-", []) == Inner(Arr(es), "tags", "-", []);
  }

  /** {"id": 2, "primary": true} */
  function E3(): Json { Obj([("id", Leaf(JInt(2))), ("primary", Leaf(JBool(true)))]) }

  lemma LateKeyColumns()
    ensures SubLeaves(E3(), "-") == [("id", JInt(2)), ("primary", JBool(true))]
    ensures Merged([E2()], "-") == [("id", JInt(2))]
    ensures Merged([E2(), E3()], "-") == [("id", JInt(2)), ("primary", JBool(true))]
  {
    SubLeavesExample();
    var e3 := E3();
    var pi: seq<string> := ["id"];
    var pp: seq<string> := ["primary"];
    assert pi + [] == pi && pp + [] == pp;
    assert UnderKey("id", [([], JInt(2))])[0] == (["id"], JInt(2));
    assert UnderKey("primary", [([], JBool(true))])[0] == (["primary"], JBool(true));
    assert MemberLeafPaths(e3, 1) == [(["id"], JInt(2))];
    assert MemberLeafPaths(e3, 2) == [(["id"], JInt(2)), (["primary"], JBool(true))];
    assert Join(["id"], "-") == "id" && Join(["primary"], "-") == "primary";
    var w3 := SubLeaves(e3, "-");
    assert w3[..1] == [("id", JInt(2))];
    assert w3[..1][..0] == [];
    assert [E2()][..0] == [];
    assert [E2(), E3()][..1] == [E2()];
    assert SubLeaves(E2(), "-")[..0] == [];
    assert Merged([E2()], "-") == [("id", JInt(2))];
    assert SetAll([("id", JInt(2))], w3[..1]) == [("id", JInt(2))];
    assert Set([("id", JInt(2))], "primary", JBool(true)) == [("id", JInt(2)), ("primary", JBool(true))];
    assert SetAll([("id", JInt(2))], w3) == [("id", JInt(2)), ("primary", JBool(true))];
  }

  lemma LateKeyJoined()
    ensures JoinShown([JInt(2), JInt(2)]) == "2, 2"
    ensures JoinShown([JBool(true)]) == "True"
  {
    assert DigitChar(2) == '2' && Show(JInt(2)) == "2";
    var parts: seq<string> := ["2", "2"];
    assert parts[1..] == ["2"];
    assert seq(2, i requires 0 <= i < 2 => Show([JInt(2), JInt(2)][i])) == parts;
    assert seq(1, i requires 0 <= i < 1 => Show([JBool(true)][i])) == ["True"];
  }

  lemma LateKeyAggregated()
    ensures Aggregated([E2(), E3()], "type", "-") == [("type-id", JStr("2, 2")), ("type-primary", JStr("True"))]
  {
    var es := [E2(), E3()];
    LateKeyColumns();
    LateKeyJoined();
    assert [E2()][..0] == [];
    assert es[..1] == [E2()];
    assert Get([("id", JInt(2))], "primary") == None;
    assert Column(es, "id", "-") == [JInt(2), JInt(2)];
    assert Column(es, "primary", "-") == [JBool(true)];
    var m := Merged(es, "-");
    assert m[0].0 == "id" && m[1].0 == "primary";
    assert "type" + "-" + "id" == "type-id" && "type" + "-" + "primary" == "type-primary";
    var agg := Aggregated(es, "type", "-");
    assert |agg| == 2;
    assert agg[0] == ("type-id", JStr("2, 2"));
    assert agg[1] == ("type-primary", JStr("True"));
  }

  /** {"type": [{"id": 2}, {"id": 2, "primary": true}]}: "primary" first
      appears in the second element and is collected from there on. */
  lemma LateKey()
    ensures FlattenData(Obj([("type", Arr([E2(), E3()]))]), "-")
         == [("type-id", JStr("2, 2")), ("type-primary", JStr("True"))]
  {
    var es := [E2(), E3()];
    LateKeyAggregated();
    ListOfDicts(es, "type", "-", []);
    var data := Obj([("type", Arr(es))]);
    assert InnerMembers(data, 0, "", "-", []) == [];
    assert Inner(data, "", "-", []) == Inner(Arr(es), "type", "-", []);
  }
}
