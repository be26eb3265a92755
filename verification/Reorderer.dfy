/** ReorderModels as it runs: two recursive closures over shared lists and maps. */
module Reorderer {
  import opened ReorderModels

  /** What the caller passes: a view by its SQL, or a model. */
  datatype Value = View(sql: string) | Model(name: Name)

  function Views(values: seq<Value>): seq<string> {
    if values == [] then []
    else (if values[0].View? then [values[0].sql] else []) + Views(values[1..])
  }

  function Models(values: seq<Value>): seq<Name> {
    if values == [] then []
    else (if values[0].Model? then [values[0].name] else []) + Models(values[1..])
  }

  lemma {:induction false} KindsConcat(a: seq<Value>, b: seq<Value>)
    ensures Views(a + b) == Views(a) + Views(b) && Models(a + b) == Models(a) + Models(b)
  {
    if a == [] {
      assert a + b == b;
    } else {
      assert (a + b)[0] == a[0] && (a + b)[1..] == a[1..] + b;
      KindsConcat(a[1..], b);
    }
  }

  lemma KindOfOne(v: Value)
    ensures Views([v]) == if v.View? then [v.sql] else []
    ensures Models([v]) == if v.Model? then [v.name] else []
  {
    assert [v][1..] == [];
  }

  /** Wherever a value stands, it comes out once, in its place among its kind. */
  lemma KindsKept(a: seq<Value>, v: Value, b: seq<Value>)
    ensures Views(a + [v] + b) == Views(a) + (if v.View? then [v.sql] else []) + Views(b)
    ensures Models(a + [v] + b) == Models(a) + (if v.Model? then [v.name] else []) + Models(b)
  {
    hide Views;
    hide Models;
    KindsConcat(a + [v], b);
    KindsConcat(a, [v]);
    KindOfOne(v);
  }

  lemma {:induction false} ModelsAre(values: seq<Value>)
    ensures forall n <- Models(values) :: Model(n) in values
  {
    if values != [] {
      ModelsAre(values[1..]);
      assert forall v <- values[1..] :: v in values;
    }
  }

  class Walk {
    const g: Graph
    const autoAdd: bool
    var modelNames: seq<Name>
    var orderedModelNames: seq<Name>
    var orderedModelNamesMap: set<Name>
    var valuesMap: map<Name, seq<Name>>

    constructor (g: Graph, autoAdd: bool)
      ensures this.g == g && this.autoAdd == autoAdd && Now() == START
    {
      this.g, this.autoAdd := g, autoAdd;
      modelNames, orderedModelNames, orderedModelNamesMap, valuesMap := [], [], {}, map[];
    }

    ghost function Now(): State
      reads this
    {
      State(modelNames, orderedModelNames, orderedModelNamesMap, valuesMap)
    }

    method ParseDependence(name: Name, addToList: bool)
      requires Sound(g, Now()) && name in g
      modifies this
      ensures Now() == Parse(g, old(Now()), name, addToList, autoAdd)
      decreases Unparsed(g, Now())
    {
      if name in valuesMap {
        return;
      }
      assert name in Unparsed(g, Now());
      valuesMap := valuesMap[name := g[name].depends];
      if addToList {
        modelNames := modelNames + [name];
      }
      assert name !in Unparsed(g, Now());
      assert Unparsed(g, Now()) < old(Unparsed(g, Now()));
      var deferred := g[name].deferred;
      ghost var total := ParseAll(g, Now(), deferred, autoAdd);
      hide Parse;
      assert deferred[0..] == deferred;
      for i := 0 to |deferred|
        invariant Sound(g, Now()) && Unparsed(g, Now()) < old(Unparsed(g, Now()))
        invariant ParseAll(g, Now(), deferred[i..], autoAdd) == total
      {
        assert deferred[i..][1..] == deferred[i + 1..];
        ghost var was := Now();
        ParseDependence(deferred[i], autoAdd);
        assert Unparsed(g, Now()) <= Unparsed(g, was);
      }
    }

    method InsertIntoOrderedList(name: Name)
      requires Sound(g, Now()) && name in valuesMap
      modifies this
      ensures Now() == Insert(g, old(Now()), name, autoAdd)
      decreases g.Keys - orderedModelNamesMap, 0
    {
      if name in orderedModelNamesMap {
        return;
      }
      assert name in g.Keys - orderedModelNamesMap;
      orderedModelNamesMap := orderedModelNamesMap + {name};
      assert name !in g.Keys - orderedModelNamesMap;
      if autoAdd {
        WalkDependencies(valuesMap[name]);
      }
      orderedModelNames := orderedModelNames + [name];
    }

    method WalkDependencies(depends: seq<Name>)
      requires Sound(g, Now()) && autoAdd && forall d <- depends :: d in g
      modifies this
      ensures Now() == InsertAll(g, old(Now()), depends)
      decreases g.Keys - orderedModelNamesMap, 1
    {
      ghost var total := InsertAll(g, Now(), depends);
      hide Insert;
      hide Parse;
      assert depends[0..] == depends;
      for i := 0 to |depends|
        invariant Sound(g, Now()) && old(orderedModelNamesMap) <= orderedModelNamesMap
        invariant InsertAll(g, Now(), depends[i..]) == total
      {
        assert depends[i..][1..] == depends[i + 1..];
        if depends[i] !in valuesMap {
          ParseDependence(depends[i], autoAdd);
        }
        assert g.Keys - orderedModelNamesMap <= g.Keys - old(orderedModelNamesMap);
        InsertIntoOrderedList(depends[i]);
      }
    }

    /** Views are collected, models are parsed. */
    method ParseValues(values: seq<Value>) returns (views: seq<string>)
      requires Sound(g, Now()) && forall n <- Models(values) :: n in g
      modifies this
      ensures views == Views(values)
      ensures Now() == ParseGiven(g, old(Now()), Models(values), autoAdd)
    {
      hide Parse;
      hide ParseGiven;
      hide Sound;
      hide Views;
      hide Models;
      views := [];
      ghost var parsed := ParseGiven(g, Now(), Models(values), autoAdd);
      assert values[0..] == values;
      for i := 0 to |values|
        invariant Sound(g, Now())
        invariant views + Views(values[i..]) == Views(values)
        invariant forall n <- Models(values[i..]) :: n in g
        invariant ParseGiven(g, Now(), Models(values[i..]), autoAdd) == parsed
      {
        ValuesStep(values, i);
        if values[i].View? {
          views := views + [values[i].sql];
          assert [] + Models(values[i + 1..]) == Models(values[i + 1..]);
        } else {
          GivenHead(g, Now(), values[i].name, Models(values[i + 1..]), autoAdd);
          ParseDependence(values[i].name, true);
        }
      }
      ValuesEnd(values, Now());
      assert Models(values[|values|..]) == [];
    }

    lemma ValuesEnd(values: seq<Value>, st: State)
      ensures Views(values[|values|..]) == [] && Models(values[|values|..]) == []
      ensures Sound(g, st) ==> ParseGiven(g, st, [], autoAdd) == st
    {
    }

    lemma GivenHead(g: Graph, st: State, name: Name, rest: seq<Name>, autoAdd: bool)
      requires Sound(g, st) && name in g && forall n <- rest :: n in g
      ensures ParseGiven(g, st, [name] + rest, autoAdd) ==
              ParseGiven(g, Parse(g, st, name, true, autoAdd), rest, autoAdd)
    {
    }

    lemma ValuesStep(values: seq<Value>, i: nat)
      requires i < |values|
      ensures Views(values[i..]) == (if values[i].View? then [values[i].sql] else []) + Views(values[i + 1..])
      ensures Models(values[i..]) == (if values[i].Model? then [values[i].name] else []) + Models(values[i + 1..])
    {
    }

    method InsertNames(names: seq<Name>)
      requires Sound(g, Now()) && forall n <- names :: n in valuesMap
      modifies this
      ensures Now() == InsertListed(g, old(Now()), names, autoAdd)
    {
      hide Insert;
      hide Sound;
      ghost var total := InsertListed(g, Now(), names, autoAdd);
      assert names[0..] == names;
      for i := 0 to |names|
        invariant Sound(g, Now()) && forall n <- names :: n in valuesMap
        invariant InsertListed(g, Now(), names[i..], autoAdd) == total
      {
        assert names[i..][1..] == names[i + 1..];
        InsertIntoOrderedList(names[i]);
      }
    }

    /** Views keep their order in front; the models follow in theirs. The walk starts from the
        names that are listed when it begins. */
    method Run(values: seq<Value>) returns (views: seq<string>, models: seq<Name>)
      requires Complete(g) && Now() == START && forall n <- Models(values) :: n in g
      modifies this
      ensures views == Views(values)
      ensures models == Reorder(g, Models(values), autoAdd).ordered
    {
      views := ParseValues(values);
      InsertNames(modelNames);
      models := orderedModelNames;
    }
  }
}
