/** Exactly which models are parsed and which are listed. */
module ReorderClosure {
  import opened ReorderModels

  type Succ = map<Name, seq<Name>>

  ghost function Deferred(g: Graph): Succ { map n | n in g :: g[n].deferred }

  ghost function Depends(g: Graph): Succ { map n | n in g :: g[n].depends }

  ghost predicate Closed(succ: Succ, s: set<Name>) {
    forall n <- s :: n in succ ==> forall d <- succ[n] :: d in s
  }

  /** n can be reached from `from`: it is in every closed set that has `from` in it. */
  ghost predicate InClosure(succ: Succ, from: set<Name>, n: Name) {
    forall s: set<Name> :: from <= s && Closed(succ, s) ==> n in s
  }

  ghost function Elements(names: seq<Name>): set<Name> { set n | n in names }

  /** s is what can be reached. */
  ghost predicate IsClosure(succ: Succ, from: set<Name>, s: set<Name>) {
    from <= s && Closed(succ, s) && forall t: set<Name> :: from <= t && Closed(succ, t) ==> s <= t
  }

  lemma ClosureIs(succ: Succ, from: set<Name>, s: set<Name>)
    requires IsClosure(succ, from, s)
    ensures forall n :: n in s <==> InClosure(succ, from, n)
  {
  }

  lemma InItsClosure(succ: Succ, from: set<Name>, n: Name)
    requires n in from
    ensures InClosure(succ, from, n)
  {
  }

  // ----- parsing

  /** What is parsed stays within every set that is closed. */
  lemma {:induction false} ParseWithin(g: Graph, st: State, name: Name, addToList: bool, autoAdd: bool, s: set<Name>)
    requires Sound(g, st) && name in g && st.known.Keys <= s && name in s && Closed(Deferred(g), s)
    ensures Parse(g, st, name, addToList, autoAdd).known.Keys <= s
    decreases Unparsed(g, st), 0, 0
  {
    if name !in st.known {
      var parsed := st.(known := st.known[name := g[name].depends],
                        models := if addToList then st.models + [name] else st.models);
      assert name in Unparsed(g, st) && name !in Unparsed(g, parsed);
      assert Deferred(g)[name] == g[name].deferred;
      ParseAllWithin(g, parsed, g[name].deferred, autoAdd, s);
    }
  }

  lemma {:induction false} ParseAllWithin(g: Graph, st: State, names: seq<Name>, autoAdd: bool, s: set<Name>)
    requires Sound(g, st) && (forall n <- names :: n in g && n in s) && st.known.Keys <= s && Closed(Deferred(g), s)
    ensures ParseAll(g, st, names, autoAdd).known.Keys <= s
    decreases Unparsed(g, st), 1, |names|
  {
    if names != [] {
      ParseWithin(g, st, names[0], autoAdd, autoAdd, s);
      var next := Parse(g, st, names[0], autoAdd, autoAdd);
      assert Unparsed(g, next) <= Unparsed(g, st);
      ParseAllWithin(g, next, names[1..], autoAdd, s);
    }
  }

  /** Every model that is parsed, but those in `open`, has all its deferred models parsed. */
  ghost predicate ClosedBut(g: Graph, known: set<Name>, open: set<Name>) {
    forall n <- known :: n in g && (n !in open ==> forall d <- g[n].deferred :: d in known)
  }

  lemma {:induction false} ParseCloses(g: Graph, st: State, name: Name, addToList: bool, autoAdd: bool, open: set<Name>)
    requires Sound(g, st) && name in g && ClosedBut(g, st.known.Keys, open)
    ensures ClosedBut(g, Parse(g, st, name, addToList, autoAdd).known.Keys, open)
    decreases Unparsed(g, st), 0, 0
  {
    if name !in st.known {
      var parsed := st.(known := st.known[name := g[name].depends],
                        models := if addToList then st.models + [name] else st.models);
      assert name in Unparsed(g, st) && name !in Unparsed(g, parsed);
      ParseAllCloses(g, parsed, g[name].deferred, autoAdd, open + {name});
    }
  }

  lemma {:induction false} ParseAllCloses(g: Graph, st: State, names: seq<Name>, autoAdd: bool, open: set<Name>)
    requires Sound(g, st) && (forall n <- names :: n in g) && ClosedBut(g, st.known.Keys, open)
    ensures ClosedBut(g, ParseAll(g, st, names, autoAdd).known.Keys, open)
    decreases Unparsed(g, st), 1, |names|
  {
    if names != [] {
      ParseCloses(g, st, names[0], autoAdd, autoAdd, open);
      var next := Parse(g, st, names[0], autoAdd, autoAdd);
      assert Unparsed(g, next) <= Unparsed(g, st);
      ParseAllCloses(g, next, names[1..], autoAdd, open);
    }
  }

  lemma ClosedButIsClosed(g: Graph, known: set<Name>)
    requires ClosedBut(g, known, {})
    ensures Closed(Deferred(g), known)
  {
  }

  /** Parsing one more model extends what can be reached by what can be reached from it. */
  lemma ParseReaches(g: Graph, st: State, name: Name, addToList: bool, autoAdd: bool, before: seq<Name>)
    requires Sound(g, st) && name in g && ClosedBut(g, st.known.Keys, {})
    requires IsClosure(Deferred(g), Elements(before), st.known.Keys)
    ensures
      var known := Parse(g, st, name, addToList, autoAdd).known.Keys;
      ClosedBut(g, known, {}) && IsClosure(Deferred(g), Elements(before + [name]), known)
  {
    hide Parse;
    var known := Parse(g, st, name, addToList, autoAdd).known.Keys;
    ParseCloses(g, st, name, addToList, autoAdd, {});
    ClosedButIsClosed(g, known);
    forall s: set<Name> | Elements(before + [name]) <= s && Closed(Deferred(g), s)
      ensures known <= s
    {
      assert Elements(before) <= Elements(before + [name]);
      assert name in Elements(before + [name]);
      ParseWithin(g, st, name, addToList, autoAdd, s);
    }
    assert Elements(before + [name]) == Elements(before) + {name};
  }

  lemma {:induction false} GivenReach(g: Graph, st: State, given: seq<Name>, autoAdd: bool, before: seq<Name>)
    requires Sound(g, st) && (forall n <- given :: n in g) && ClosedBut(g, st.known.Keys, {})
    requires IsClosure(Deferred(g), Elements(before), st.known.Keys)
    ensures
      var known := ParseGiven(g, st, given, autoAdd).known.Keys;
      ClosedBut(g, known, {}) && IsClosure(Deferred(g), Elements(before + given), known)
    decreases |given|
  {
    hide Parse;
    hide IsClosure;
    if given == [] {
      assert before + given == before;
    } else {
      ParseReaches(g, st, given[0], true, autoAdd, before);
      assert before + [given[0]] + given[1..] == before + given;
      GivenReach(g, Parse(g, st, given[0], true, autoAdd), given[1..], autoAdd, before + [given[0]]);
    }
  }

  // ----- without auto-add

  /** Of the given models those, in their order, that are not reached from earlier ones. */
  ghost function FirstMet(g: Graph, before: seq<Name>, given: seq<Name>): seq<Name>
    decreases |given|
  {
    if given == [] then []
    else (if InClosure(Deferred(g), Elements(before), given[0]) then [] else [given[0]])
         + FirstMet(g, before + [given[0]], given[1..])
  }

  /** Models that are only parsed are not listed. */
  lemma {:induction false} ParseAllListsNone(g: Graph, st: State, names: seq<Name>)
    requires Sound(g, st) && forall n <- names :: n in g
    ensures ParseAll(g, st, names, false).models == st.models
    decreases Unparsed(g, st), 1, |names|
  {
    if names != [] {
      var name := names[0];
      if name !in st.known {
        var parsed := st.(known := st.known[name := g[name].depends]);
        assert name in Unparsed(g, st) && name !in Unparsed(g, parsed);
        ParseAllListsNone(g, parsed, g[name].deferred);
      }
      var next := Parse(g, st, name, false, false);
      assert Unparsed(g, next) <= Unparsed(g, st);
      ParseAllListsNone(g, next, names[1..]);
    }
  }

  lemma ParseListsOne(g: Graph, st: State, name: Name)
    requires Sound(g, st) && name in g
    ensures Parse(g, st, name, true, false).models == if name in st.known then st.models else st.models + [name]
  {
    if name !in st.known {
      ParseAllListsNone(g, st.(known := st.known[name := g[name].depends], models := st.models + [name]),
                        g[name].deferred);
    }
  }

  /** One more given model, parsed and listed if it has not been met. */
  lemma OneMoreGiven(g: Graph, st: State, name: Name, before: seq<Name>)
    requires Sound(g, st) && name in g && ClosedBut(g, st.known.Keys, {})
    requires IsClosure(Deferred(g), Elements(before), st.known.Keys)
    ensures
      var next := Parse(g, st, name, true, false);
      && ClosedBut(g, next.known.Keys, {}) && IsClosure(Deferred(g), Elements(before + [name]), next.known.Keys)
      && next.models == st.models + if InClosure(Deferred(g), Elements(before), name) then [] else [name]
  {
    hide Parse;
    hide IsClosure;
    hide InClosure;
    hide ClosedBut;
    hide Elements;
    ClosureIs(Deferred(g), Elements(before), st.known.Keys);
    ParseListsOne(g, st, name);
    ParseReaches(g, st, name, true, false, before);
  }

  lemma Associates(a: seq<Name>, b: seq<Name>, c: seq<Name>)
    ensures a + (b + c) == (a + b) + c
  {
  }

  lemma {:induction false} GivenListFirstMet(g: Graph, st: State, given: seq<Name>, before: seq<Name>)
    requires Sound(g, st) && (forall n <- given :: n in g) && ClosedBut(g, st.known.Keys, {})
    requires IsClosure(Deferred(g), Elements(before), st.known.Keys)
    ensures ParseGiven(g, st, given, false).models == st.models + FirstMet(g, before, given)
    decreases |given|
  {
    hide Parse;
    hide IsClosure;
    hide InClosure;
    hide ClosedBut;
    hide Elements;
    hide Sound;
    hide Deferred;
    if given != [] {
      OneMoreGiven(g, st, given[0], before);
      var next := Parse(g, st, given[0], true, false);
      GivenListFirstMet(g, next, given[1..], before + [given[0]]);
      Associates(st.models, if InClosure(Deferred(g), Elements(before), given[0]) then [] else [given[0]],
                 FirstMet(g, before + [given[0]], given[1..]));
    }
  }

  lemma {:induction false} FirstMetIs(g: Graph, before: seq<Name>, given: seq<Name>, n: Name)
    ensures
      n in FirstMet(g, before, given)
      <==> exists i :: 0 <= i < |given| && given[i] == n && !InClosure(Deferred(g), Elements(before + given[..i]), n)
    decreases |given|
  {
    hide InClosure;
    hide Elements;
    if given != [] {
      var rest := given[1..];
      FirstMetIs(g, before + [given[0]], rest, n);
      assert before + given[..0] == before;
      forall i | 0 <= i < |rest|
        ensures before + [given[0]] + rest[..i] == before + given[..i + 1]
      {
      }
      forall i | 0 < i < |given|
        ensures rest[i - 1] == given[i] && before + [given[0]] + rest[..i - 1] == before + given[..i]
      {
      }
    }
  }

  lemma {:induction false} FirstMetDistinct(g: Graph, before: seq<Name>, given: seq<Name>)
    ensures forall n <- FirstMet(g, before, given) :: n !in before
    ensures forall i, j :: 0 <= i < j < |FirstMet(g, before, given)| ==>
              FirstMet(g, before, given)[i] != FirstMet(g, before, given)[j]
    decreases |given|
  {
    hide InClosure;
    if given != [] {
      FirstMetDistinct(g, before + [given[0]], given[1..]);
      var rest := FirstMet(g, before + [given[0]], given[1..]);
      assert given[0] in before + [given[0]];
      assert forall n <- rest :: n !in before + [given[0]];
      if given[0] in before {
        InItsClosure(Deferred(g), Elements(before), given[0]);
      }
      assert forall n <- before :: n in before + [given[0]];
    }
  }

  /** The walk adds nothing when it is not to. */
  lemma {:induction false} ListedAsGiven(g: Graph, st: State, names: seq<Name>)
    requires Sound(g, st) && forall n <- names :: n in st.known && n !in st.visited
    requires forall i, j :: 0 <= i < j < |names| ==> names[i] != names[j]
    ensures InsertListed(g, st, names, false).ordered == st.ordered + names
    decreases |names|
  {
    if names != [] {
      var next := Insert(g, st, names[0], false);
      assert next == st.(visited := st.visited + {names[0]}, ordered := st.ordered + [names[0]]);
      ListedAsGiven(g, next, names[1..]);
      assert st.ordered + [names[0]] + names[1..] == st.ordered + names;
    }
  }

  lemma ListsFirstMet(g: Graph, given: seq<Name>)
    requires Complete(g) && forall n <- given :: n in g
    ensures Reorder(g, given, false).ordered == FirstMet(g, [], given)
  {
    hide Parse;
    hide InClosure;
    hide FirstMet;
    hide InsertListed;
    hide ParseGiven;
    assert IsClosure(Deferred(g), Elements([]), START.known.Keys);
    GivenListFirstMet(g, START, given, []);
    var parsed := ParseGiven(g, START, given, false);
    FirstMetDistinct(g, [], given);
    assert parsed.models == [] + FirstMet(g, [], given) == FirstMet(g, [], given);
    ListedAsGiven(g, parsed, parsed.models);
    assert [] + parsed.models == parsed.models;
  }

  /** Without auto-add exactly the given models that were not parsed behind earlier ones are listed, in the
      order they were given. */
  lemma WithoutAutoAdd(g: Graph, given: seq<Name>)
    requires Complete(g) && forall n <- given :: n in g
    ensures Reorder(g, given, false).ordered == FirstMet(g, [], given)
    ensures forall n ::
              n in Reorder(g, given, false).ordered
              <==> exists i :: 0 <= i < |given| && given[i] == n && !InClosure(Deferred(g), Elements(given[..i]), n)
  {
    hide Reorder;
    hide InClosure;
    hide FirstMet;
    hide Elements;
    ListsFirstMet(g, given);
    forall n
      ensures
        n in FirstMet(g, [], given)
        <==> exists i :: 0 <= i < |given| && given[i] == n && !InClosure(Deferred(g), Elements(given[..i]), n)
    {
      FirstMetIs(g, [], given, n);
      assert forall i :: 0 <= i < |given| ==> [] + given[..i] == given[..i];
    }
  }

  // ----- with auto-add

  lemma {:induction false} InsertWithin(g: Graph, st: State, name: Name, s: set<Name>)
    requires Sound(g, st) && name in st.known && st.visited <= s && name in s && Closed(Depends(g), s)
    ensures Insert(g, st, name, true).visited <= s
    decreases g.Keys - st.visited, 0, 0
  {
    if name !in st.visited {
      var entered := st.(visited := st.visited + {name});
      assert name in g.Keys - st.visited && name !in g.Keys - entered.visited;
      assert Depends(g)[name] == st.known[name];
      InsertAllWithin(g, entered, st.known[name], s);
    }
  }

  lemma {:induction false} InsertAllWithin(g: Graph, st: State, names: seq<Name>, s: set<Name>)
    requires Sound(g, st) && (forall n <- names :: n in g && n in s) && st.visited <= s && Closed(Depends(g), s)
    ensures InsertAll(g, st, names).visited <= s
    decreases g.Keys - st.visited, 1, |names|
  {
    hide Parse;
    if names != [] {
      var parsed := if names[0] in st.known then st else Parse(g, st, names[0], true, true);
      InsertWithin(g, parsed, names[0], s);
      var next := Insert(g, parsed, names[0], true);
      assert g.Keys - next.visited <= g.Keys - st.visited;
      InsertAllWithin(g, next, names[1..], s);
    }
  }

  lemma {:induction false} InsertListedWithin(g: Graph, st: State, names: seq<Name>, s: set<Name>)
    requires Sound(g, st) && (forall n <- names :: n in st.known && n in s) && st.visited <= s && Closed(Depends(g), s)
    ensures InsertListed(g, st, names, true).visited <= s
    decreases |names|
  {
    hide Insert;
    if names != [] {
      InsertWithin(g, st, names[0], s);
      InsertListedWithin(g, Insert(g, st, names[0], true), names[1..], s);
    }
  }

  /** The models that parsing the given ones brings up. */
  ghost function BroughtUp(g: Graph, given: seq<Name>): set<Name> {
    set n | n in g && InClosure(Deferred(g), Elements(given), n)
  }

  lemma ParsedIsBroughtUp(g: Graph, given: seq<Name>)
    requires Complete(g) && forall n <- given :: n in g
    ensures ParseGiven(g, START, given, true).known.Keys == BroughtUp(g, given)
    ensures Elements(ParseGiven(g, START, given, true).models) == BroughtUp(g, given)
  {
    hide Parse;
    hide InClosure;
    assert IsClosure(Deferred(g), Elements([]), START.known.Keys);
    GivenReach(g, START, given, true, []);
    assert [] + given == given;
    var parsed := ParseGiven(g, START, given, true);
    ClosureIs(Deferred(g), Elements(given), parsed.known.Keys);
    GivenAreListed(g, START, given);
  }

  /** The walk has visited what it has listed. */
  lemma WalkLists(g: Graph, given: seq<Name>)
    requires Complete(g) && forall n <- given :: n in g
    ensures
      var parsed := ParseGiven(g, START, given, true);
      InsertListed(g, parsed, parsed.models, true).visited == Elements(Reorder(g, given, true).ordered)
  {
    hide Parse;
    hide Insert;
    hide InsertListed;
    hide ParseGiven;
    var parsed := ParseGiven(g, START, given, true);
    InsertListedKeeps(g, parsed, parsed.models);
    var r := Reorder(g, given, true);
    assert Open(r) == Open(parsed) == {};
    assert r == InsertListed(g, parsed, parsed.models, true);
    forall n
      ensures n in r.visited <==> n in Elements(r.ordered)
    {
    }
  }

  lemma ListedAreClosed(g: Graph, given: seq<Name>)
    requires Complete(g) && forall n <- given :: n in g
    ensures
      var out := Elements(Reorder(g, given, true).ordered);
      BroughtUp(g, given) <= out && Closed(Depends(g), out)
  {
    hide Parse;
    hide Insert;
    hide BroughtUp;
    hide ParseGiven;
    hide InsertListed;
    var parsed := ParseGiven(g, START, given, true);
    ParsedIsBroughtUp(g, given);
    ReorderLists(g, given);
    WalkLists(g, given);
    assert forall n <- parsed.models :: n in InsertListed(g, parsed, parsed.models, true).visited;
  }

  /** With auto-add the listed models are exactly those that the given ones bring up, and those these
      depend on, directly or not. */
  lemma WithAutoAdd(g: Graph, given: seq<Name>)
    requires Complete(g) && forall n <- given :: n in g
    ensures forall n ::
              n in Reorder(g, given, true).ordered <==> InClosure(Depends(g), BroughtUp(g, given), n)
  {
    hide Parse;
    hide Insert;
    hide BroughtUp;
    hide InsertListed;
    hide ParseGiven;
    hide Reorder;
    hide InClosure;
    var parsed := ParseGiven(g, START, given, true);
    var out := Elements(Reorder(g, given, true).ordered);
    ParsedIsBroughtUp(g, given);
    ListedAreClosed(g, given);
    WalkLists(g, given);
    forall s: set<Name> | BroughtUp(g, given) <= s && Closed(Depends(g), s)
      ensures out <= s
    {
      assert forall n <- parsed.models :: n in Elements(parsed.models);
      InsertListedWithin(g, parsed, parsed.models, s);
    }
    ClosureIs(Depends(g), BroughtUp(g, given), out);
  }

  // ----- what is parsed while the walk is on

  lemma {:induction false} InsertParses(g: Graph, st: State, name: Name, t: set<Name>)
    requires Sound(g, st) && name in st.known && ClosedBut(g, st.known.Keys, {})
    requires st.known.Keys <= t && Closed(Deferred(g), t) && Insert(g, st, name, true).visited <= t
    ensures
      var known := Insert(g, st, name, true).known.Keys;
      known <= t && ClosedBut(g, known, {})
    decreases g.Keys - st.visited, 0, 0
  {
    if name !in st.visited {
      var entered := st.(visited := st.visited + {name});
      assert name in g.Keys - st.visited && name !in g.Keys - entered.visited;
      InsertAllParses(g, entered, st.known[name], t);
    }
  }

  lemma {:induction false} InsertAllParses(g: Graph, st: State, names: seq<Name>, t: set<Name>)
    requires Sound(g, st) && (forall n <- names :: n in g) && ClosedBut(g, st.known.Keys, {})
    requires st.known.Keys <= t && Closed(Deferred(g), t) && InsertAll(g, st, names).visited <= t
    ensures
      var known := InsertAll(g, st, names).known.Keys;
      known <= t && ClosedBut(g, known, {})
    decreases g.Keys - st.visited, 1, |names|
  {
    hide Parse;
    hide ClosedBut;
    hide Closed;
    if names != [] {
      var parsed := if names[0] in st.known then st else Parse(g, st, names[0], true, true);
      var next := Insert(g, parsed, names[0], true);
      assert names[0] in t;
      if names[0] !in st.known {
        ParseCloses(g, st, names[0], true, true, {});
        ParseWithin(g, st, names[0], true, true, t);
      }
      assert next.visited <= InsertAll(g, next, names[1..]).visited;
      InsertParses(g, parsed, names[0], t);
      assert g.Keys - next.visited <= g.Keys - st.visited;
      InsertAllParses(g, next, names[1..], t);
    }
  }

  lemma {:induction false} InsertListedParses(g: Graph, st: State, names: seq<Name>, t: set<Name>)
    requires Sound(g, st) && (forall n <- names :: n in st.known) && ClosedBut(g, st.known.Keys, {})
    requires st.known.Keys <= t && Closed(Deferred(g), t) && InsertListed(g, st, names, true).visited <= t
    ensures
      var known := InsertListed(g, st, names, true).known.Keys;
      known <= t && ClosedBut(g, known, {})
    decreases |names|
  {
    hide Insert;
    hide ClosedBut;
    hide Closed;
    if names != [] {
      var next := Insert(g, st, names[0], true);
      InsertParses(g, st, names[0], t);
      InsertListedParses(g, next, names[1..], t);
    }
  }

  /** With auto-add everything that is parsed is listed exactly if the listed models are closed under what
      parsing defers: no listed model has a join table that is not listed. */
  lemma AllParsedAreListed(g: Graph, given: seq<Name>)
    requires Complete(g) && forall n <- given :: n in g
    ensures
      var r := Reorder(g, given, true);
      r.known.Keys <= Elements(r.ordered) <==> Closed(Deferred(g), Elements(r.ordered))
  {
    hide Parse;
    hide Insert;
    hide InsertListed;
    hide ParseGiven;
    hide BroughtUp;
    hide Closed;
    var parsed := ParseGiven(g, START, given, true);
    var r := Reorder(g, given, true);
    var out := Elements(r.ordered);
    ParsedIsBroughtUp(g, given);
    ListedAreClosed(g, given);
    WalkLists(g, given);
    GivenClose(g, given);
    WalkKnows(g, given);
    if Closed(Deferred(g), out) {
      InsertListedParses(g, parsed, parsed.models, out);
    }
    if r.known.Keys <= out {
      AllClosed(g);
      InsertListedParses(g, parsed, parsed.models, g.Keys);
      ClosedButIsClosed(g, r.known.Keys);
      assert out == r.known.Keys;
    }
  }

  lemma AllClosed(g: Graph)
    requires Complete(g)
    ensures Closed(Deferred(g), g.Keys)
  {
  }

  lemma GivenClose(g: Graph, given: seq<Name>)
    requires Complete(g) && forall n <- given :: n in g
    ensures ClosedBut(g, ParseGiven(g, START, given, true).known.Keys, {})
  {
    hide Parse;
    hide ParseGiven;
    assert IsClosure(Deferred(g), Elements([]), START.known.Keys);
    GivenReach(g, START, given, true, []);
  }

  lemma WalkKnows(g: Graph, given: seq<Name>)
    requires Complete(g) && forall n <- given :: n in g
    ensures
      var r := Reorder(g, given, true);
      Elements(r.ordered) <= r.known.Keys <= g.Keys
  {
    hide Parse;
    hide Insert;
    hide InsertListed;
    hide ParseGiven;
    var parsed := ParseGiven(g, START, given, true);
    InsertListedKeeps(g, parsed, parsed.models);
  }
}
