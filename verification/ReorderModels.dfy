/** Ordering models by their constraint dependencies: a depth-first walk over a
    graph that is parsed while it is walked. Models are named by their tables. */
module ReorderModels {
  type Name = string

  /** `depends`: the tables its constraints reference. `deferred`: what parsing it parses in turn,
      when it is done: join tables, and the models behind them. */
  datatype Schema = Schema(depends: seq<Name>, deferred: seq<Name>)

  type Graph = map<Name, Schema>

  /** Every model that is mentioned can be parsed. */
  ghost predicate Complete(g: Graph) {
    forall n <- g :: (forall d <- g[n].depends :: d in g) && (forall d <- g[n].deferred :: d in g)
  }

  /** `known` is what has been parsed, with its dependencies. */
  datatype State = State(models: seq<Name>, ordered: seq<Name>, visited: set<Name>, known: map<Name, seq<Name>>)

  const START := State([], [], {}, map[])

  ghost predicate Sound(g: Graph, st: State) {
    && Complete(g)
    && (forall n <- st.known :: n in g && st.known[n] == g[n].depends)
    && (forall n <- st.models :: n in st.known)
  }

  function Unparsed(g: Graph, st: State): set<Name> { g.Keys - st.known.Keys }

  function Parse(g: Graph, st: State, name: Name, addToList: bool, autoAdd: bool): (r: State)
    requires Sound(g, st) && name in g
    ensures Sound(g, r) && name in r.known
    ensures st.known.Keys <= r.known.Keys && st.models <= r.models
    ensures r.ordered == st.ordered && r.visited == st.visited
    decreases Unparsed(g, st), 0, 0
  {
    if name in st.known then st
    else
      var parsed := st.(known := st.known[name := g[name].depends],
                        models := if addToList then st.models + [name] else st.models);
      assert name in Unparsed(g, st) && name !in Unparsed(g, parsed);
      ParseAll(g, parsed, g[name].deferred, autoAdd)
  }

  function ParseAll(g: Graph, st: State, names: seq<Name>, autoAdd: bool): (r: State)
    requires Sound(g, st) && forall n <- names :: n in g
    ensures Sound(g, r) && forall n <- names :: n in r.known
    ensures st.known.Keys <= r.known.Keys && st.models <= r.models
    ensures r.ordered == st.ordered && r.visited == st.visited
    decreases Unparsed(g, st), 1, |names|
  {
    if names == [] then st
    else
      var next := Parse(g, st, names[0], autoAdd, autoAdd);
      assert Unparsed(g, next) <= Unparsed(g, st);
      ParseAll(g, next, names[1..], autoAdd)
  }

  /** The walk: a model is listed behind the models it depends on. */
  function Insert(g: Graph, st: State, name: Name, autoAdd: bool): (r: State)
    requires Sound(g, st) && name in st.known
    ensures Sound(g, r) && name in r.visited
    ensures st.known.Keys <= r.known.Keys && st.visited <= r.visited && st.ordered <= r.ordered
    decreases g.Keys - st.visited, 0, 0
  {
    if name in st.visited then st
    else
      var entered := st.(visited := st.visited + {name});
      assert name in g.Keys - st.visited && name !in g.Keys - entered.visited;
      var done := if autoAdd then InsertAll(g, entered, st.known[name]) else entered;
      done.(ordered := done.ordered + [name])
  }

  function InsertAll(g: Graph, st: State, names: seq<Name>): (r: State)
    requires Sound(g, st) && forall n <- names :: n in g
    ensures Sound(g, r) && forall n <- names :: n in r.visited
    ensures st.known.Keys <= r.known.Keys && st.visited <= r.visited && st.ordered <= r.ordered
    decreases g.Keys - st.visited, 1, |names|
  {
    if names == [] then st
    else
      var parsed := if names[0] in st.known then st else Parse(g, st, names[0], true, true);
      var next := Insert(g, parsed, names[0], true);
      assert g.Keys - next.visited <= g.Keys - st.visited;
      InsertAll(g, next, names[1..])
  }

  /** The models the caller gave are parsed and listed in order ... */
  function ParseGiven(g: Graph, st: State, given: seq<Name>, autoAdd: bool): (r: State)
    requires Sound(g, st) && forall n <- given :: n in g
    ensures Sound(g, r) && forall n <- given :: n in r.known
    ensures st.known.Keys <= r.known.Keys && st.models <= r.models
    ensures r.ordered == st.ordered && r.visited == st.visited
    decreases |given|
  {
    if given == [] then st else ParseGiven(g, Parse(g, st, given[0], true, autoAdd), given[1..], autoAdd)
  }

  /** ... and the walk starts from each listed one. */
  function InsertListed(g: Graph, st: State, names: seq<Name>, autoAdd: bool): (r: State)
    requires Sound(g, st) && forall n <- names :: n in st.known
    ensures Sound(g, r) && forall n <- names :: n in r.visited
    ensures st.known.Keys <= r.known.Keys && st.visited <= r.visited && st.ordered <= r.ordered
    decreases |names|
  {
    if names == [] then st else InsertListed(g, Insert(g, st, names[0], autoAdd), names[1..], autoAdd)
  }

  function Reorder(g: Graph, given: seq<Name>, autoAdd: bool): (r: State)
    requires Complete(g) && forall n <- given :: n in g
    ensures Sound(g, r)
  {
    var parsed := ParseGiven(g, START, given, autoAdd);
    InsertListed(g, parsed, parsed.models, autoAdd)
  }

  // ----- each model once, and nothing without its dependencies

  /** Entered, but not listed yet: the models on the current path. */
  function Open(st: State): set<Name> {
    st.visited - set n | n in st.ordered
  }

  ghost predicate Listing(st: State) {
    && (forall i, j :: 0 <= i < j < |st.ordered| ==> st.ordered[i] != st.ordered[j])
    && (forall n <- st.ordered :: n in st.visited)
    && (forall n <- st.visited :: n in st.known)
    && (forall n <- st.ordered :: n in st.known && forall d <- st.known[n] :: d in st.visited)
  }

  lemma ListingAppend(st: State, name: Name)
    requires Listing(st) && name in Open(st) && name in st.known && forall d <- st.known[name] :: d in st.visited
    ensures Listing(st.(ordered := st.ordered + [name]))
    ensures Open(st.(ordered := st.ordered + [name])) == Open(st) - {name}
  {
  }

  lemma {:induction false} InsertKeeps(g: Graph, st: State, name: Name)
    requires Sound(g, st) && Listing(st) && name in st.known
    ensures var r := Insert(g, st, name, true); Listing(r) && Open(r) == Open(st)
    decreases g.Keys - st.visited, 0, 0
  {
    if name !in st.visited {
      var entered := st.(visited := st.visited + {name});
      assert name in g.Keys - st.visited && name !in g.Keys - entered.visited;
      EnteredListing(st, name);
      InsertAllKeeps(g, entered, st.known[name]);
      ListingAppend(InsertAll(g, entered, st.known[name]), name);
    }
  }

  lemma EnteredListing(st: State, name: Name)
    requires Listing(st) && name in st.known && name !in st.visited
    ensures Listing(st.(visited := st.visited + {name}))
    ensures Open(st.(visited := st.visited + {name})) == Open(st) + {name}
    ensures name !in Open(st)
  {
  }

  lemma {:induction false} InsertAllKeeps(g: Graph, st: State, names: seq<Name>)
    requires Sound(g, st) && Listing(st) && forall n <- names :: n in g
    ensures var r := InsertAll(g, st, names); Listing(r) && Open(r) == Open(st)
    decreases g.Keys - st.visited, 1, |names|
  {
    if names != [] {
      var parsed := if names[0] in st.known then st else Parse(g, st, names[0], true, true);
      ParseKeepsListing(g, st, parsed);
      InsertKeeps(g, parsed, names[0]);
      var next := Insert(g, parsed, names[0], true);
      assert g.Keys - next.visited <= g.Keys - st.visited;
      InsertAllKeeps(g, next, names[1..]);
    }
  }

  lemma ParseKeepsListing(g: Graph, st: State, r: State)
    requires Sound(g, st) && Sound(g, r) && Listing(st)
    requires st.known.Keys <= r.known.Keys && r.ordered == st.ordered && r.visited == st.visited
    ensures Listing(r) && Open(r) == Open(st)
  {
  }

  lemma {:induction false} InsertListedKeeps(g: Graph, st: State, names: seq<Name>)
    requires Sound(g, st) && Listing(st) && forall n <- names :: n in st.known
    ensures var r := InsertListed(g, st, names, true); Listing(r) && Open(r) == Open(st)
    decreases |names|
  {
    if names != [] {
      InsertKeeps(g, st, names[0]);
      InsertListedKeeps(g, Insert(g, st, names[0], true), names[1..]);
    }
  }

  lemma {:induction false} GivenAreListed(g: Graph, st: State, given: seq<Name>)
    requires Sound(g, st) && forall n <- given :: n in g
    requires forall n <- st.known :: n in st.models
    ensures forall n <- ParseGiven(g, st, given, true).known :: n in ParseGiven(g, st, given, true).models
    decreases |given|
  {
    if given != [] {
      ParseLists(g, st, given[0]);
      var next := Parse(g, st, given[0], true, true);
      assert ParseGiven(g, st, given, true) == ParseGiven(g, next, given[1..], true);
      GivenAreListed(g, next, given[1..]);
    }
  }

  /** With auto-add everything that is parsed is listed. */
  lemma {:induction false} ParseLists(g: Graph, st: State, name: Name)
    requires Sound(g, st) && name in g && forall n <- st.known :: n in st.models
    ensures forall n <- Parse(g, st, name, true, true).known :: n in Parse(g, st, name, true, true).models
    decreases Unparsed(g, st), 0, 0
  {
    if name !in st.known {
      var parsed := st.(known := st.known[name := g[name].depends], models := st.models + [name]);
      assert name in Unparsed(g, st) && name !in Unparsed(g, parsed);
      ParseAllLists(g, parsed, g[name].deferred);
    }
  }

  lemma {:induction false} ParseAllLists(g: Graph, st: State, names: seq<Name>)
    requires Sound(g, st) && (forall n <- names :: n in g) && forall n <- st.known :: n in st.models
    ensures forall n <- ParseAll(g, st, names, true).known :: n in ParseAll(g, st, names, true).models
    decreases Unparsed(g, st), 1, |names|
  {
    if names != [] {
      ParseLists(g, st, names[0]);
      var next := Parse(g, st, names[0], true, true);
      assert Unparsed(g, next) <= Unparsed(g, st);
      ParseAllLists(g, next, names[1..]);
    }
  }

  /** With auto-add the result lists every given model, none twice, and with each model all the
      models its constraints reference; on any graph, cycles included. */
  lemma ReorderLists(g: Graph, given: seq<Name>)
    requires Complete(g) && forall n <- given :: n in g
    ensures
      var out := Reorder(g, given, true).ordered;
      && (forall i, j :: 0 <= i < j < |out| ==> out[i] != out[j])
      && (forall n <- given :: n in out)
      && (forall n <- out :: n in g && forall d <- g[n].depends :: d in out)
  {
    hide Parse;
    hide Insert;
    var parsed := ParseGiven(g, START, given, true);
    GivenAreListed(g, START, given);
    assert forall n <- given :: n in parsed.known && n in parsed.models;
    InsertListedKeeps(g, parsed, parsed.models);
    var r := Reorder(g, given, true);
    assert Open(r) == Open(parsed) == {};
    assert forall n <- r.visited :: n in r.ordered;
  }

  // ----- dependencies first

  ghost predicate DependsOn(g: Graph, n: Name, d: Name) {
    n in g && d in g[n].depends
  }

  /** Each model depends on the next, and the last on the first. */
  ghost predicate IsCycle(g: Graph, p: seq<Name>) {
    && p != []
    && (forall i :: 0 <= i < |p| - 1 ==> DependsOn(g, p[i], p[i + 1]))
    && DependsOn(g, p[|p| - 1], p[0])
  }

  ghost predicate Within(p: seq<Name>, s: set<Name>) { forall n <- p :: n in s }

  ghost predicate AcyclicIn(g: Graph, s: set<Name>) {
    forall p: seq<Name> :: Within(p, s) ==> !IsCycle(g, p)
  }

  /** Every dependency of a listed model is listed ahead of it. */
  ghost predicate DependenciesFirst(g: Graph, out: seq<Name>) {
    forall i :: 0 <= i < |out| ==> out[i] in g && forall d <- g[out[i]].depends :: d in out[..i]
  }

  /** `path` is how the walk came to where it is. */
  ghost predicate OnPath(g: Graph, st: State, path: seq<Name>) {
    && (forall n :: n in Open(st) <==> n in path)
    && (forall i :: 0 <= i < |path| - 1 ==> DependsOn(g, path[i], path[i + 1]))
  }

  lemma NoBackEdge(g: Graph, path: seq<Name>, d: Name, s: set<Name>)
    requires AcyclicIn(g, s) && Within(path, s)
    requires path != [] && DependsOn(g, path[|path| - 1], d)
    requires forall i :: 0 <= i < |path| - 1 ==> DependsOn(g, path[i], path[i + 1])
    ensures d !in path
  {
    forall j | 0 <= j < |path|
      ensures path[j] != d
    {
      var p := path[j..];
      forall i | 0 <= i < |p| - 1
        ensures DependsOn(g, p[i], p[i + 1])
      {
        assert DependsOn(g, path[j + i], path[j + i + 1]);
      }
      assert Within(p, s);
      assert !IsCycle(g, p);
    }
  }

  lemma {:induction false} InsertInOrder(g: Graph, st: State, name: Name, path: seq<Name>, s: set<Name>)
    requires Sound(g, st) && Listing(st) && name in st.known && AcyclicIn(g, s)
    requires OnPath(g, st, path) && (path != [] ==> DependsOn(g, path[|path| - 1], name))
    requires DependenciesFirst(g, st.ordered) && Insert(g, st, name, true).visited <= s
    ensures DependenciesFirst(g, Insert(g, st, name, true).ordered)
    decreases g.Keys - st.visited, 0, 0
  {
    if name !in st.visited {
      var entered := st.(visited := st.visited + {name});
      assert name in g.Keys - st.visited && name !in g.Keys - entered.visited;
      EnteredListing(st, name);
      var longer := path + [name];
      assert OnPath(g, entered, longer);
      InsertAllInOrder(g, entered, st.known[name], longer, s);
      InsertAllKeeps(g, entered, st.known[name]);
      var done := InsertAll(g, entered, st.known[name]);
      assert Within(longer, s);
      forall d | d in g[name].depends
        ensures d in done.ordered
      {
        NoBackEdge(g, longer, d, s);
        assert d !in Open(done);
      }
      ListedLast(g, done.ordered, name);
    }
  }

  lemma ListedLast(g: Graph, out: seq<Name>, name: Name)
    requires DependenciesFirst(g, out) && name in g && forall d <- g[name].depends :: d in out
    ensures DependenciesFirst(g, out + [name])
  {
    var r := out + [name];
    forall i | 0 <= i < |r|
      ensures r[i] in g && forall d <- g[r[i]].depends :: d in r[..i]
    {
      assert r[..i] == out[..i];
      assert i == |out| ==> out[..i] == out;
    }
  }

  lemma {:induction false} InsertAllInOrder(g: Graph, st: State, names: seq<Name>, path: seq<Name>, s: set<Name>)
    requires Sound(g, st) && Listing(st) && (forall n <- names :: n in g) && AcyclicIn(g, s)
    requires OnPath(g, st, path) && path != [] && forall n <- names :: DependsOn(g, path[|path| - 1], n)
    requires DependenciesFirst(g, st.ordered) && InsertAll(g, st, names).visited <= s
    ensures DependenciesFirst(g, InsertAll(g, st, names).ordered)
    decreases g.Keys - st.visited, 1, |names|
  {
    if names != [] {
      var parsed := if names[0] in st.known then st else Parse(g, st, names[0], true, true);
      ParseKeepsListing(g, st, parsed);
      var next := Insert(g, parsed, names[0], true);
      assert InsertAll(g, st, names) == InsertAll(g, next, names[1..]);
      assert names[0] in names;
      assert DependsOn(g, path[|path| - 1], names[0]);
      InsertInOrder(g, parsed, names[0], path, s);
      InsertKeeps(g, parsed, names[0]);
      assert g.Keys - next.visited <= g.Keys - st.visited;
      assert forall n <- names[1..] :: n in names;
      InsertAllInOrder(g, next, names[1..], path, s);
    }
  }

  lemma {:induction false} InsertListedInOrder(g: Graph, st: State, names: seq<Name>, s: set<Name>)
    requires Sound(g, st) && Listing(st) && (forall n <- names :: n in st.known) && AcyclicIn(g, s)
    requires Open(st) == {} && DependenciesFirst(g, st.ordered) && InsertListed(g, st, names, true).visited <= s
    ensures DependenciesFirst(g, InsertListed(g, st, names, true).ordered)
    decreases |names|
  {
    if names != [] {
      var next := Insert(g, st, names[0], true);
      assert InsertListed(g, st, names, true) == InsertListed(g, next, names[1..], true);
      InsertInOrder(g, st, names[0], [], s);
      InsertKeeps(g, st, names[0]);
      InsertListedInOrder(g, next, names[1..], s);
    }
  }

  /** Following dependencies one moves back in the list. */
  lemma {:induction false} ChainGoesBack(g: Graph, out: seq<Name>, p: seq<Name>, i: nat, at: nat)
    requires DependenciesFirst(g, out) && i < |p|
    requires forall j :: 0 <= j < |p| - 1 ==> DependsOn(g, p[j], p[j + 1])
    requires at < |out| && out[at] == p[0]
    ensures exists k :: 0 <= k <= at - i && out[k] == p[i]
  {
    if i > 0 {
      ChainGoesBack(g, out, p, i - 1, at);
      var k :| 0 <= k <= at - (i - 1) && out[k] == p[i - 1];
      assert DependsOn(g, p[i - 1], p[i - 1 + 1]);
      assert p[i] in out[..k];
    }
  }

  lemma OrderedHasNoCycle(g: Graph, out: seq<Name>, p: seq<Name>)
    requires DependenciesFirst(g, out)
    requires forall i, j :: 0 <= i < j < |out| ==> out[i] != out[j]
    requires p != [] && p[0] in out
    requires forall j :: 0 <= j < |p| - 1 ==> DependsOn(g, p[j], p[j + 1])
    ensures !DependsOn(g, p[|p| - 1], p[0])
  {
    var at :| 0 <= at < |out| && out[at] == p[0];
    ChainGoesBack(g, out, p, |p| - 1, at);
    var k :| 0 <= k <= at - (|p| - 1) && out[k] == p[|p| - 1];
    assert forall j :: 0 <= j < k ==> out[j] != out[at];
  }

  /** The listed order puts every dependency first exactly when the listed models depend on each
      other without a cycle. */
  lemma ReorderSorts(g: Graph, given: seq<Name>)
    requires Complete(g) && forall n <- given :: n in g
    ensures
      var out := Reorder(g, given, true).ordered;
      DependenciesFirst(g, out) <==> AcyclicIn(g, set n | n in out)
  {
    var parsed := ParseGiven(g, START, given, true);
    var r := Reorder(g, given, true);
    var s := set n | n in r.ordered;
    InsertListedKeeps(g, parsed, parsed.models);
    assert Open(r) == Open(parsed) == {};
    assert r.visited <= s;
    if AcyclicIn(g, s) {
      InsertListedInOrder(g, parsed, parsed.models, s);
    }
    if DependenciesFirst(g, r.ordered) {
      OrderedIsAcyclic(g, r.ordered);
    }
  }

  lemma OrderedIsAcyclic(g: Graph, out: seq<Name>)
    requires DependenciesFirst(g, out)
    requires forall i, j :: 0 <= i < j < |out| ==> out[i] != out[j]
    ensures AcyclicIn(g, set n | n in out)
  {
    forall p: seq<Name> | Within(p, set n | n in out)
      ensures !IsCycle(g, p)
    {
      if p != [] && forall j :: 0 <= j < |p| - 1 ==> DependsOn(g, p[j], p[j + 1]) {
        assert p[0] in p;
        OrderedHasNoCycle(g, out, p);
      }
    }
  }

  // ----- what is parsed too late is lost

  const A: Name := "A"
  const B: Name := "B"
  const J: Name := "J"

  /** A depends on B; parsing B brings up the join table J. */
  const LATE: Graph := map[A := Schema([B], []), B := Schema([], [J]), J := Schema([], [])]

  const LATE_GIVEN := State([A], [], {}, map[A := [B]])
  const LATE_ALL := State([A, B, J], [], {A}, map[A := [B], B := [], J := []])

  lemma Names()
    ensures A != B && A != J && B != J
  {
  }

  lemma LateGiven()
    ensures Complete(LATE) && ParseGiven(LATE, START, [A], true) == LATE_GIVEN
  {
    Names();
    assert map[][A := [B]] == map[A := [B]];
    assert ParseAll(LATE, LATE_GIVEN, [], true) == LATE_GIVEN;
    assert Parse(LATE, START, A, true, true) == LATE_GIVEN;
    assert [A][1..] == [];
    assert ParseGiven(LATE, LATE_GIVEN, [], true) == LATE_GIVEN;
  }

  const LATE_B := State([A, B], [], {A}, map[A := [B], B := []])

  lemma LateParseJ()
    ensures Sound(LATE, LATE_B) && Sound(LATE, LATE_ALL)
    ensures ParseAll(LATE, LATE_B, [J], true) == LATE_ALL
  {
    Names();
    assert map[A := [B], B := []][J := []] == map[A := [B], B := [], J := []];
    assert ParseAll(LATE, LATE_ALL, [], true) == LATE_ALL;
    assert Parse(LATE, LATE_B, J, true, true) == LATE_ALL;
    assert [J][1..] == [];
  }

  lemma LateParse()
    ensures Sound(LATE, LATE_GIVEN) && Sound(LATE, LATE_ALL)
    ensures Parse(LATE, LATE_GIVEN.(visited := {A}), B, true, true) == LATE_ALL
  {
    Names();
    LateParseJ();
    hide ParseAll;
    assert map[A := [B]][B := []] == map[A := [B], B := []];
    assert [A] + [B] == [A, B];
  }

  lemma LateWalk()
    ensures Sound(LATE, LATE_GIVEN)
    ensures Insert(LATE, LATE_GIVEN, A, true) == LATE_ALL.(visited := {A, B}, ordered := [B, A])
  {
    Names();
    LateParse();
    hide Parse;
    var entered, both := LATE_GIVEN.(visited := {A}), LATE_ALL.(visited := {A, B});
    assert {} + {A} == {A} && {A} + {B} == {A, B};
    assert InsertAll(LATE, both, []) == both;
    var b := both.(ordered := [B]);
    assert Insert(LATE, LATE_ALL, B, true) == b;
    assert [B][1..] == [];
    assert InsertAll(LATE, b, []) == b;
    assert InsertAll(LATE, entered, [B]) == b;
  }

  /** A join table that comes to light while the walk is on is parsed, but not listed. */
  lemma LateJoinTableIsLost()
    ensures Complete(LATE) && A in LATE
    ensures Reorder(LATE, [A], true).ordered == [B, A] && J in Reorder(LATE, [A], true).known
  {
    LateGiven();
    LateWalk();
    hide Insert;
    hide ParseGiven;
    var r := LATE_ALL.(visited := {A, B}, ordered := [B, A]);
    assert [A][1..] == [];
    assert InsertListed(LATE, r, [], true) == r;
    assert InsertListed(LATE, LATE_GIVEN, [A], true) == r;
  }

  const HIDDEN: Graph := map[A := Schema([], [J]), J := Schema([], [])]
  const HIDDEN_A := State([A], [], {}, map[A := []])
  const HIDDEN_ALL := State([A], [], {}, map[A := [], J := []])

  lemma HiddenParse()
    ensures Complete(HIDDEN) && Sound(HIDDEN, HIDDEN_ALL)
    ensures Parse(HIDDEN, START, A, true, false) == HIDDEN_ALL
  {
    Names();
    assert ParseAll(HIDDEN, HIDDEN_ALL, [], false) == HIDDEN_ALL;
    assert HIDDEN_A.known[J := []] == HIDDEN_ALL.known;
    assert Parse(HIDDEN, HIDDEN_A, J, false, false) == HIDDEN_ALL;
    assert [J][1..] == [];
    assert ParseAll(HIDDEN, HIDDEN_A, [J], false) == HIDDEN_ALL;
    assert START.known[A := []] == HIDDEN_A.known;
    assert START.models + [A] == HIDDEN_A.models;
    assert START.(known := START.known[A := HIDDEN[A].depends], models := START.models + [A]) == HIDDEN_A;
  }

  /** Without auto-add a given model that was parsed behind an earlier one is not listed. */
  lemma GivenJoinTableIsLost()
    ensures Complete(HIDDEN) && A in HIDDEN && J in HIDDEN
    ensures Reorder(HIDDEN, [A, J], false).ordered == [A]
  {
    Names();
    HiddenParse();
    assert [A, J][1..] == [J];
    assert [J][1..] == [];
    assert Parse(HIDDEN, HIDDEN_ALL, J, true, false) == HIDDEN_ALL;
    assert ParseGiven(HIDDEN, HIDDEN_ALL, [], false) == HIDDEN_ALL;
    assert ParseGiven(HIDDEN, HIDDEN_ALL, [J], false) == HIDDEN_ALL;
    hide Parse;
    var r := HIDDEN_ALL.(visited := {A}, ordered := [A]);
    assert {} + {A} == {A};
    assert Insert(HIDDEN, HIDDEN_ALL, A, false) == r;
    assert [A][1..] == [];
    assert InsertListed(HIDDEN, r, [], false) == r;
  }
}
