/** Ordering modules so that imports come first, and reporting circular imports.

    A module is known by the place of its name in the alphabetical order. */
module ModuleSort {
  import opened Options

  /** The imports of every module, in the order written. */
  type Graph = map<nat, seq<nat>>

  /** Every import is a module. */
  ghost predicate ClosedGraph(g: Graph) {
    forall m, x | m in g && x in g[m] :: x in g
  }

  /** A chain of k imports leads from a to b. */
  ghost predicate Chain(g: Graph, k: nat, a: nat, b: nat)
    decreases k
  {
    a in g && if k == 0 then a == b else exists x :: x in g[a] && Chain(g, k - 1, x, b)
  }

  /** a transitively imports b. */
  ghost predicate Imports(g: Graph, a: nat, b: nat) {
    exists k: nat :: k > 0 && Chain(g, k, a, b)
  }

  ghost predicate Acyclic(g: Graph) {
    forall m | m in g :: !Imports(g, m, m)
  }

  // ---------------------------------------------------------------- one round

  predicate Ready(g: Graph, m: nat, visited: set<nat>) {
    m in g && forall i | 0 <= i < |g[m]| :: g[m][i] in visited
  }

  datatype Passed = Passed(kept: seq<nat>, visited: set<nat>, added: seq<nat>)

  /** One pass over the pending modules: those whose imports are visited are added at once. */
  function Pass(g: Graph, pending: seq<nat>, visited: set<nat>): (r: Passed)
    ensures |r.kept| + |r.added| == |pending|
  {
    if pending == [] then Passed([], visited, [])
    else if Ready(g, pending[0], visited) then
      var r := Pass(g, pending[1..], visited + {pending[0]});
      r.(added := [pending[0]] + r.added)
    else
      var r := Pass(g, pending[1..], visited);
      r.(kept := [pending[0]] + r.kept)
  }

  lemma PathSmaller(g: Graph, path: set<nat>, m: nat)
    requires m in g && m !in path
    ensures |g.Keys - (path + {m})| < |g.Keys - path|
  {
    assert g.Keys - (path + {m}) == (g.Keys - path) - {m};
  }

  /** The first import found that leads back to a module on the path to it. */
  function Search(g: Graph, m: nat, path: set<nat>): Option<nat>
    requires ClosedGraph(g) && m in g
    decreases |g.Keys - path|, 1
  {
    if m in path then Some(m)
    else
      PathSmaller(g, path, m);
      SearchAll(g, g[m], path + {m})
  }

  function SearchAll(g: Graph, imports: seq<nat>, path: set<nat>): Option<nat>
    requires ClosedGraph(g) && forall x | x in imports :: x in g
    decreases |g.Keys - path|, 2, |imports|
  {
    if imports == [] then None
    else
      match Search(g, imports[0], path)
      case Some(c) => Some(c)
      case None => SearchAll(g, imports[1..], path)
  }

  /** The state of sorting: modules still pending, modules that count as visited, the order so far,
      and the modules reported. */
  datatype State = State(pending: seq<nat>, visited: set<nat>, result: seq<nat>, errors: seq<nat>)

  /** A round that adds nothing looks for a cycle from the first pending module, reports it and
      counts the module found as visited. */
  function Round(g: Graph, s: State): (r: State)
    requires ClosedGraph(g) && forall m | m in s.pending :: m in g
    ensures forall m | m in r.pending :: m in s.pending
  {
    if s.pending == [] then s
    else
      var p := Pass(g, s.pending, s.visited);
      if |p.kept| == |s.pending| then
        match Search(g, s.pending[0], {})
        case Some(c) => s.(visited := s.visited + {c}, errors := s.errors + [c])
        case None => s
      else
        PassMembers(g, s.pending, s.visited);
        State(p.kept, p.visited, s.result + p.added, s.errors)
  }

  lemma {:induction false} PassMembers(g: Graph, pending: seq<nat>, visited: set<nat>)
    ensures var p := Pass(g, pending, visited);
            && (forall m | m in p.kept :: m in pending) && (forall m | m in p.added :: m in pending)
            && (forall m | m in pending :: m in p.kept || m in p.added)
            && p.visited == visited + set m | m in p.added
    decreases |pending|
  {
    if pending != [] {
      var v := if Ready(g, pending[0], visited) then visited + {pending[0]} else visited;
      PassMembers(g, pending[1..], v);
      assert pending == [pending[0]] + pending[1..];
    }
  }

  /** The state after some rounds. */
  function Rounds(g: Graph, n: nat, s: State): (r: State)
    requires ClosedGraph(g) && forall m | m in s.pending :: m in g
    ensures forall m | m in r.pending :: m in s.pending
    decreases n
  {
    if n == 0 then s else Rounds(g, n - 1, Round(g, s))
  }

  predicate Distinct(s: seq<nat>) {
    forall i, j | 0 <= i < j < |s| :: s[i] != s[j]
  }

  ghost predicate Ascending(s: seq<nat>) {
    forall i, j | 0 <= i < j < |s| :: s[i] < s[j]
  }

  function Start(order: seq<nat>): State {
    State(order, {}, [], [])
  }

  lemma HasMember(t: seq<nat>)
    requires t != []
    ensures exists m :: m in t
  {
    assert t[0] in t;
  }

  /** Two ascending lists of the same modules are the same: the order does not depend on how the
      modules were stored. */
  lemma {:induction false} AscendingUnique(s: seq<nat>, t: seq<nat>)
    requires Ascending(s) && Ascending(t) && forall m :: m in s <==> m in t
    ensures s == t
    decreases |s|
  {
    if s == [] {
      if t != [] { HasMember(t); }
    } else {
      assert s[0] in s && s[0] in t;
      assert t[0] in t && t[0] in s;
      assert s[0] == t[0];
      forall m ensures m in s[1..] <==> m in t[1..] {
        assert m in s <==> m == s[0] || m in s[1..];
        assert m in t <==> m == t[0] || m in t[1..];
      }
      AscendingUnique(s[1..], t[1..]);
      assert s == [s[0]] + s[1..] && t == [t[0]] + t[1..];
    }
  }

  // ---------------------------------------------------------------- what a pass adds

  /** The members of s that are in keep, in their order. */
  function Only(s: seq<nat>, keep: set<nat>): seq<nat> {
    if s == [] then [] else (if s[0] in keep then [s[0]] else []) + Only(s[1..], keep)
  }

  ghost predicate ImportsDone(g: Graph, m: nat, done: set<nat>) {
    forall x | m in g && x in g[m] :: x in done
  }

  /** What a pass over pending adds. */
  function Added(g: Graph, pending: seq<nat>, visited: set<nat>): set<nat> {
    set x | x in Pass(g, pending, visited).added
  }

  /** What counts as visited when the pass comes to place i. */
  function DoneBefore(g: Graph, pending: seq<nat>, visited: set<nat>, i: nat): set<nat>
    requires i <= |pending|
  {
    visited + set x | x in pending[..i] && x in Added(g, pending, visited)
  }

  lemma AddedIs(g: Graph, pending: seq<nat>, visited: set<nat>)
    requires pending != []
    ensures var m, rest := pending[0], pending[1..];
            Added(g, pending, visited) == if Ready(g, m, visited) then {m} + Added(g, rest, visited + {m}) else Added(g, rest, visited)
  {
  }

  /** A pass adds a module if and only if each of its imports is visited or has been added by then,
      which means it stands earlier. */
  lemma {:induction false} PassExactly(g: Graph, pending: seq<nat>, visited: set<nat>, i: nat)
    requires Distinct(pending) && (forall m | m in pending :: m in g) && i < |pending|
    ensures pending[i] in Added(g, pending, visited) <==> ImportsDone(g, pending[i], DoneBefore(g, pending, visited, i))
    decreases |pending|
  {
    hide ImportsDone, Added, Ready, Pass;
    var m, rest := pending[0], pending[1..];
    AddedIs(g, pending, visited);
    ReadyMeans(g, m, visited);
    var visited' := if Ready(g, m, visited) then visited + {m} else visited;
    AddedWithin(g, rest, visited');
    assert m !in rest;
    if i == 0 {
      assert DoneBefore(g, pending, visited, 0) == visited;
    } else {
      assert forall x | x in rest :: x in pending;
      PassExactly(g, rest, visited', i - 1);
      assert pending[..i] == [m] + rest[..i - 1] && pending[i] == rest[i - 1];
      assert DoneBefore(g, pending, visited, i) == DoneBefore(g, rest, visited', i - 1);
    }
  }

  lemma AddedWithin(g: Graph, pending: seq<nat>, visited: set<nat>)
    ensures forall x | x in Added(g, pending, visited) :: x in pending
  {
    PassMembers(g, pending, visited);
  }

  /** What a pass adds and what it keeps stay in order. */
  lemma {:induction false} PassOrder(g: Graph, pending: seq<nat>, visited: set<nat>)
    requires Distinct(pending)
    ensures var p, a := Pass(g, pending, visited), Added(g, pending, visited);
            p.added == Only(pending, a) && p.kept == Only(pending, (set x | x in pending) - a)
    decreases |pending|
  {
    hide Added, Ready;
    if pending != [] {
      var m, rest := pending[0], pending[1..];
      AddedIs(g, pending, visited);
      var visited' := if Ready(g, m, visited) then visited + {m} else visited;
      PassOrder(g, rest, visited');
      AddedWithin(g, rest, visited');
      assert m !in rest;
      OnlySame(rest, Added(g, pending, visited), Added(g, rest, visited'));
      OnlySame(rest, (set x | x in pending) - Added(g, pending, visited), (set x | x in rest) - Added(g, rest, visited'));
    }
  }

  lemma ReadyMeans(g: Graph, m: nat, visited: set<nat>)
    requires m in g
    ensures Ready(g, m, visited) <==> ImportsDone(g, m, visited)
  {
  }

  lemma {:induction false} OnlySame(s: seq<nat>, a: set<nat>, b: set<nat>)
    requires forall x | x in s :: x in a <==> x in b
    ensures Only(s, a) == Only(s, b)
    decreases |s|
  {
    if s != [] { OnlySame(s[1..], a, b); }
  }

  // ---------------------------------------------------------------- what every round keeps

  /** Every module is pending or in the result, once. */
  ghost predicate Partition(g: Graph, s: State) {
    && Distinct(s.pending + s.result)
    && forall m :: m in g <==> m in s.pending || m in s.result
  }

  /** Until a cycle is broken exactly the result is visited, and imports come first in it. */
  ghost predicate Clean(g: Graph, s: State) {
    s.errors == [] && s.visited == (set m | m in s.result) && ImportsFirst(g, s.result)
  }

  ghost predicate ImportsFirst(g: Graph, result: seq<nat>) {
    forall i | 0 <= i < |result| :: result[i] in g && forall x | x in g[result[i]] :: x in result[..i]
  }

  lemma {:induction false} PassPartition(g: Graph, pending: seq<nat>, visited: set<nat>)
    requires Distinct(pending)
    ensures var p := Pass(g, pending, visited); Distinct(p.kept + p.added)
    decreases |pending|
  {
    if pending != [] {
      var v := if Ready(g, pending[0], visited) then visited + {pending[0]} else visited;
      PassPartition(g, pending[1..], v);
      PassMembers(g, pending[1..], v);
      var r := Pass(g, pending[1..], v);
      assert pending[0] !in pending[1..];
      if Ready(g, pending[0], visited) {
        DistinctInsert(r.kept, pending[0], r.added);
      } else {
        DistinctInsert([], pending[0], r.kept + r.added);
        assert [] + [pending[0]] + (r.kept + r.added) == [pending[0]] + r.kept + r.added;
        assert [] + (r.kept + r.added) == r.kept + r.added;
      }
    }
  }

  lemma DistinctInsert(a: seq<nat>, m: nat, b: seq<nat>)
    requires Distinct(a + b) && m !in a && m !in b
    ensures Distinct(a + ([m] + b)) && Distinct(a + [m] + b)
  {
    assert a + ([m] + b) == a + [m] + b;
    var s, t := a + [m] + b, a + b;
    forall i, j | 0 <= i < j < |s|
      ensures s[i] != s[j]
    {
      var i' := if i < |a| then i else i - 1;
      var j' := if j < |a| then j else j - 1;
      assert i != |a| ==> s[i] == t[i'];
      assert j != |a| ==> s[j] == t[j'];
    }
  }

  lemma DistinctSwap(kept: seq<nat>, result: seq<nat>, added: seq<nat>)
    requires Distinct(kept + added) && Distinct(result) && forall m | m in result :: m !in kept && m !in added
    ensures Distinct(kept + (result + added))
  {
    var s, t := kept + (result + added), kept + added;
    forall i, j | 0 <= i < j < |s|
      ensures s[i] != s[j]
    {
      assert i < |kept| ==> s[i] == t[i] && s[i] in kept;
      assert j < |kept| ==> s[j] == t[j] && s[j] in kept;
      assert |kept| <= i < |kept| + |result| ==> s[i] == result[i - |kept|];
      assert |kept| <= j < |kept| + |result| ==> s[j] == result[j - |kept|];
      assert i >= |kept| + |result| ==> s[i] == t[i - |result|] && s[i] in added;
      assert j >= |kept| + |result| ==> s[j] == t[j - |result|] && s[j] in added;
    }
  }

  /** No round loses a module or adds one twice, cycle or not. */
  lemma RoundPartition(g: Graph, s: State)
    requires ClosedGraph(g) && Partition(g, s)
    ensures Partition(g, Round(g, s))
  {
    var p := Pass(g, s.pending, s.visited);
    DistinctParts(s.pending, s.result);
    PassMembers(g, s.pending, s.visited);
    PassPartition(g, s.pending, s.visited);
    if s.pending != [] && |p.kept| != |s.pending| {
      DistinctSwap(p.kept, s.result, p.added);
    }
  }

  lemma DistinctParts(a: seq<nat>, b: seq<nat>)
    requires Distinct(a + b)
    ensures Distinct(a) && Distinct(b) && forall m | m in b :: m !in a
  {
    forall i, j | 0 <= i < j < |a| ensures a[i] != a[j] { assert (a + b)[i] == a[i] && (a + b)[j] == a[j]; }
    forall i, j | 0 <= i < j < |b| ensures b[i] != b[j] { assert (a + b)[|a| + i] == b[i] && (a + b)[|a| + j] == b[j]; }
    forall i, j | 0 <= i < |a| && 0 <= j < |b| ensures a[i] != b[j] { assert (a + b)[i] != (a + b)[|a| + j]; }
  }

  /** A pass keeps imports first. */
  lemma {:induction false} PassImportsFirst(g: Graph, pending: seq<nat>, visited: set<nat>, result: seq<nat>)
    requires ImportsFirst(g, result) && visited == set m | m in result
    ensures ImportsFirst(g, result + Pass(g, pending, visited).added)
    decreases |pending|
  {
    if pending == [] {
      assert result + [] == result;
    } else if Ready(g, pending[0], visited) {
      var result' := result + [pending[0]];
      forall x | x in g[pending[0]] ensures x in result { var i :| 0 <= i < |g[pending[0]]| && g[pending[0]][i] == x; assert x in visited; }
      forall i | 0 <= i < |result'| ensures result'[i] in g && forall x | x in g[result'[i]] :: x in result'[..i] {
        if i < |result| { assert result'[..i] == result[..i]; } else { assert result'[..i] == result; }
      }
      PassImportsFirst(g, pending[1..], visited + {pending[0]}, result');
      var r := Pass(g, pending[1..], visited + {pending[0]});
      assert result' + r.added == result + ([pending[0]] + r.added);
    } else {
      PassImportsFirst(g, pending[1..], visited, result);
    }
  }

  // ---------------------------------------------------------------- what the cycle search finds

  lemma {:induction false} ChainSnoc(g: Graph, k: nat, a: nat, b: nat, c: nat)
    requires Chain(g, k, a, b) && c in g && b in g && c in g[b]
    ensures Chain(g, k + 1, a, c)
    decreases k
  {
    if k == 0 {
      assert Chain(g, 0, c, c);
    } else {
      var x :| x in g[a] && Chain(g, k - 1, x, b);
      ChainSnoc(g, k - 1, x, b, c);
    }
  }

  lemma ImportsSnoc(g: Graph, a: nat, b: nat, c: nat)
    requires (Imports(g, a, b) || (a == b && a in g)) && b in g && c in g && c in g[b]
    ensures Imports(g, a, c)
  {
    var k: nat :| Chain(g, k, a, b) by {
      if a == b && a in g { assert Chain(g, 0, a, b); }
    }
    ChainSnoc(g, k, a, b, c);
  }

  /** What the search finds transitively imports itself, and the start leads to it. */
  lemma {:induction false} SearchFinds(g: Graph, root: nat, m: nat, path: set<nat>)
    requires ClosedGraph(g) && m in g && Search(g, m, path).Some?
    requires forall p | p in path :: Imports(g, p, m)
    requires root == m || Imports(g, root, m)
    ensures var c := Search(g, m, path).value; c in g && Imports(g, c, c) && (root == c || Imports(g, root, c))
    decreases |g.Keys - path|, 1
  {
    if m !in path {
      PathSmaller(g, path, m);
      SearchAllFinds(g, root, m, g[m], path + {m});
    }
  }

  lemma {:induction false} SearchAllFinds(g: Graph, root: nat, m: nat, imports: seq<nat>, path: set<nat>)
    requires ClosedGraph(g) && m in g && (forall x | x in imports :: x in g[m])
    requires SearchAll(g, imports, path).Some?
    requires forall p | p in path :: p == m || Imports(g, p, m)
    requires root == m || Imports(g, root, m)
    ensures var c := SearchAll(g, imports, path).value; c in g && Imports(g, c, c) && (root == c || Imports(g, root, c))
    decreases |g.Keys - path|, 2, |imports|
  {
    var x := imports[0];
    assert x in imports;
    if Search(g, x, path).Some? {
      forall p | p in path ensures Imports(g, p, x) { ImportsSnoc(g, p, m, x); }
      ImportsSnoc(g, root, m, x);
      SearchFinds(g, root, x, path);
    } else {
      SearchAllFinds(g, root, m, imports[1..], path);
    }
  }

  ghost predicate ImportsFrom(g: Graph, x: nat, stuck: set<nat>) {
    x in g && exists y :: y in g[x] && y in stuck
  }

  /** When every module of a set has an import in the set, the search from one of them succeeds. */
  lemma {:induction false} SearchSucceeds(g: Graph, stuck: set<nat>, m: nat, path: set<nat>)
    requires ClosedGraph(g) && m in stuck && forall x | x in stuck :: ImportsFrom(g, x, stuck)
    ensures m in g && Search(g, m, path).Some?
    decreases |g.Keys - path|
  {
    hide SearchAll;
    if m !in path {
      PathSmaller(g, path, m);
      assert ImportsFrom(g, m, stuck);
      var y :| y in g[m] && y in stuck;
      SearchSucceeds(g, stuck, y, path + {m});
      SearchAllSucceeds(g, g[m], y, path + {m});
    }
  }

  lemma {:induction false} SearchAllSucceeds(g: Graph, imports: seq<nat>, y: nat, path: set<nat>)
    requires ClosedGraph(g) && (forall x | x in imports :: x in g) && y in imports && Search(g, y, path).Some?
    ensures SearchAll(g, imports, path).Some?
    decreases |imports|
  {
    if imports[0] != y {
      SearchAllSucceeds(g, imports[1..], y, path);
    }
  }

  /** A pass that adds nothing found nothing ready. */
  lemma {:induction false} NothingReady(g: Graph, pending: seq<nat>, visited: set<nat>)
    requires |Pass(g, pending, visited).kept| == |pending|
    ensures forall m | m in pending :: !Ready(g, m, visited)
    decreases |pending|
  {
    if pending != [] {
      if !Ready(g, pending[0], visited) { NothingReady(g, pending[1..], visited); }
      assert pending == [pending[0]] + pending[1..];
    }
  }

  /** What has been added counts as visited. */
  ghost predicate ResultVisited(s: State) {
    forall m | m in s.result :: m in s.visited
  }

  ghost predicate Stuck(g: Graph, s: State) {
    s.pending != [] && |Pass(g, s.pending, s.visited).kept| == |s.pending|
  }

  /** A round without progress finds a module that does transitively import itself, on a cycle that
      the first pending module leads to, whether or not cycles have been broken before. */
  lemma StuckReports(g: Graph, s: State)
    requires ClosedGraph(g) && Partition(g, s) && ResultVisited(s) && Stuck(g, s)
    ensures s.pending[0] in g && Search(g, s.pending[0], {}).Some?
    ensures var c := Search(g, s.pending[0], {}).value;
            c in g && Imports(g, c, c) && (s.pending[0] == c || Imports(g, s.pending[0], c))
  {
    hide Search, Distinct, Pass;
    NothingReady(g, s.pending, s.visited);
    var stuck := set m | m in s.pending;
    assert s.pending[0] in s.pending;
    forall x | x in stuck
      ensures ImportsFrom(g, x, stuck)
    {
      assert !Ready(g, x, s.visited);
      var i :| 0 <= i < |g[x]| && g[x][i] !in s.visited;
      assert g[x][i] in g[x] && g[x][i] in g;
      assert g[x][i] in stuck;
    }
    SearchSucceeds(g, stuck, s.pending[0], {});
    SearchFinds(g, s.pending[0], s.pending[0], {});
  }

  /** Before any cycle is broken, a round without progress reports exactly one module. */
  lemma FirstReport(g: Graph, s: State)
    requires ClosedGraph(g) && Partition(g, s) && Clean(g, s) && s.pending != []
    requires |Pass(g, s.pending, s.visited).kept| == |s.pending|
    ensures s.pending[0] in g && Search(g, s.pending[0], {}).Some?
    ensures var c := Search(g, s.pending[0], {}).value; Imports(g, c, c) && (s.pending[0] == c || Imports(g, s.pending[0], c))
    ensures Round(g, s).errors == [Search(g, s.pending[0], {}).value]
  {
    hide Search, Distinct, ImportsFirst, Pass;
    assert ResultVisited(s);
    StuckReports(g, s);
  }

  // ---------------------------------------------------------------- the results

  /** On an acyclic graph every round makes progress and stays clean. */
  lemma AcyclicRound(g: Graph, s: State)
    requires ClosedGraph(g) && Acyclic(g) && Partition(g, s) && Clean(g, s)
    ensures Clean(g, Round(g, s)) && (s.pending != [] ==> |Round(g, s).pending| < |s.pending|)
  {
    if s.pending != [] {
      var p := Pass(g, s.pending, s.visited);
      if |p.kept| == |s.pending| {
        FirstReport(g, s);
      } else {
        PassImportsFirst(g, s.pending, s.visited, s.result);
        PassMembers(g, s.pending, s.visited);
      }
    }
  }

  lemma {:induction false} AcyclicRounds(g: Graph, n: nat, s: State)
    requires ClosedGraph(g) && Acyclic(g) && Partition(g, s) && Clean(g, s) && n >= |s.pending|
    ensures var s' := Rounds(g, n, s); s'.pending == [] && Partition(g, s') && Clean(g, s')
    decreases n
  {
    if n > 0 {
      RoundPartition(g, s);
      AcyclicRound(g, s);
      AcyclicRounds(g, n - 1, Round(g, s));
    }
  }

  /** Sorting an acyclic graph ends after at most as many rounds as there are modules, reports
      nothing, and yields every module once with its imports before it. */
  lemma SortsAcyclic(g: Graph, order: seq<nat>)
    requires ClosedGraph(g) && Acyclic(g) && Ascending(order) && forall m :: m in order <==> m in g
    ensures var s := Rounds(g, |order|, Start(order));
            && s.pending == [] && s.errors == [] && Distinct(s.result) && (forall m :: m in s.result <==> m in g)
            && ImportsFirst(g, s.result)
  {
    var s := Start(order);
    assert order + [] == order;
    assert Partition(g, s) && Clean(g, s);
    AcyclicRounds(g, |order|, s);
    var s' := Rounds(g, |order|, s);
    assert s'.pending + s'.result == s'.result;
  }

  lemma {:induction false} RoundsPartition(g: Graph, n: nat, s: State)
    requires ClosedGraph(g) && Partition(g, s)
    ensures Partition(g, Rounds(g, n, s))
    decreases n
  {
    if n > 0 {
      RoundPartition(g, s);
      RoundsPartition(g, n - 1, Round(g, s));
    }
  }

  /** Whenever sorting ends, with or without cycles, every module is in the result once. */
  lemma EndsComplete(g: Graph, order: seq<nat>, n: nat)
    requires ClosedGraph(g) && Ascending(order) && (forall m :: m in order <==> m in g)
    requires Rounds(g, n, Start(order)).pending == []
    ensures var s := Rounds(g, n, Start(order)); Distinct(s.result) && forall m :: m in s.result <==> m in g
  {
    assert order + [] == order;
    RoundsPartition(g, n, Start(order));
    var s := Rounds(g, n, Start(order));
    assert s.pending + s.result == s.result;
  }

  // ---------------------------------------------------------------- when sorting ends

  ghost predicate Ends(g: Graph, order: seq<nat>)
    requires ClosedGraph(g) && forall m | m in order :: m in g
  {
    exists n: nat :: EndsBy(g, order, n)
  }

  ghost predicate EndsBy(g: Graph, order: seq<nat>, n: nat)
    requires ClosedGraph(g) && forall m | m in order :: m in g
  {
    Rounds(g, n, Start(order)).pending == []
  }

  /** Round n + 1 repeats a report. */
  ghost predicate RepeatsAt(g: Graph, order: seq<nat>, n: nat)
    requires ClosedGraph(g) && forall m | m in order :: m in g
  {
    Repeats(g, Rounds(g, n, Start(order)))
  }

  /** The round makes no progress and reports a module that already counts as visited. */
  ghost predicate Repeats(g: Graph, s: State) {
    && ClosedGraph(g) && (forall m | m in s.pending :: m in g) && Stuck(g, s)
    && Search(g, s.pending[0], {}).Some? && Search(g, s.pending[0], {}).value in s.visited
  }

  /** What sorting keeps, with or without cycles. */
  ghost predicate Sane(g: Graph, s: State) {
    && Partition(g, s) && ResultVisited(s)
    && (forall c | c in s.errors :: c in s.visited)
  }

  lemma {:induction false} RoundsPlus(g: Graph, m: nat, n: nat, s: State)
    requires ClosedGraph(g) && forall x | x in s.pending :: x in g
    ensures Rounds(g, m + n, s) == Rounds(g, n, Rounds(g, m, s))
    decreases m
  {
    hide Round;
    if m > 0 {
      RoundsPlus(g, m - 1, n, Round(g, s));
    }
  }

  lemma SaneRound(g: Graph, s: State)
    requires ClosedGraph(g) && Sane(g, s)
    ensures Sane(g, Round(g, s))
  {
    RoundPartition(g, s);
    PassMembers(g, s.pending, s.visited);
  }

  lemma SaneFacts(g: Graph, s: State)
    requires Sane(g, s)
    ensures forall m | m in s.pending :: m in g
  {
  }

  lemma SaneStart(g: Graph, order: seq<nat>)
    requires ClosedGraph(g) && Ascending(order) && forall m :: m in order <==> m in g
    ensures Sane(g, Start(order))
  {
    assert order + [] == order;
  }

  /** The modules pending and those not visited, counted together. */
  ghost function Remaining(g: Graph, s: State): nat {
    |s.pending| + |g.Keys - s.visited|
  }

  lemma SetSmaller(a: set<nat>, b: set<nat>, c: nat)
    requires a <= b
    ensures |a| <= |b|
    ensures c in b && c !in a ==> |a| < |b|
  {
    assert a + (b - a) == b;
    assert |b| == |a| + |b - a|;
  }

  /** A round that does not repeat a report leaves fewer modules to count. */
  lemma RoundMoves(g: Graph, s: State)
    requires ClosedGraph(g) && Sane(g, s) && s.pending != [] && !Repeats(g, s)
    ensures Remaining(g, Round(g, s)) < Remaining(g, s)
  {
    hide Search, Partition;
    SaneFacts(g, s);
    var s' := Round(g, s);
    if Stuck(g, s) {
      StuckReports(g, s);
      SetSmaller(g.Keys - s'.visited, g.Keys - s.visited, Search(g, s.pending[0], {}).value);
    } else {
      PassMembers(g, s.pending, s.visited);
      SetSmaller(g.Keys - s'.visited, g.Keys - s.visited, 0);
    }
  }

  /** Once a report is repeated it is repeated for ever. */
  lemma {:induction false} RepeatsForever(g: Graph, n: nat, s: State)
    requires ClosedGraph(g) && (forall m | m in s.pending :: m in g) && Repeats(g, s)
    ensures Rounds(g, n, s).pending == s.pending != []
    decreases n
  {
    hide Pass, Search;
    if n > 0 {
      assert Round(g, s).visited == s.visited;
      RepeatsForever(g, n - 1, Round(g, s));
    }
  }

  lemma {:induction false} MovesOn(g: Graph, n: nat, s: State)
    requires ClosedGraph(g) && Sane(g, s) && Remaining(g, s) <= n
    requires forall k: nat :: !Repeats(g, Rounds(g, k, s))
    ensures Rounds(g, n, s).pending == []
    decreases n
  {
    hide Round, Repeats, Sane, Remaining;
    SaneFacts(g, s);
    if s.pending == [] {
      EndedStays(g, n, s);
    } else {
      assert !Repeats(g, Rounds(g, 0, s));
      RoundMoves(g, s);
      SaneRound(g, s);
      forall k: nat ensures !Repeats(g, Rounds(g, k, Round(g, s))) {
        assert Rounds(g, k + 1, s) == Rounds(g, k, Round(g, s));
      }
      assert Remaining(g, Round(g, s)) >= 0;
      MovesOn(g, n - 1, Round(g, s));
    }
  }

  /** Sorting ends if and only if no round repeats a report, if and only if it ends after as many
      rounds as there are modules twice over. */
  lemma EndsExactly(g: Graph, order: seq<nat>)
    requires ClosedGraph(g) && Ascending(order) && forall m :: m in order <==> m in g
    ensures Ends(g, order) <==> forall n: nat :: !RepeatsAt(g, order, n)
    ensures Ends(g, order) <==> EndsBy(g, order, |order| + |g|)
  {
    hide *;
    if Ends(g, order) { EndsClear(g, order); }
    if forall n: nat :: !RepeatsAt(g, order, n) { ClearEnds(g, order); }
    if EndsBy(g, order, |order| + |g|) { EndedIs(g, order, |order| + |g|); }
  }

  lemma ClearEnds(g: Graph, order: seq<nat>)
    requires ClosedGraph(g) && Ascending(order) && forall m :: m in order <==> m in g
    requires forall n: nat :: !RepeatsAt(g, order, n)
    ensures EndsBy(g, order, |order| + |g|) && Ends(g, order)
  {
    hide Round, Rounds, Repeats, Sane;
    SaneStart(g, order);
    assert g.Keys - {} == g.Keys;
    forall n: nat ensures !Repeats(g, Rounds(g, n, Start(order))) {
      assert !RepeatsAt(g, order, n);
    }
    MovesOn(g, |order| + |g|, Start(order));
  }

  lemma EndsClear(g: Graph, order: seq<nat>)
    requires ClosedGraph(g) && (forall m | m in order :: m in g) && Ends(g, order)
    ensures forall n: nat :: !RepeatsAt(g, order, n)
  {
    hide Round, Rounds, Repeats;
    var m: nat :| EndsBy(g, order, m);
    forall n: nat ensures !RepeatsAt(g, order, n) {
      if RepeatsAt(g, order, n) { NeverEnds(g, n, m, Start(order)); }
    }
  }

  lemma NeverEnds(g: Graph, n: nat, m: nat, s: State)
    requires ClosedGraph(g) && (forall x | x in s.pending :: x in g)
    requires Repeats(g, Rounds(g, n, s))
    ensures Rounds(g, m, s).pending != []
  {
    hide Round;
    RoundsPlus(g, n, 0, s);
    if m <= n {
      RoundsPlus(g, m, n - m, s);
      if Rounds(g, m, s).pending == [] { EndedStays(g, n - m, Rounds(g, m, s)); }
    } else {
      RoundsPlus(g, n, m - n, s);
      RepeatsForever(g, m - n, Rounds(g, n, s));
    }
  }

  /** Sorting ends if and only if no module is ever reported twice. */
  lemma EndsReportOnce(g: Graph, order: seq<nat>)
    requires ClosedGraph(g) && Ascending(order) && forall m :: m in order <==> m in g
    ensures Ends(g, order) <==> forall n: nat :: Distinct(Rounds(g, n, Start(order)).errors)
  {
    hide Round, Repeats, Sane, Distinct;
    var s := Start(order);
    SaneStart(g, order);
    EndsExactly(g, order);
    if Ends(g, order) {
      forall n: nat ensures Distinct(Rounds(g, n, s).errors) {
        assert Distinct(s.errors) by { assert s.errors == []; NoneDistinct(); }
        forall k: nat ensures !Repeats(g, Rounds(g, k, s)) {
          assert !RepeatsAt(g, order, k);
        }
        ReportsOnce(g, n, s);
      }
    } else {
      var n: nat :| RepeatsAt(g, order, n);
      RoundsPlus(g, n, 2, s);
      ReportsTwice(g, Rounds(g, n, s));
    }
  }

  lemma NoneDistinct()
    ensures Distinct([])
  {
  }

  lemma {:induction false} ReportsOnce(g: Graph, n: nat, s: State)
    requires ClosedGraph(g) && Sane(g, s) && Distinct(s.errors)
    requires forall k: nat :: !Repeats(g, Rounds(g, k, s))
    ensures Distinct(Rounds(g, n, s).errors)
    decreases n
  {
    hide Round, Repeats, Sane, Distinct;
    SaneFacts(g, s);
    if n > 0 {
      assert !Repeats(g, Rounds(g, 0, s));
      ReportsNew(g, s);
      SaneRound(g, s);
      forall k: nat ensures !Repeats(g, Rounds(g, k, Round(g, s))) {
        assert Rounds(g, k + 1, s) == Rounds(g, k, Round(g, s));
      }
      ReportsOnce(g, n - 1, Round(g, s));
    }
  }

  lemma ReportsNew(g: Graph, s: State)
    requires ClosedGraph(g) && Sane(g, s) && Distinct(s.errors) && !Repeats(g, s)
    ensures Distinct(Round(g, s).errors)
  {
    hide Pass, Search, Distinct;
    assert forall m | m in s.pending :: m in g;
    assert Distinct(s.errors) ==> (forall c | c !in s.errors :: Distinct(s.errors + [c])) by { DistinctMore(s.errors); }
  }

  lemma DistinctMore(a: seq<nat>)
    ensures Distinct(a) ==> forall c | c !in a :: Distinct(a + [c])
  {
  }

  lemma ReportsTwice(g: Graph, s: State)
    requires ClosedGraph(g) && (forall m | m in s.pending :: m in g) && Repeats(g, s)
    ensures !Distinct(Rounds(g, 2, s).errors)
  {
    hide Pass, Search;
    var s1 := Round(g, s);
    assert s1.visited == s.visited;
    var s2 := Round(g, s1);
    assert Rounds(g, 2, s) == Rounds(g, 1, s1) == Rounds(g, 0, s2) == s2;
    assert s2.errors[|s.errors|] == s2.errors[|s.errors| + 1];
  }

  // ---------------------------------------------------------------- when something is reported

  lemma {:induction false} ErrorsGrow(g: Graph, n: nat, s: State)
    requires ClosedGraph(g) && forall m | m in s.pending :: m in g
    ensures s.errors <= Rounds(g, n, s).errors
    decreases n
  {
    if n > 0 {
      ErrorsGrow(g, n - 1, Round(g, s));
    }
  }

  lemma {:induction false} NoReports(g: Graph, n: nat, s: State)
    requires ClosedGraph(g) && Partition(g, s) && Clean(g, s) && n >= |s.pending| && Rounds(g, n, s).errors == []
    ensures var s' := Rounds(g, n, s); s'.pending == [] && Partition(g, s') && Clean(g, s')
    decreases n
  {
    if n > 0 {
      RoundPartition(g, s);
      ErrorsGrow(g, n - 1, Round(g, s));
      CleanRound(g, s);
      NoReports(g, n - 1, Round(g, s));
    }
  }

  lemma CleanRound(g: Graph, s: State)
    requires ClosedGraph(g) && Partition(g, s) && Clean(g, s) && Round(g, s).errors == []
    ensures Clean(g, Round(g, s)) && (s.pending != [] ==> |Round(g, s).pending| < |s.pending|)
  {
    if s.pending != [] {
      var p := Pass(g, s.pending, s.visited);
      if |p.kept| == |s.pending| {
        FirstReport(g, s);
      } else {
        PassImportsFirst(g, s.pending, s.visited, s.result);
        PassMembers(g, s.pending, s.visited);
      }
    }
  }

  /** In a list with imports first a chain of imports leads towards the front. */
  lemma {:induction false} ChainForward(g: Graph, result: seq<nat>, k: nat, i: nat, b: nat)
    requires ImportsFirst(g, result) && i < |result| && k > 0 && Chain(g, k, result[i], b)
    ensures b in result[..i]
    decreases k
  {
    var x :| x in g[result[i]] && Chain(g, k - 1, x, b);
    assert x in result[..i];
    var j :| 0 <= j < i && result[j] == x;
    if k > 1 {
      ChainForward(g, result, k - 1, j, b);
      assert result[..j] <= result[..i];
    }
  }

  lemma OrderedAcyclic(g: Graph, result: seq<nat>)
    requires ImportsFirst(g, result) && Distinct(result) && forall m | m in g :: m in result
    ensures Acyclic(g)
  {
    forall m | m in g ensures !Imports(g, m, m) {
      if k: nat :| k > 0 && Chain(g, k, m, m) {
        var i :| 0 <= i < |result| && result[i] == m;
        ChainForward(g, result, k, i, m);
      }
    }
  }

  /** Nothing is reported if and only if no module transitively imports itself. */
  lemma ReportsExactly(g: Graph, order: seq<nat>)
    requires ClosedGraph(g) && Ascending(order) && forall m :: m in order <==> m in g
    ensures Acyclic(g) <==> Rounds(g, |order|, Start(order)).errors == []
  {
    hide Round, Chain;
    if Acyclic(g) { SortsAcyclic(g, order); }
    if Rounds(g, |order|, Start(order)).errors == [] {
      assert order + [] == order;
      NoReports(g, |order|, Start(order));
      var s := Rounds(g, |order|, Start(order));
      assert s.pending + s.result == s.result;
      OrderedAcyclic(g, s.result);
    }
  }

  const TwoCycles: Graph := map[0 := [1], 1 := [0, 2], 2 := [2]]

  lemma TwoCyclesSearch()
    ensures ClosedGraph(TwoCycles) && Search(TwoCycles, 0, {}) == Some(0)
  {
    assert TwoCycles[0] == [1] && TwoCycles[1] == [0, 2] && TwoCycles[2] == [2];
    assert Search(TwoCycles, 0, {0} + {1}) == Some(0);
    assert SearchAll(TwoCycles, [0, 2], {0} + {1}) == Some(0);
    assert Search(TwoCycles, 1, {0}) == Some(0);
    assert {} + {0} == {0};
    assert SearchAll(TwoCycles, [1], {0}) == Some(0);
  }

  lemma TwoCyclesRound(s: State)
    requires s.pending == [0, 1, 2] && s.visited <= {0} && s.result == []
    ensures ClosedGraph(TwoCycles) && forall m | m in s.pending :: m in TwoCycles
    ensures Round(TwoCycles, s) == State([0, 1, 2], {0}, [], s.errors + [0])
  {
    TwoCyclesSearch();
    var g := TwoCycles;
    assert g[0] == [1] && g[1] == [0, 2] && g[2] == [2];
    assert g[0][0] == 1 && g[1][1] == 2 && g[2][0] == 2;
    assert !Ready(g, 0, s.visited) && !Ready(g, 1, s.visited) && !Ready(g, 2, s.visited);
    var p := s.pending;
    assert p[1..] == [1, 2] && p[1..][1..] == [2] && p[1..][1..][1..] == [];
    assert |Pass(g, p[1..][1..], s.visited).kept| == 1;
    assert |Pass(g, p[1..], s.visited).kept| == 2;
    assert |Pass(g, p, s.visited).kept| == 3;
    assert s.visited + {0} == {0};
  }

  /** With two cycles sorting need not end: the search starts afresh each time and reports the cycle
      that is already broken, for ever. */
  lemma {:induction false} MayNotEnd(n: nat, s: State)
    requires s.pending == [0, 1, 2] && s.visited <= {0} && s.result == []
    ensures ClosedGraph(TwoCycles) && forall m | m in s.pending :: m in TwoCycles
    ensures Rounds(TwoCycles, n, s).pending == [0, 1, 2] && |Rounds(TwoCycles, n, s).errors| == |s.errors| + n
    decreases n
  {
    TwoCyclesRound(s);
    if n > 0 {
      MayNotEnd(n - 1, Round(TwoCycles, s));
    }
  }

  // ---------------------------------------------------------------- as it is done

  method ModuleIsReady(imports: seq<nat>, visited: set<nat>) returns (ready: bool)
    ensures ready <==> forall i | 0 <= i < |imports| :: imports[i] in visited
  {
    var i := 0;
    while i < |imports|
      invariant 0 <= i <= |imports| && forall j | 0 <= j < i :: imports[j] in visited
    {
      if imports[i] !in visited {
        return false;
      }
      i := i + 1;
    }
    return true;
  }

  /** The cycle search, with one set of visited modules that grows on the way down and shrinks on
      the way back. */
  class CycleSearch {
    var visited: set<nat>

    constructor ()
      ensures visited == {}
    {
      visited := {};
    }

    method Find(g: Graph, m: nat) returns (r: Option<nat>)
      requires ClosedGraph(g) && m in g
      modifies this
      ensures r == Search(g, m, old(visited))
      ensures r.None? ==> visited == old(visited)
      decreases |g.Keys - visited|
    {
      if m in visited {
        return Some(m);
      }
      PathSmaller(g, visited, m);
      visited := visited + {m};
      ghost var path := visited;
      var i := 0;
      while i < |g[m]|
        invariant 0 <= i <= |g[m]| && visited == path
        invariant SearchAll(g, g[m][i..], path) == SearchAll(g, g[m], path)
      {
        assert g[m][i] in g[m] && g[m][i..][1..] == g[m][i + 1..];
        r := Find(g, g[m][i]);
        if r.Some? {
          return;
        }
        i := i + 1;
      }
      visited := visited - {m};
      return None;
    }
  }

  /** One pass: modules that are not ready are moved to the front of the list. */
  method Compact(g: Graph, all: seq<nat>, visited0: set<nat>, result0: seq<nat>) returns (pending: seq<nat>, visited: set<nat>, result: seq<nat>)
    requires forall m | m in all :: m in g
    ensures result0 <= result
    ensures Passed(pending, visited, result[|result0|..]) == Pass(g, all, visited0)
  {
    pending, visited, result := all, visited0, result0;
    var write := 0;
    var i := 0;
    assert result[|result0|..] == [];
    assert all[0..] == all;
    while i < |pending|
      invariant 0 <= write <= i <= |pending| == |all| && pending[i..] == all[i..]
      invariant result0 <= result
      invariant Compacting(Pass(g, all, visited0), pending[..write], result[|result0|..], Pass(g, all[i..], visited))
    {
      var m := pending[i];
      assert m == all[i..][0] && all[i..][1..] == all[i + 1..] && pending[i..][1..] == pending[i + 1..];
      assert all[i] in all;
      var ready := ModuleIsReady(g[m], visited);
      if ready {
        assert (result + [m])[|result0|..] == result[|result0|..] + [m];
        CompactReady(g, Pass(g, all, visited0), pending[..write], result[|result0|..], all[i..], visited);
        result := result + [m];
        visited := visited + {m};
      } else {
        CompactKeep(g, Pass(g, all, visited0), pending[..write], result[|result0|..], all[i..], visited);
        assert pending[write := m][..write + 1] == pending[..write] + [m];
        assert pending[write := m][i + 1..] == pending[i + 1..];
        pending := pending[write := m];
        write := write + 1;
      }
      i := i + 1;
    }
    assert all[i..] == [];
    pending := pending[..write];
    assert pending + [] == pending && result[|result0|..] + [] == result[|result0|..];
  }

  /** The whole pass is what has been done and the pass over the rest. */
  predicate Compacting(whole: Passed, kept: seq<nat>, added: seq<nat>, rest: Passed) {
    whole == Passed(kept + rest.kept, rest.visited, added + rest.added)
  }

  lemma CompactReady(g: Graph, whole: Passed, kept: seq<nat>, added: seq<nat>, s: seq<nat>, visited: set<nat>)
    requires s != [] && Ready(g, s[0], visited) && Compacting(whole, kept, added, Pass(g, s, visited))
    ensures Compacting(whole, kept, added + [s[0]], Pass(g, s[1..], visited + {s[0]}))
  {
    var r := Pass(g, s[1..], visited + {s[0]});
    assert added + ([s[0]] + r.added) == added + [s[0]] + r.added;
  }

  lemma CompactKeep(g: Graph, whole: Passed, kept: seq<nat>, added: seq<nat>, s: seq<nat>, visited: set<nat>)
    requires s != [] && !Ready(g, s[0], visited) && Compacting(whole, kept, added, Pass(g, s, visited))
    ensures Compacting(whole, kept + [s[0]], added, Pass(g, s[1..], visited))
  {
    var r := Pass(g, s[1..], visited);
    assert kept + ([s[0]] + r.kept) == kept + [s[0]] + r.kept;
  }

  /** Sorting.  The loop of the program goes on as long as modules are pending; here it also stops
      where it would go round for ever, and says so. */
  method Sort(g: Graph, order: seq<nat>) returns (result: seq<nat>, errors: seq<nat>, ends: bool)
    requires ClosedGraph(g) && Ascending(order) && forall m :: m in order <==> m in g
    ensures ends <==> Ends(g, order)
    ensures ends ==> exists n: nat :: Sorted(Rounds(g, n, Start(order)), result, errors)
  {
    hide Pass, Search, Partition, Remaining, Round, Rounds, Ends;
    var pending := order;
    var visited: set<nat> := {};
    result, errors := [], [];
    SaneStart(g, order);
    ghost var n: nat := 0;
    FirstRound(g, Start(order));
    while pending != []
      invariant Sane(g, State(pending, visited, result, errors))
      invariant State(pending, visited, result, errors) == Rounds(g, n, Start(order))
      decreases Remaining(g, State(pending, visited, result, errors))
    {
      ghost var s := State(pending, visited, result, errors);
      NextRound(g, n, order);
      SaneRound(g, s);
      var kept;
      kept, visited, result := Compact(g, pending, visited, result);
      assert result == s.result + result[|s.result|..];
      if |kept| == |pending| {
        PassStuck(g, pending, s.visited);
        assert s.result + [] == s.result;
        var search := new CycleSearch();
        StuckReports(g, s);
        var c := search.Find(g, pending[0]);
        if c.value in visited {
          EndsExactly(g, order);
          assert RepeatsAt(g, order, n);
          return result, errors, false;
        }
        errors := errors + [c.value];
        visited := visited + {c.value};
      }
      pending := kept;
      RoundIs(g, s, State(pending, visited, result, errors));
      RoundMoves(g, s);
      n := n + 1;
    }
    ends := true;
    assert Sorted(Rounds(g, n, Start(order)), result, errors);
    EndedIs(g, order, n);
  }

  /** Nothing is pending, and these are the order and the reports. */
  predicate Sorted(s: State, result: seq<nat>, errors: seq<nat>) {
    s.pending == [] && s.result == result && s.errors == errors
  }

  lemma FirstRound(g: Graph, s: State)
    requires ClosedGraph(g) && forall m | m in s.pending :: m in g
    ensures Rounds(g, 0, s) == s
  {
  }

  lemma NextRound(g: Graph, n: nat, order: seq<nat>)
    requires ClosedGraph(g) && forall m | m in order :: m in g
    ensures forall m | m in Rounds(g, n, Start(order)).pending :: m in g
    ensures Rounds(g, n + 1, Start(order)) == Round(g, Rounds(g, n, Start(order)))
  {
    hide Round;
    RoundsPlus(g, n, 1, Start(order));
  }

  /** What a pass that is stuck, or one that is not, makes of the state. */
  lemma RoundIs(g: Graph, s: State, s': State)
    requires ClosedGraph(g) && (forall m | m in s.pending :: m in g) && s.pending != []
    requires var p := Pass(g, s.pending, s.visited);
             if |p.kept| == |s.pending| then
               Search(g, s.pending[0], {}).Some?
               && s' == s.(visited := s.visited + {Search(g, s.pending[0], {}).value}, errors := s.errors + [Search(g, s.pending[0], {}).value])
             else s' == State(p.kept, p.visited, s.result + p.added, s.errors)
    ensures s' == Round(g, s)
  {
  }

  lemma EndedIs(g: Graph, order: seq<nat>, n: nat)
    requires ClosedGraph(g) && (forall m | m in order :: m in g) && EndsBy(g, order, n)
    ensures Ends(g, order)
  {
  }

  lemma {:induction false} PassStuck(g: Graph, pending: seq<nat>, visited: set<nat>)
    requires |Pass(g, pending, visited).kept| == |pending|
    ensures Pass(g, pending, visited) == Passed(pending, visited, [])
    decreases |pending|
  {
    if pending != [] && !Ready(g, pending[0], visited) {
      PassStuck(g, pending[1..], visited);
      assert pending == [pending[0]] + pending[1..];
    }
  }

  lemma {:induction false} EndedStays(g: Graph, n: nat, s: State)
    requires ClosedGraph(g) && s.pending == []
    ensures Rounds(g, n, s) == s
    decreases n
  {
    if n > 0 { EndedStays(g, n - 1, s); }
  }
}
