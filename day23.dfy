/**
 * LAN party (src/day_23.py): `map_input` reads the network map into an undirected graph and
 * `part_1` collects the sets of three computers that are all connected to each other, then counts
 * those with a computer whose name starts with 't'.
 */
module Day23 {
  import opened Common

  /** The exception `map_input` raises when a line does not name exactly two computers. */
  datatype Failure = ValueError

  /** The network: every computer and the set of computers it is connected to. */
  type Graph = map<string, set<string>>

  // ---------------------------------------------------------------------------------------------
  // map_input: reading the links

  /** `line.split("-")` unpacked into `a, b`: anything but exactly two pieces is a ValueError. */
  function Link(line: string): Result<(string, string), Failure> {
    var parts := SplitOn(line, "-");
    if |parts| == 2 then Ok((parts[0], parts[1])) else Err(ValueError)
  }

  /** A link written as `a-b` reads back as the pair, when neither name holds a dash. */
  lemma LinkRead(a: string, b: string)
    requires '-' !in a && '-' !in b
    ensures Link(a + "-" + b) == Ok((a, b))
  {
    SplitJoinOn([a, b], '-');
    assert JoinOn([a, b], "-") == a + "-" + b;
  }

  /** `[line.split("-") for line in puzzle.split("\n")]`, unpacked in order by the loop. */
  function Links(lines: seq<string>): Result<seq<(string, string)>, Failure> {
    if lines == [] then Ok([])
    else
      var n := |lines| - 1;
      match Links(lines[..n])
      case Err(e) => Err(e)
      case Ok(ls) =>
        match Link(lines[n])
        case Err(e) => Err(e)
        case Ok(l) => Ok(ls + [l])
  }

  /** Reading fails exactly when some line is not a link; otherwise it reads every line in order. */
  lemma {:induction false} LinksRead(lines: seq<string>)
    ensures Links(lines).Err? <==> exists i :: 0 <= i < |lines| && Link(lines[i]).Err?
    ensures Links(lines).Ok? ==> (|Links(lines).value| == |lines|
      && forall i :: 0 <= i < |lines| ==> Link(lines[i]) == Ok(Links(lines).value[i]))
  {
    if lines != [] {
      var n := |lines| - 1;
      LinksRead(lines[..n]);
      assert forall i :: 0 <= i < n ==> lines[..n][i] == lines[i];
    }
  }

  /** `graph[a]` on the defaultdict: the computers linked to a, none if a was never seen. */
  function Neighbours(graph: Graph, a: string): set<string> {
    if a in graph then graph[a] else {}
  }

  /** `graph[a].add(b)`. */
  function Connect(graph: Graph, a: string, b: string): Graph {
    graph[a := Neighbours(graph, a) + {b}]
  }

  /** The graph after the loop has added every link in both directions. */
  function Network(links: seq<(string, string)>): Graph {
    if links == [] then map[]
    else
      var n := |links| - 1;
      Connect(Connect(Network(links[..n]), links[n].0, links[n].1), links[n].1, links[n].0)
  }

  /** Some link joins a and b, written either way round. */
  ghost predicate Linked(links: seq<(string, string)>, a: string, b: string) {
    exists i :: 0 <= i < |links| && (links[i] == (a, b) || links[i] == (b, a))
  }

  /** Some link names a. */
  ghost predicate Named(links: seq<(string, string)>, a: string) {
    exists i :: 0 <= i < |links| && (links[i].0 == a || links[i].1 == a)
  }

  /** Every connection goes both ways. */
  ghost predicate Symmetric(graph: Graph) {
    forall a, b :: b in Neighbours(graph, a) ==> a in Neighbours(graph, b)
  }

  /** The graph holds exactly the computers the links name. */
  lemma {:induction false} NetworkNames(links: seq<(string, string)>, a: string)
    ensures a in Network(links) <==> Named(links, a)
  {
    if links != [] {
      var n := |links| - 1;
      NetworkNames(links[..n], a);
      assert forall i :: 0 <= i < n ==> links[..n][i] == links[i];
      if Named(links, a) && !Named(links[..n], a) {
        assert links[n].0 == a || links[n].1 == a;
      }
    }
  }

  /** b is a neighbour of a exactly when some link joins them. */
  lemma {:induction false} NetworkLinks(links: seq<(string, string)>, a: string, b: string)
    ensures b in Neighbours(Network(links), a) <==> Linked(links, a, b)
  {
    if links != [] {
      var n := |links| - 1;
      NetworkLinks(links[..n], a, b);
      assert forall i :: 0 <= i < n ==> links[..n][i] == links[i];
      if Linked(links, a, b) && !Linked(links[..n], a, b) {
        assert links[n] == (a, b) || links[n] == (b, a);
      }
    }
  }

  /** The graph `map_input` builds is undirected. */
  lemma NetworkSymmetric(links: seq<(string, string)>)
    ensures Symmetric(Network(links))
  {
    forall a, b | b in Neighbours(Network(links), a)
      ensures a in Neighbours(Network(links), b)
    {
      NetworkLinks(links, a, b);
      NetworkLinks(links, b, a);
      var i :| 0 <= i < |links| && (links[i] == (a, b) || links[i] == (b, a));
    }
  }

  /** `map_input`'s loop over the unpacked links. */
  method MapInput(links: seq<(string, string)>) returns (graph: Graph)
    ensures graph == Network(links)
  {
    graph := map[];
    for k := 0 to |links|
      invariant graph == Network(links[..k])
    {
      var (a, b) := links[k];
      graph := graph[a := Neighbours(graph, a) + {b}];
      graph := graph[b := Neighbours(graph, b) + {a}];
      assert links[..k + 1][..k] == links[..k];
    }
    assert links[..|links|] == links;
  }

  // ---------------------------------------------------------------------------------------------
  // part_1: the groups of three

  /** `a, b` from `combinations(graph[v], 2)` passes `a in graph[b]`. */
  predicate Closes(graph: Graph, v: string, a: string, b: string) {
    a in Neighbours(graph, v) && b in Neighbours(graph, v) && a != b && a in Neighbours(graph, b)
  }

  /** The frozensets the loop adds to `groups_of_three`. */
  function Groups(graph: Graph): set<set<string>> {
    set v, a, b | v in graph && a in graph[v] && b in graph[v] && Closes(graph, v, a, b) :: {v, a, b}
  }

  /** In an undirected graph, three different computers form a group exactly when each two are connected. */
  lemma GroupsAreTriangles(graph: Graph, x: string, y: string, z: string)
    requires Symmetric(graph)
    requires x != y && y != z && x != z
    ensures {x, y, z} in Groups(graph) <==>
      y in Neighbours(graph, x) && z in Neighbours(graph, x) && z in Neighbours(graph, y)
  {
    var t := {x, y, z};
    if t in Groups(graph) {
      var v, a, b :| v in graph && a in graph[v] && b in graph[v] && Closes(graph, v, a, b) && t == {v, a, b};
      assert v in t && a in t && b in t;
      assert x in {v, a, b} && y in {v, a, b} && z in {v, a, b};
      assert v != a && v != b;
    }
    if y in Neighbours(graph, x) && z in Neighbours(graph, x) && z in Neighbours(graph, y) {
      assert Closes(graph, x, y, z);
    }
  }

  /** Every group has at most three computers, each of which is connected to one of the others. */
  lemma GroupsSmall(graph: Graph, t: set<string>)
    requires t in Groups(graph)
    ensures 2 <= |t| <= 3
  {
    var v, a, b :| v in graph && a in graph[v] && b in graph[v] && Closes(graph, v, a, b) && t == {v, a, b};
    assert |{a, b}| == 2;
    assert {v, a, b} == {a, b} + {v};
  }

  /** The groups found while looking at the computers in `seen`. */
  ghost predicate FoundAt(graph: Graph, seen: set<string>, t: set<string>) {
    exists v, a, b :: v in seen && Closes(graph, v, a, b) && t == {v, a, b}
  }

  /**
   * `for a, b in combinations(nodes, 2)` for `nodes = graph[v]`: each unordered pair of neighbours
   * is tried once, with whichever comes first in the iteration as `a`.
   */
  method Combinations(graph: Graph, v: string, groups: set<set<string>>) returns (groups': set<set<string>>)
    requires Symmetric(graph)
    ensures forall t :: t in groups' <==> t in groups || FoundAt(graph, {v}, t)
  {
    groups' := groups;
    var nodes := Neighbours(graph, v);
    var left := nodes;
    while left != {}
      invariant left <= nodes
      invariant forall t :: t in groups' <==>
        (t in groups || exists a, b :: a in nodes - left && Closes(graph, v, a, b) && t == {v, a, b})
      decreases left
    {
      var a :| a in left;
      ghost var before := groups';
      left := left - {a};
      groups' := Pair(graph, v, nodes, left, a, groups');
      forall t | t in groups'
        ensures t in groups || exists a, b :: a in nodes - left && Closes(graph, v, a, b) && t == {v, a, b}
      {
        if t !in before {
          var b :| b in left && Closes(graph, v, a, b) && t == {v, a, b};
        }
      }
      forall a', b | a' in nodes - left && Closes(graph, v, a', b)
        ensures {v, a', b} in groups'
      {
        if a' == a && b !in left {
          assert Closes(graph, v, b, a);
          assert {v, b, a} == {v, a, b};
        }
      }
    }
  }

  /** The pairs (a, b) for the b after a in the iteration order. */
  method Pair(graph: Graph, v: string, nodes: set<string>, rest: set<string>, a: string, groups: set<set<string>>)
    returns (groups': set<set<string>>)
    requires Symmetric(graph) && nodes == Neighbours(graph, v) && rest <= nodes && a in nodes && a !in rest
    ensures forall t :: t in groups' <==>
      (t in groups || exists b :: b in rest && Closes(graph, v, a, b) && t == {v, a, b})
  {
    groups' := groups;
    var left := rest;
    while left != {}
      invariant left <= rest
      invariant forall t :: t in groups' <==>
        (t in groups || exists b :: b in rest - left && Closes(graph, v, a, b) && t == {v, a, b})
      decreases left
    {
      var b :| b in left;
      if a in Neighbours(graph, b) {
        groups' := groups' + {{v, a, b}};
      }
      left := left - {b};
    }
  }

  /**
   * The loop over `graph.items()`. The skip test `any(node in checked ...)` never fires, because
   * `checked` stays empty, so every computer is looked at.
   */
  method GroupsOfThree(graph: Graph) returns (groups: set<set<string>>)
    requires Symmetric(graph)
    ensures groups == Groups(graph)
  {
    groups := {};
    var todo := graph.Keys;
    while todo != {}
      invariant todo <= graph.Keys
      invariant forall t :: t in groups <==> FoundAt(graph, graph.Keys - todo, t)
      decreases todo
    {
      var v :| v in todo;
      ghost var before := groups;
      groups := Combinations(graph, v, groups);
      todo := todo - {v};
      forall t | FoundAt(graph, graph.Keys - todo, t)
        ensures t in groups
      {
        var v', a, b :| v' in graph.Keys - todo && Closes(graph, v', a, b) && t == {v', a, b};
        if v' != v {
          assert FoundAt(graph, graph.Keys - (todo + {v}), t);
        }
      }
    }
    forall t | t in Groups(graph)
      ensures FoundAt(graph, graph.Keys, t)
    {
      var v, a, b :| v in graph && a in graph[v] && b in graph[v] && Closes(graph, v, a, b) && t == {v, a, b};
    }
    assert graph.Keys - todo == graph.Keys;
  }

  // ---------------------------------------------------------------------------------------------
  // part_1: counting

  /** `any(node[0] == "t" for node in group)`. */
  predicate Chief(group: set<string>) {
    exists node :: node in group && |node| > 0 && node[0] == 't'
  }

  /** The groups with a computer whose name starts with 't'. */
  function Chiefs(groups: set<set<string>>): set<set<string>> {
    set t | t in groups && Chief(t)
  }

  /** Adding one group to those counted adds it to the chiefs when it has a 't' computer. */
  lemma ChiefsAdd(groups: set<set<string>>, t: set<string>)
    requires t !in groups
    ensures |Chiefs(groups + {t})| == |Chiefs(groups)| + if Chief(t) then 1 else 0
  {
    if Chief(t) {
      assert Chiefs(groups + {t}) == Chiefs(groups) + {t};
    } else {
      assert Chiefs(groups + {t}) == Chiefs(groups);
    }
  }

  /** The count is zero exactly when no group has a computer whose name starts with 't'. */
  lemma ChiefsNone(groups: set<set<string>>)
    ensures |Chiefs(groups)| <= |groups|
    ensures |Chiefs(groups)| == 0 <==> forall t :: t in groups ==> !Chief(t)
  {
    assert groups == Chiefs(groups) + (groups - Chiefs(groups));
    if exists t :: t in groups && Chief(t) {
      var t :| t in groups && Chief(t);
      assert t in Chiefs(groups);
      assert |Chiefs(groups)| == |Chiefs(groups) - {t}| + 1;
    }
  }

  /** The `for group in groups_of_three` loop. */
  method CountChiefs(groups: set<set<string>>) returns (count: nat)
    ensures count == |Chiefs(groups)|
  {
    count := 0;
    var left := groups;
    while left != {}
      invariant left <= groups
      invariant count == |Chiefs(groups - left)|
      decreases left
    {
      var t :| t in left;
      ChiefsAdd(groups - left, t);
      assert groups - (left - {t}) == (groups - left) + {t};
      if exists node :: node in t && |node| > 0 && node[0] == 't' {
        count := count + 1;
      }
      left := left - {t};
    }
    assert groups - left == groups;
  }

  /**
   * `part_1`: reading fails exactly as `map_input` does; otherwise the answer is the number of
   * groups of three that have a computer whose name starts with 't'.
   */
  method Part1(puzzle: string) returns (r: Result<nat, Failure>)
    ensures r == match Links(Split(puzzle))
      case Err(e) => Err(e)
      case Ok(links) => Ok(|Chiefs(Groups(Network(links)))|)
  {
    match Links(Split(puzzle))
    case Err(e) => r := Err(e);
    case Ok(links) =>
      var graph := MapInput(links);
      NetworkSymmetric(links);
      var groups := GroupsOfThree(graph);
      var count := CountChiefs(groups);
      r := Ok(count);
  }
}
