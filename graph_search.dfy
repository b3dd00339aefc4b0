/**
 * Uninformed search over the road map: `dfs_search` (a stack, first goal
 * popped wins), `bfs_search` (a queue, level order) and `reconstruct_path`
 * (the walk up the parent links). Each search keeps a `closed` set, a
 * `parent` map from a node to the node that discovered it (`None` for the
 * start) and the list of tree `edges` it has drawn.
 */
module GraphSearch {
  import opened Common

  type Node = string

  /** A node's neighbours with edge weights, in the dictionary's insertion order. */
  type Adjacency = seq<(Node, int)>

  /** The weighted adjacency map `graph[node] = {neighbour: weight}`. */
  type Graph = map<Node, Adjacency>

  /** A path cost, or `float("inf")` when the goal was not reached. */
  datatype Cost = Finite(value: int) | Infinite

  /** What a search returns: `(edges, path, cost)`. */
  datatype Outcome = Outcome(edges: seq<(Node, Node)>, path: seq<Node>, cost: Cost)

  // ---------------------------------------------------------------------------
  // The order of node names: Python's `<` on `str`
  // ---------------------------------------------------------------------------

  /** a < b on strings: code point by code point, a proper prefix first. */
  predicate Below(a: string, b: string)
  {
    if a == [] then b != []
    else if b == [] then false
    else if a[0] != b[0] then a[0] < b[0]
    else Below(a[1..], b[1..])
  }

  lemma {:induction false} BelowIrreflexive(a: string)
    ensures !Below(a, a)
  {
    if a != [] {
      BelowIrreflexive(a[1..]);
    }
  }

  lemma {:induction false} BelowTransitive(a: string, b: string, c: string)
    requires Below(a, b) && Below(b, c)
    ensures Below(a, c)
  {
    if a != [] && a[0] == b[0] && b[0] == c[0] {
      BelowTransitive(a[1..], b[1..], c[1..]);
    }
  }

  /** Any two different names are ordered one way or the other. */
  lemma {:induction false} BelowTotal(a: string, b: string)
    ensures a == b || Below(a, b) || Below(b, a)
  {
    if a != [] && b != [] && a[0] == b[0] {
      BelowTotal(a[1..], b[1..]);
      if a[1..] == b[1..] {
        assert a == [a[0]] + a[1..] && b == [b[0]] + b[1..];
      }
    }
  }

  // ---------------------------------------------------------------------------
  // `sorted(graph[node].items())`
  // ---------------------------------------------------------------------------

  /** The neighbour names of an adjacency list, in order. */
  function Names(adj: Adjacency): (ns: seq<Node>)
    ensures |ns| == |adj| && forall i :: 0 <= i < |adj| ==> ns[i] == adj[i].0
  {
    if adj == [] then [] else [adj[0].0] + Names(adj[1..])
  }

  /** No neighbour is listed twice, as in a dictionary. */
  predicate DistinctNames(adj: Adjacency)
  {
    forall i, j :: 0 <= i < j < |adj| ==> adj[i].0 != adj[j].0
  }

  /** Names strictly ascending. */
  predicate Ascending(adj: Adjacency)
  {
    forall i, j :: 0 <= i < j < |adj| ==> Below(adj[i].0, adj[j].0)
  }

  /** Names strictly descending. */
  predicate Descending(adj: Adjacency)
  {
    forall i, j :: 0 <= i < j < |adj| ==> Below(adj[j].0, adj[i].0)
  }

  /** An item put in front of an ascending list whose first name is above it. */
  lemma ConsAscending(e: (Node, int), s: Adjacency)
    requires Ascending(s) && (s == [] || Below(e.0, s[0].0))
    ensures Ascending([e] + s)
  {
    forall i, j | 0 <= i < j < |s| + 1 ensures Below(([e] + s)[i].0, ([e] + s)[j].0) {
      if i == 0 && j > 1 {
        BelowTransitive(e.0, s[0].0, s[j - 1].0);
      }
    }
  }

  /** The item placed before the first item whose name is above its own. */
  function InsertByName(e: (Node, int), s: Adjacency): (r: Adjacency)
    ensures |r| == |s| + 1 && multiset(r) == multiset(s) + multiset{e}
    ensures r[0] == e || (s != [] && r[0] == s[0])
  {
    if s == [] then [e]
    else if Below(e.0, s[0].0) then [e] + s
    else
      assert s == [s[0]] + s[1..];
      [s[0]] + InsertByName(e, s[1..])
  }

  /** Inserting an item with a new name into an ascending list keeps it ascending. */
  lemma {:induction false} InsertAscending(e: (Node, int), s: Adjacency)
    requires Ascending(s) && forall i :: 0 <= i < |s| ==> s[i].0 != e.0
    ensures Ascending(InsertByName(e, s))
  {
    if s != [] {
      if Below(e.0, s[0].0) {
        ConsAscending(e, s);
      } else {
        BelowTotal(e.0, s[0].0);
        InsertAscending(e, s[1..]);
        ConsAscending(s[0], InsertByName(e, s[1..]));
      }
    }
  }

  /** `sorted(items)`: insertion sort by name (names are distinct, so the weights never decide). */
  function SortByName(adj: Adjacency): (r: Adjacency)
    ensures |r| == |adj| && multiset(r) == multiset(adj)
  {
    if adj == [] then []
    else
      assert adj == [adj[0]] + adj[1..];
      InsertByName(adj[0], SortByName(adj[1..]))
  }

  /** With distinct names the sorted list is strictly ascending. */
  lemma {:induction false} SortAscending(adj: Adjacency)
    requires DistinctNames(adj)
    ensures Ascending(SortByName(adj))
  {
    if adj != [] {
      var rest := SortByName(adj[1..]);
      SortAscending(adj[1..]);
      forall i | 0 <= i < |rest| ensures rest[i].0 != adj[0].0 {
        assert rest[i] in multiset(adj[1..]);
        var k :| 0 <= k < |adj[1..]| && adj[1..][k] == rest[i];
        assert adj[k + 1] == rest[i];
      }
      InsertAscending(adj[0], rest);
    }
  }

  lemma ReverseDescending(s: Adjacency)
    requires Ascending(s)
    ensures Descending(Reverse(s))
  {
  }

  // ---------------------------------------------------------------------------
  // Graphs and paths
  // ---------------------------------------------------------------------------

  /** Every neighbour is itself a key of the map, and no node lists a neighbour twice. */
  predicate WellFormed(g: Graph)
  {
    (forall u {:trigger g[u]} :: u in g ==> DistinctNames(g[u])) &&
    (forall u, i {:trigger g[u][i]} :: u in g && 0 <= i < |g[u]| ==> g[u][i].0 in g)
  }

  /** v is listed among u's neighbours. */
  predicate Edge(g: Graph, u: Node, v: Node)
  {
    u in g && v in Names(g[u])
  }

  /** A walk from `start` to `goal` along graph edges. */
  predicate IsPath(g: Graph, start: Node, goal: Node, path: seq<Node>)
  {
    |path| > 0 && path[0] == start && path[|path| - 1] == goal &&
    forall t :: 0 <= t < |path| - 1 ==> Edge(g, path[t], path[t + 1])
  }

  // ---------------------------------------------------------------------------
  // `reconstruct_path`
  // ---------------------------------------------------------------------------

  /** The `parent` dictionary: `None` for the start. */
  type Parents = map<Node, Option<Node>>

  /**
   * A rank that strictly drops along every parent link, whose targets are
   * themselves keys: the parent chain from any key is finite and ends at a
   * node whose parent is `None`.
   */
  ghost predicate Ranked(parent: Parents, rank: map<Node, nat>)
  {
    forall x {:trigger parent[x]} :: x in parent ==>
      x in rank && (parent[x].Some? ==> parent[x].value in parent && parent[x].value in rank && rank[parent[x].value] < rank[x])
  }

  /** The parent chain ending at x, root first. */
  ghost function Chain(parent: Parents, rank: map<Node, nat>, x: Node): seq<Node>
    requires Ranked(parent, rank) && x in parent
    decreases rank[x]
  {
    match parent[x]
    case None => [x]
    case Some(y) => Chain(parent, rank, y) + [x]
  }

  /** The chain ends at x, starts at a node without parent, and each node's parent precedes it. */
  lemma {:induction false} ChainFacts(parent: Parents, rank: map<Node, nat>, x: Node)
    requires Ranked(parent, rank) && x in parent
    ensures var c := Chain(parent, rank, x);
      |c| > 0 && c[|c| - 1] == x && c[0] in parent && parent[c[0]] == None &&
      forall t :: 0 < t < |c| ==> c[t] in parent && parent[c[t]] == Some(c[t - 1])
    decreases rank[x]
  {
    match parent[x]
    case None =>
    case Some(y) =>
      ChainFacts(parent, rank, y);
      var c, d := Chain(parent, rank, x), Chain(parent, rank, y);
      assert c == d + [x];
      forall t | 0 < t < |c| ensures c[t] in parent && parent[c[t]] == Some(c[t - 1]) {
        if t < |d| {
          assert c[t] == d[t] && c[t - 1] == d[t - 1];
        }
      }
  }

  lemma ReverseSnoc<T>(s: seq<T>, x: T)
    ensures Reverse(s + [x]) == [x] + Reverse(s)
  {
    assert forall i :: 0 <= i < |s| + 1 ==> Reverse(s + [x])[i] == ([x] + Reverse(s))[i];
  }

  /**
   * `reconstruct_path(parent, start, goal)`: `[]` when goal has no parent
   * entry, otherwise the parent chain from goal walked up to `None` and
   * reversed.
   */
  method ReconstructPath(parent: Parents, start: Node, goal: Node, ghost rank: map<Node, nat>) returns (path: seq<Node>)
    requires Ranked(parent, rank)
    ensures goal !in parent ==> path == []
    ensures goal in parent ==> path == Chain(parent, rank, goal)
  {
    if goal !in parent {
      return [];
    }
    var walked: seq<Node> := [];
    var cur: Option<Node> := Some(goal);
    while cur.Some?
      invariant cur.Some? ==> cur.value in parent && Chain(parent, rank, goal) == Chain(parent, rank, cur.value) + Reverse(walked)
      invariant cur.None? ==> Chain(parent, rank, goal) == Reverse(walked)
      decreases if cur.Some? then rank[cur.value] + 1 else 0
    {
      ReverseSnoc(walked, cur.value);
      walked := walked + [cur.value];
      cur := parent[cur.value];
    }
    path := Reverse(walked);
  }

  /** The reconstructed path runs from `start` along graph edges to the node. */
  lemma ChainIsPath(graph: Graph, start: Node, closed: set<Node>, parent: Parents, rank: map<Node, nat>, x: Node)
    requires ParentTree(graph, start, closed, parent, rank) && x in parent
    ensures IsPath(graph, start, x, Chain(parent, rank, x))
  {
    ChainFacts(parent, rank, x);
  }

  /**
   * What both searches return when `goal` is popped: the tree edges drawn so
   * far, the path `reconstruct_path` builds, which is a path of the graph from
   * `start` to `goal`, and the popped cost.
   */
  method Found(graph: Graph, start: Node, goal: Node, closed: set<Node>, parent: Parents, ghost rank: map<Node, nat>,
               edges: seq<(Node, Node)>, cost: int) returns (r: Outcome)
    requires ParentTree(graph, start, closed, parent, rank) && goal in parent
    ensures r.edges == edges && r.cost == Finite(cost)
    ensures r.path != [] && IsPath(graph, start, goal, r.path)
  {
    ChainIsPath(graph, start, closed, parent, rank, goal);
    var path := ReconstructPath(parent, start, goal, rank);
    r := Outcome(edges, path, Finite(cost));
  }

  // ---------------------------------------------------------------------------
  // Search state
  // ---------------------------------------------------------------------------

  /**
   * The `parent` map of a search: `start` has parent `None` and is the only
   * such node; every other entry points along a graph edge to a closed node
   * of lower rank, so the links never form a cycle.
   */
  ghost predicate ParentTree(graph: Graph, start: Node, closed: set<Node>, parent: Parents, rank: map<Node, nat>)
  {
    start in parent && parent[start] == None && Ranked(parent, rank) &&
    forall x {:trigger parent[x]} :: x in parent ==>
      x in graph && (parent[x].None? ==> x == start) && (parent[x].Some? ==> parent[x].value in closed && Edge(graph, parent[x].value, x))
  }

  /** Every drawn edge is an edge of the graph. */
  predicate ValidEdges(graph: Graph, edges: seq<(Node, Node)>)
  {
    forall k :: 0 <= k < |edges| ==> Edge(graph, edges[k].0, edges[k].1)
  }

  /** Every frontier entry has a parent entry. */
  predicate Frontier(frontier: seq<(Node, int)>, parent: Parents)
  {
    forall p :: 0 <= p < |frontier| ==> frontier[p].0 in parent
  }

  /** No element occurs twice. */
  predicate Distinct<T(==)>(s: seq<T>)
  {
    forall a, b :: 0 <= a < b < |s| ==> s[a] != s[b]
  }

  /** A sequence without repeats drawn from a finite set is no longer than the set. */
  lemma {:induction false} DistinctWithin<T>(s: seq<T>, universe: set<T>)
    requires Distinct(s) && forall k :: 0 <= k < |s| ==> s[k] in universe
    ensures |s| <= |universe|
  {
    if s != [] {
      var x := s[|s| - 1];
      DistinctWithin(s[..|s| - 1], universe - {x});
    }
  }

  /** Linking a not-yet-closed neighbour to a closed node keeps the parent map a tree. */
  lemma AttachKeepsTree(graph: Graph, start: Node, closed: set<Node>, wider: set<Node>, parent: Parents, rank: map<Node, nat>, node: Node, nbr: Node)
    requires ParentTree(graph, start, closed, parent, rank) && closed <= wider
    requires node in closed && node in parent && start in closed
    requires nbr !in closed && nbr in graph && Edge(graph, node, nbr)
    ensures ParentTree(graph, start, wider, parent[nbr := Some(node)], rank[nbr := rank[node] + 1])
  {
    var parent', rank' := parent[nbr := Some(node)], rank[nbr := rank[node] + 1];
    forall x | x in parent'
      ensures x in rank' && (parent'[x].Some? ==> parent'[x].value in parent' && parent'[x].value in rank' && rank'[parent'[x].value] < rank'[x])
    {
      if x != nbr && parent[x].Some? {
        assert parent[x].value != nbr;
      }
    }
  }

  // ---------------------------------------------------------------------------
  // The neighbour loops: `for nbr, w in sorted(...): if nbr not in closed: ...`
  // ---------------------------------------------------------------------------

  /** The items whose neighbour is not in `closed`, in their order. */
  function Fresh(items: Adjacency, closed: set<Node>): (r: Adjacency)
    ensures |r| <= |items|
  {
    if items == [] then []
    else if items[|items| - 1].0 in closed then Fresh(items[..|items| - 1], closed)
    else Fresh(items[..|items| - 1], closed) + [items[|items| - 1]]
  }

  /** The frontier entries for the added items: `(nbr, cost + w)`. */
  function Pushes(added: Adjacency, cost: int): (r: seq<(Node, int)>)
    ensures |r| == |added|
  {
    if added == [] then []
    else Pushes(added[..|added| - 1], cost) + [(added[|added| - 1].0, cost + added[|added| - 1].1)]
  }

  /** The tree edges drawn for the added items: `(node, nbr)`. */
  function Links(node: Node, added: Adjacency): (r: seq<(Node, Node)>)
    ensures |r| == |added|
  {
    if added == [] then []
    else Links(node, added[..|added| - 1]) + [(node, added[|added| - 1].0)]
  }

  /** Every tree edge drawn for the added items starts at `node`. */
  lemma {:induction false} LinksStartAt(node: Node, added: Adjacency)
    ensures forall k :: 0 <= k < |added| ==> Links(node, added)[k].0 == node
  {
    if added != [] {
      LinksStartAt(node, added[..|added| - 1]);
    }
  }

  /** Every edge starts at a node of `log`. */
  ghost predicate EdgesFrom(edges: seq<(Node, Node)>, log: seq<Node>)
  {
    forall k :: 0 <= k < |edges| ==> edges[k].0 in log
  }

  /** Drawing the edges of a node already in the log keeps every edge starting in the log. */
  lemma LinksFrom(edges: seq<(Node, Node)>, log: seq<Node>, node: Node, added: Adjacency)
    requires EdgesFrom(edges, log) && node in log
    ensures EdgesFrom(edges + Links(node, added), log)
  {
    LinksStartAt(node, added);
  }

  /** A longer log still holds the start of every edge. */
  lemma EdgesFromLonger(edges: seq<(Node, Node)>, log: seq<Node>, more: seq<Node>)
    requires EdgesFrom(edges, log)
    ensures EdgesFrom(edges, log + more)
  {
    forall k | 0 <= k < |edges| ensures edges[k].0 in log + more {
      assert edges[k].0 in log;
    }
  }

  /** `parent[nbr] = node` for each added item in turn. */
  function Attach(parent: Parents, node: Node, added: Adjacency): (r: Parents)
    ensures r.Keys >= parent.Keys
  {
    if added == [] then parent
    else Attach(parent, node, added[..|added| - 1])[added[|added| - 1].0 := Some(node)]
  }

  /** One more item of the loop: it is kept exactly when its neighbour is not closed. */
  lemma FreshStep(items: Adjacency, t: nat, closed: set<Node>)
    requires t < |items|
    ensures items[..t + 1][..t] == items[..t]
    ensures Fresh(items[..t + 1], closed) ==
      if items[t].0 in closed then Fresh(items[..t], closed) else Fresh(items[..t], closed) + [items[t]]
  {
    assert items[..t + 1][..t] == items[..t];
  }

  /** One more added item extends every record of the loop by that item. */
  lemma AddedStep(items: Adjacency, t: nat, closed: set<Node>, node: Node, cost: int, parent: Parents)
    requires t < |items| && items[t].0 !in closed
    ensures var a, a' := Fresh(items[..t], closed), Fresh(items[..t + 1], closed);
      a' == a + [items[t]] &&
      Pushes(a', cost) == Pushes(a, cost) + [(items[t].0, cost + items[t].1)] &&
      Links(node, a') == Links(node, a) + [(node, items[t].0)] &&
      Attach(parent, node, a') == Attach(parent, node, a)[items[t].0 := Some(node)] &&
      Names(a') == Names(a) + [items[t].0]
  {
    FreshStep(items, t, closed);
    var a, a' := Fresh(items[..t], closed), Fresh(items[..t + 1], closed);
    assert a'[..|a'| - 1] == a;
    NamesSnoc(a, items[t]);
  }

  /** The names of a list with one more item. */
  lemma NamesSnoc(adj: Adjacency, e: (Node, int))
    ensures Names(adj + [e]) == Names(adj) + [e.0]
  {
    assert forall i :: 0 <= i < |adj| ==> (adj + [e])[i] == adj[i];
  }

  /** Appending one more record to a log that already extends a prefix. */
  lemma AppendAssoc<T>(prefix: seq<T>, log: seq<T>, x: T)
    ensures (prefix + log) + [x] == prefix + (log + [x])
  {
  }

  /** The filter keeps exactly the items whose neighbour is not closed. */
  lemma {:induction false} FreshSelects(items: Adjacency, closed: set<Node>)
    ensures forall e :: e in Fresh(items, closed) <==> e in items && e.0 !in closed
  {
    if items != [] {
      var n := |items|;
      FreshSelects(items[..n - 1], closed);
      assert items == items[..n - 1] + [items[n - 1]];
    }
  }

  /** The filter keeps the order: a descending list stays descending. */
  lemma {:induction false} FreshDescending(items: Adjacency, closed: set<Node>)
    requires Descending(items)
    ensures Descending(Fresh(items, closed))
  {
    if items != [] {
      var n := |items|;
      var rest := Fresh(items[..n - 1], closed);
      FreshDescending(items[..n - 1], closed);
      if items[n - 1].0 !in closed {
        FreshSelects(items[..n - 1], closed);
        forall i | 0 <= i < |rest| ensures Below(items[n - 1].0, rest[i].0) {
          assert rest[i] in items[..n - 1];
          var j :| 0 <= j < n - 1 && items[..n - 1][j] == rest[i];
          assert items[j] == rest[i];
        }
      }
    }
  }

  /** Reversing a descending list gives an ascending one. */
  lemma ReverseAscending(s: Adjacency)
    requires Descending(s)
    ensures Ascending(Reverse(s))
  {
  }

  /**
   * `sorted(graph[node].items(), reverse=True)` pushed onto the stack: the
   * added items read from the top of the stack down ascend by name, so they
   * are popped in ascending name order.
   */
  lemma PoppedAscending(adj: Adjacency, closed: set<Node>)
    requires DistinctNames(adj)
    ensures Ascending(Reverse(Fresh(Reverse(SortByName(adj)), closed)))
  {
    SortAscending(adj);
    ReverseDescending(SortByName(adj));
    FreshDescending(Reverse(SortByName(adj)), closed);
    ReverseAscending(Fresh(Reverse(SortByName(adj)), closed));
  }

  /** `parent[nbr] = node` for every added neighbour; every other entry is untouched. */
  lemma {:induction false} AttachSets(parent: Parents, node: Node, added: Adjacency)
    ensures forall x :: x in Attach(parent, node, added) <==> x in parent || x in Names(added)
    ensures forall x :: x in Names(added) ==> Attach(parent, node, added)[x] == Some(node)
    ensures forall x :: x in parent && x !in Names(added) ==> Attach(parent, node, added)[x] == parent[x]
  {
    if added != [] {
      var n := |added|;
      var prev, x0 := added[..n - 1], added[n - 1].0;
      var m := Attach(parent, node, prev);
      AttachSets(parent, node, prev);
      assert added == prev + [added[n - 1]];
      NamesSnoc(prev, added[n - 1]);
      var a := Attach(parent, node, added);
      assert a == m[x0 := Some(node)];
      forall x ensures x in a <==> x in parent || x in Names(added) {
        assert x in Names(added) <==> x in Names(prev) || x == x0;
      }
      forall x | x in Names(added) ensures a[x] == Some(node) {
        if x != x0 {
          assert x in Names(prev);
        }
      }
      forall x | x in parent && x !in Names(added) ensures a[x] == parent[x] {
        assert x != x0 && x !in Names(prev);
      }
    }
  }

  /** The keys of the attached map, for one node. */
  lemma AttachMember(parent: Parents, node: Node, added: Adjacency, x: Node)
    ensures x in Attach(parent, node, added) <==> x in parent || x in Names(added)
  {
    AttachSets(parent, node, added);
  }

  /** Each item of a sorted neighbour list is an edge out of the node to a node of the graph. */
  lemma SortedItems(graph: Graph, node: Node, items: Adjacency)
    requires WellFormed(graph) && node in graph
    requires items == SortByName(graph[node]) || items == Reverse(SortByName(graph[node]))
    ensures DistinctNames(items)
    ensures forall t :: 0 <= t < |items| ==> items[t].0 in graph && Edge(graph, node, items[t].0)
  {
    var adj := graph[node];
    var sorted := SortByName(adj);
    SortAscending(adj);
    forall t | 0 <= t < |items| ensures items[t].0 in graph && Edge(graph, node, items[t].0) {
      var e := items[t];
      assert e in sorted;
      assert e in multiset(adj);
      var i :| 0 <= i < |adj| && adj[i] == e;
      assert Names(adj)[i] == e.0;
    }
    forall a, b | 0 <= a < b < |items| ensures items[a].0 != items[b].0 {
      if items == sorted {
        BelowIrreflexive(items[a].0);
      } else {
        BelowIrreflexive(items[b].0);
      }
    }
  }

  /** Pushing the added items keeps every frontier entry's parent entry. */
  lemma {:induction false} PushesKeepFrontier(frontier: seq<(Node, int)>, parent: Parents, node: Node, added: Adjacency, cost: int)
    requires Frontier(frontier, parent)
    ensures Frontier(frontier + Pushes(added, cost), Attach(parent, node, added))
  {
    if added != [] {
      var n := |added|;
      PushesKeepFrontier(frontier, parent, node, added[..n - 1], cost);
      AppendAssoc(frontier, Pushes(added[..n - 1], cost), (added[n - 1].0, cost + added[n - 1].1));
    }
  }

  /** The tree edges drawn to the added items are graph edges when every item is a neighbour of `node`. */
  lemma {:induction false} LinksValid(graph: Graph, edges: seq<(Node, Node)>, node: Node, added: Adjacency)
    requires ValidEdges(graph, edges)
    requires forall i :: 0 <= i < |added| ==> Edge(graph, node, added[i].0)
    ensures ValidEdges(graph, edges + Links(node, added))
  {
    if added != [] {
      var n := |added|;
      LinksValid(graph, edges, node, added[..n - 1]);
      AppendAssoc(edges, Links(node, added[..n - 1]), (node, added[n - 1].0));
    }
  }

  /** The items the filter keeps are items of the list. */
  lemma FreshEdges(graph: Graph, node: Node, items: Adjacency, closed: set<Node>)
    requires forall t :: 0 <= t < |items| ==> Edge(graph, node, items[t].0)
    ensures forall i :: 0 <= i < |Fresh(items, closed)| ==> Edge(graph, node, Fresh(items, closed)[i].0)
  {
    FreshSelects(items, closed);
    forall i | 0 <= i < |Fresh(items, closed)| ensures Edge(graph, node, Fresh(items, closed)[i].0) {
      assert Fresh(items, closed)[i] in items;
    }
  }

  // ---------------------------------------------------------------------------
  // `dfs_search`
  // ---------------------------------------------------------------------------

  /**
   * The neighbour loop of `dfs_search` for a node just closed: every
   * neighbour not closed, in reverse-sorted order, gets `node` as its parent,
   * a tree edge `(node, nbr)` and a stack entry with the popped cost plus the
   * edge weight.
   */
  method PushNeighbours(graph: Graph, start: Node, closed: set<Node>, node: Node, cost: int,
                        stack: seq<(Node, int)>, parent: Parents, edges: seq<(Node, Node)>, ghost rank: map<Node, nat>)
    returns (stack': seq<(Node, int)>, parent': Parents, edges': seq<(Node, Node)>, ghost rank': map<Node, nat>)
    requires WellFormed(graph) && node in closed && start in closed && node in parent
    requires ParentTree(graph, start, closed, parent, rank) && Frontier(stack, parent) && ValidEdges(graph, edges)
    ensures stack' == stack + Pushes(Fresh(Reverse(SortByName(graph[node])), closed), cost)
    ensures edges' == edges + Links(node, Fresh(Reverse(SortByName(graph[node])), closed))
    ensures parent' == Attach(parent, node, Fresh(Reverse(SortByName(graph[node])), closed))
    ensures ParentTree(graph, start, closed, parent', rank') && Frontier(stack', parent') && ValidEdges(graph, edges')
  {
    var items := Reverse(SortByName(graph[node]));
    SortedItems(graph, node, items);
    stack', parent', edges', rank' := PushEach(graph, start, closed, node, cost, items, stack, parent, edges, rank);
    PushesKeepFrontier(stack, parent, node, Fresh(items, closed), cost);
    FreshEdges(graph, node, items, closed);
    LinksValid(graph, edges, node, Fresh(items, closed));
  }

  /** The loop itself, over the items in the order given. */
  method PushEach(graph: Graph, start: Node, closed: set<Node>, node: Node, cost: int, items: Adjacency,
                  stack: seq<(Node, int)>, parent: Parents, edges: seq<(Node, Node)>, ghost rank: map<Node, nat>)
    returns (stack': seq<(Node, int)>, parent': Parents, edges': seq<(Node, Node)>, ghost rank': map<Node, nat>)
    requires node in closed && start in closed && node in parent && ParentTree(graph, start, closed, parent, rank)
    requires forall t :: 0 <= t < |items| ==> items[t].0 in graph && Edge(graph, node, items[t].0)
    ensures stack' == stack + Pushes(Fresh(items, closed), cost)
    ensures edges' == edges + Links(node, Fresh(items, closed))
    ensures parent' == Attach(parent, node, Fresh(items, closed))
    ensures ParentTree(graph, start, closed, parent', rank')
  {
    stack', parent', edges', rank' := stack, parent, edges, rank;
    for t := 0 to |items|
      invariant stack' == stack + Pushes(Fresh(items[..t], closed), cost)
      invariant edges' == edges + Links(node, Fresh(items[..t], closed))
      invariant parent' == Attach(parent, node, Fresh(items[..t], closed))
      invariant node in parent' && ParentTree(graph, start, closed, parent', rank')
    {
      if items[t].0 in closed {
        FreshStep(items, t, closed);
      } else {
        AttachKeepsTree(graph, start, closed, closed, parent', rank', node, items[t].0);
        rank' := rank'[items[t].0 := rank'[node] + 1];
        stack', parent', edges' := PushAdd(closed, node, cost, items, t, stack, parent, edges, stack', parent', edges');
      }
    }
    assert items[..|items|] == items;
  }

  /** The loop body for a neighbour not closed: it gets `node` as its parent, a tree edge and a stack entry. */
  method PushAdd(closed: set<Node>, node: Node, cost: int, items: Adjacency, t: nat,
                 stack: seq<(Node, int)>, parent: Parents, edges: seq<(Node, Node)>,
                 stack': seq<(Node, int)>, parent': Parents, edges': seq<(Node, Node)>)
    returns (stack'': seq<(Node, int)>, parent'': Parents, edges'': seq<(Node, Node)>)
    requires t < |items| && items[t].0 !in closed
    requires stack' == stack + Pushes(Fresh(items[..t], closed), cost)
    requires edges' == edges + Links(node, Fresh(items[..t], closed))
    requires parent' == Attach(parent, node, Fresh(items[..t], closed))
    ensures stack'' == stack + Pushes(Fresh(items[..t + 1], closed), cost)
    ensures edges'' == edges + Links(node, Fresh(items[..t + 1], closed))
    ensures parent'' == Attach(parent, node, Fresh(items[..t + 1], closed))
    ensures parent'' == parent'[items[t].0 := Some(node)]
  {
    var nbr, w := items[t].0, items[t].1;
    AddedStep(items, t, closed, node, cost, parent);
    AppendAssoc(stack, Pushes(Fresh(items[..t], closed), cost), (nbr, cost + w));
    AppendAssoc(edges, Links(node, Fresh(items[..t], closed)), (node, nbr));
    parent'' := parent'[nbr := Some(node)];
    edges'' := edges' + [(node, nbr)];
    stack'' := stack' + [(nbr, cost + w)];
  }

  /** Expanding a popped node that is neither closed nor the goal: it is closed and logged, and its neighbours pushed. */
  method ExpandNode(graph: Graph, start: Node, goal: Node, node: Node, cost: int, closed: set<Node>, ghost expanded: seq<Node>,
                    stack: seq<(Node, int)>, parent: Parents, edges: seq<(Node, Node)>, ghost rank: map<Node, nat>)
    returns (closed': set<Node>, ghost expanded': seq<Node>, stack': seq<(Node, int)>, parent': Parents,
             edges': seq<(Node, Node)>, ghost rank': map<Node, nat>)
    requires WellFormed(graph) && node in parent && node !in closed && node != goal && (start in closed || node == start)
    requires closed <= graph.Keys && ParentTree(graph, start, closed, parent, rank) && Frontier(stack, parent) && ValidEdges(graph, edges)
    requires Distinct(expanded) && forall k :: 0 <= k < |expanded| ==> expanded[k] in closed && expanded[k] != goal
    ensures closed' == closed + {node} && expanded' == expanded + [node]
    ensures stack' == stack + Pushes(Fresh(Reverse(SortByName(graph[node])), closed'), cost)
    ensures edges' == edges + Links(node, Fresh(Reverse(SortByName(graph[node])), closed'))
    ensures parent' == Attach(parent, node, Fresh(Reverse(SortByName(graph[node])), closed'))
    ensures closed' <= graph.Keys && start in closed'
    ensures ParentTree(graph, start, closed', parent', rank') && Frontier(stack', parent') && ValidEdges(graph, edges')
    ensures Distinct(expanded') && forall k :: 0 <= k < |expanded'| ==> expanded'[k] in closed' && expanded'[k] != goal
    ensures |expanded'| <= |graph|
  {
    ExpandedGrows(expanded, closed, node, goal);
    ClosingKeepsTree(graph, start, closed, parent, rank, node);
    closed' := closed + {node};
    expanded' := expanded + [node];
    DistinctWithin(expanded', graph.Keys);
    stack', parent', edges', rank' := PushNeighbours(graph, start, closed', node, cost, stack, parent, edges, rank);
  }

  /** Closing one more node keeps every parent link pointing at a closed node. */
  lemma ClosingKeepsTree(graph: Graph, start: Node, closed: set<Node>, parent: Parents, rank: map<Node, nat>, node: Node)
    requires ParentTree(graph, start, closed, parent, rank)
    ensures ParentTree(graph, start, closed + {node}, parent, rank)
  {
  }

  /** Closing a node that is neither closed nor the goal, and logging it, keeps the log free of repeats. */
  lemma ExpandedGrows(expanded: seq<Node>, closed: set<Node>, node: Node, goal: Node)
    requires Distinct(expanded) && forall k :: 0 <= k < |expanded| ==> expanded[k] in closed && expanded[k] != goal
    requires node !in closed && node != goal
    ensures Distinct(expanded + [node])
    ensures forall k :: 0 <= k < |expanded + [node]| ==> (expanded + [node])[k] in closed + {node} && (expanded + [node])[k] != goal
  {
  }

  /**
   * `dfs_search(graph, start, goal)`: the first time `goal` is popped, the
   * tree edges drawn so far, the path back through the parent links and the
   * popped cost; `(edges, [], inf)` once the stack is empty. `expanded`
   * lists the nodes closed, in order: none twice and never the goal; every
   * tree edge starts at one of them.
   */
  method DfsSearch(graph: Graph, start: Node, goal: Node) returns (r: Outcome, ghost expanded: seq<Node>)
    requires WellFormed(graph) && start in graph
    ensures r.path == [] <==> r.cost == Infinite
    ensures r.path != [] ==> IsPath(graph, start, goal, r.path)
    ensures ValidEdges(graph, r.edges)
    ensures Distinct(expanded) && |expanded| <= |graph|
    ensures forall k :: 0 <= k < |expanded| ==> expanded[k] in graph && expanded[k] != goal
    ensures forall e :: e in r.edges ==> e.0 in expanded
  {
    var stack: seq<(Node, int)> := [(start, 0)];
    var closed: set<Node> := {};
    var parent: Parents := map[start := None];
    var edges: seq<(Node, Node)> := [];
    ghost var rank: map<Node, nat> := map[start := 0];
    expanded := [];
    while stack != []
      invariant closed <= graph.Keys
      invariant ParentTree(graph, start, closed, parent, rank) && Frontier(stack, parent) && ValidEdges(graph, edges)
      invariant if closed == {} then stack == [(start, 0)] else start in closed
      invariant Distinct(expanded) && forall k :: 0 <= k < |expanded| ==> expanded[k] in closed && expanded[k] != goal
      invariant |expanded| <= |graph| && EdgesFrom(edges, expanded)
      decreases |graph| - |expanded|, |stack|
    {
      var node, cost := stack[|stack| - 1].0, stack[|stack| - 1].1;
      stack := stack[..|stack| - 1];
      if node == goal {
        r := Found(graph, start, goal, closed, parent, rank, edges, cost);
        return r, expanded;
      }
      if node !in closed {
        EdgesFromLonger(edges, expanded, [node]);
        LinksFrom(edges, expanded + [node], node, Fresh(Reverse(SortByName(graph[node])), closed + {node}));
        closed, expanded, stack, parent, edges, rank :=
          ExpandNode(graph, start, goal, node, cost, closed, expanded, stack, parent, edges, rank);
      }
    }
    r := Outcome(edges, [], Infinite);
  }

  /** The filter keeps names distinct. */
  lemma {:induction false} FreshDistinct(items: Adjacency, closed: set<Node>)
    requires DistinctNames(items)
    ensures DistinctNames(Fresh(items, closed))
  {
    if items != [] {
      var n := |items|;
      var rest := Fresh(items[..n - 1], closed);
      FreshDistinct(items[..n - 1], closed);
      if items[n - 1].0 !in closed {
        FreshSelects(items[..n - 1], closed);
        forall i | 0 <= i < |rest| ensures rest[i].0 != items[n - 1].0 {
          assert rest[i] in items[..n - 1];
          var j :| 0 <= j < n - 1 && items[..n - 1][j] == rest[i];
          assert items[j] == rest[i];
        }
      }
    }
  }

  /** With distinct names, the next item's name is not among those already added. */
  lemma NotYetAdded(items: Adjacency, t: nat, closed: set<Node>)
    requires DistinctNames(items) && t < |items|
    ensures items[t].0 !in Names(Fresh(items[..t], closed))
  {
    var added := Fresh(items[..t], closed);
    FreshSelects(items[..t], closed);
    forall i | 0 <= i < |added| ensures Names(added)[i] != items[t].0 {
      assert added[i] in items[..t];
      var j :| 0 <= j < t && items[..t][j] == added[i];
      assert items[j] == added[i];
    }
  }

  /** One enqueued neighbour extends each record of the breadth-first loop. */
  lemma RecordsStep(items: Adjacency, t: nat, closed: set<Node>, node: Node, cost: int,
                    queue: seq<(Node, int)>, edges: seq<(Node, Node)>, parent: Parents, order: seq<Node>,
                    queue': seq<(Node, int)>, edges': seq<(Node, Node)>, parent': Parents, order': seq<Node>)
    requires t < |items| && items[t].0 !in closed
    requires queue' == queue + Pushes(Fresh(items[..t], closed), cost)
    requires edges' == edges + Links(node, Fresh(items[..t], closed))
    requires parent' == Attach(parent, node, Fresh(items[..t], closed))
    requires order' == order + Names(Fresh(items[..t], closed))
    ensures queue' + [(items[t].0, cost + items[t].1)] == queue + Pushes(Fresh(items[..t + 1], closed), cost)
    ensures edges' + [(node, items[t].0)] == edges + Links(node, Fresh(items[..t + 1], closed))
    ensures parent'[items[t].0 := Some(node)] == Attach(parent, node, Fresh(items[..t + 1], closed))
    ensures order' + [items[t].0] == order + Names(Fresh(items[..t + 1], closed))
  {
    AddedStep(items, t, closed, node, cost, parent);
    AppendAssoc(queue, Pushes(Fresh(items[..t], closed), cost), (items[t].0, cost + items[t].1));
    AppendAssoc(edges, Links(node, Fresh(items[..t], closed)), (node, items[t].0));
    AppendAssoc(order, Names(Fresh(items[..t], closed)), items[t].0);
  }

  /** Closing the names added so far never closes the next item's name. */
  lemma StillOpen(items: Adjacency, t: nat, parent: Parents, node: Node, closed': set<Node>)
    requires DistinctNames(items) && t < |items|
    requires closed' == Attach(parent, node, Fresh(items[..t], parent.Keys)).Keys
    ensures items[t].0 in closed' <==> items[t].0 in parent
  {
    NotYetAdded(items, t, parent.Keys);
    AttachMember(parent, node, Fresh(items[..t], parent.Keys), items[t].0);
  }

  /** Logging the newly enqueued names keeps the log free of repeats and inside the closed set. */
  lemma OrderExtends(order: seq<Node>, parent: Parents, node: Node, items: Adjacency)
    requires Distinct(order) && forall k :: 0 <= k < |order| ==> order[k] in parent
    requires DistinctNames(items)
    ensures var added := Fresh(items, parent.Keys);
      Distinct(order + Names(added)) &&
      forall k :: 0 <= k < |order + Names(added)| ==> (order + Names(added))[k] in Attach(parent, node, added)
  {
    var added := Fresh(items, parent.Keys);
    FreshSelects(items, parent.Keys);
    FreshDistinct(items, parent.Keys);
    AttachSets(parent, node, added);
    var log := order + Names(added);
    forall a, b | 0 <= a < b < |log| ensures log[a] != log[b] {
      if b >= |order| && a < |order| {
        assert added[b - |order|] in added;
      }
    }
    forall k | 0 <= k < |log| ensures log[k] in Attach(parent, node, added) {
      if k >= |order| {
        assert log[k] == Names(added)[k - |order|];
      }
    }
  }

  // ---------------------------------------------------------------------------
  // `bfs_search`
  // ---------------------------------------------------------------------------

  /**
   * The neighbour loop of `bfs_search`: every neighbour not yet closed, in
   * sorted order, is closed, gets `node` as its parent, a tree edge and a
   * queue entry with the popped cost plus the edge weight. `order` logs the
   * enqueued nodes.
   */
  method EnqueueNeighbours(graph: Graph, start: Node, closed: set<Node>, node: Node, cost: int,
                           queue: seq<(Node, int)>, parent: Parents, edges: seq<(Node, Node)>,
                           ghost rank: map<Node, nat>, ghost order: seq<Node>)
    returns (closed': set<Node>, queue': seq<(Node, int)>, parent': Parents, edges': seq<(Node, Node)>,
             ghost rank': map<Node, nat>, ghost order': seq<Node>)
    requires WellFormed(graph) && closed == parent.Keys && node in parent
    requires ParentTree(graph, start, closed, parent, rank) && ValidEdges(graph, edges)
    requires Distinct(order) && forall k :: 0 <= k < |order| ==> order[k] in closed
    ensures queue' == queue + Pushes(Fresh(SortByName(graph[node]), closed), cost)
    ensures edges' == edges + Links(node, Fresh(SortByName(graph[node]), closed))
    ensures parent' == Attach(parent, node, Fresh(SortByName(graph[node]), closed))
    ensures order' == order + Names(Fresh(SortByName(graph[node]), closed))
    ensures closed' == parent'.Keys
    ensures ParentTree(graph, start, closed', parent', rank') && ValidEdges(graph, edges')
    ensures Distinct(order') && forall k :: 0 <= k < |order'| ==> order'[k] in closed'
  {
    var items := SortByName(graph[node]);
    SortedItems(graph, node, items);
    closed', queue', parent', edges', rank', order' := EnqueueEach(graph, start, closed, node, cost, items, queue, parent, edges, rank, order);
    FreshEdges(graph, node, items, closed);
    LinksValid(graph, edges, node, Fresh(items, closed));
  }

  /** The loop itself, over the items in the order given; their names are distinct. */
  method EnqueueEach(graph: Graph, start: Node, closed: set<Node>, node: Node, cost: int, items: Adjacency,
                     queue: seq<(Node, int)>, parent: Parents, edges: seq<(Node, Node)>,
                     ghost rank: map<Node, nat>, ghost order: seq<Node>)
    returns (closed': set<Node>, queue': seq<(Node, int)>, parent': Parents, edges': seq<(Node, Node)>,
             ghost rank': map<Node, nat>, ghost order': seq<Node>)
    requires closed == parent.Keys && node in parent && ParentTree(graph, start, closed, parent, rank)
    requires Distinct(order) && forall k :: 0 <= k < |order| ==> order[k] in closed
    requires DistinctNames(items) && forall t :: 0 <= t < |items| ==> items[t].0 in graph && Edge(graph, node, items[t].0)
    ensures queue' == queue + Pushes(Fresh(items, closed), cost)
    ensures edges' == edges + Links(node, Fresh(items, closed))
    ensures parent' == Attach(parent, node, Fresh(items, closed))
    ensures order' == order + Names(Fresh(items, closed))
    ensures closed' == parent'.Keys
    ensures ParentTree(graph, start, closed', parent', rank')
    ensures Distinct(order') && forall k :: 0 <= k < |order'| ==> order'[k] in closed'
  {
    closed', queue', parent', edges', rank', order' := closed, queue, parent, edges, rank, order;
    for t := 0 to |items|
      invariant queue' == queue + Pushes(Fresh(items[..t], closed), cost)
      invariant edges' == edges + Links(node, Fresh(items[..t], closed))
      invariant parent' == Attach(parent, node, Fresh(items[..t], closed))
      invariant order' == order + Names(Fresh(items[..t], closed))
      invariant closed' == parent'.Keys
      invariant node in parent' && ParentTree(graph, start, closed', parent', rank')
    {
      if items[t].0 in closed' {
        SkipStep(items, t, parent, node, closed');
      } else {
        StillOpen(items, t, parent, node, closed');
        AttachKeepsTree(graph, start, closed', closed' + {items[t].0}, parent', rank', node, items[t].0);
        rank' := rank'[items[t].0 := rank'[node] + 1];
        closed', queue', parent', edges', order' :=
          EnqueueAdd(closed, node, cost, items, t, queue, parent, edges, order, closed', queue', parent', edges', order');
      }
    }
    assert items[..|items|] == items;
    OrderExtends(order, parent, node, items);
  }

  /** A neighbour that is already closed leaves every record of the loop as it was. */
  lemma SkipStep(items: Adjacency, t: nat, parent: Parents, node: Node, closed': set<Node>)
    requires DistinctNames(items) && t < |items|
    requires closed' == Attach(parent, node, Fresh(items[..t], parent.Keys)).Keys && items[t].0 in closed'
    ensures Fresh(items[..t + 1], parent.Keys) == Fresh(items[..t], parent.Keys)
  {
    FreshStep(items, t, parent.Keys);
    StillOpen(items, t, parent, node, closed');
  }

  /** The loop body for a neighbour not yet closed: it is closed, attached, logged and enqueued. */
  method EnqueueAdd(closed: set<Node>, node: Node, cost: int, items: Adjacency, t: nat,
                    queue: seq<(Node, int)>, parent: Parents, edges: seq<(Node, Node)>, ghost order: seq<Node>,
                    closed': set<Node>, queue': seq<(Node, int)>, parent': Parents, edges': seq<(Node, Node)>,
                    ghost order': seq<Node>)
    returns (closed'': set<Node>, queue'': seq<(Node, int)>, parent'': Parents, edges'': seq<(Node, Node)>,
             ghost order'': seq<Node>)
    requires closed == parent.Keys && t < |items| && items[t].0 !in closed
    requires queue' == queue + Pushes(Fresh(items[..t], closed), cost)
    requires edges' == edges + Links(node, Fresh(items[..t], closed))
    requires parent' == Attach(parent, node, Fresh(items[..t], closed))
    requires order' == order + Names(Fresh(items[..t], closed))
    requires closed' == parent'.Keys
    ensures queue'' == queue + Pushes(Fresh(items[..t + 1], closed), cost)
    ensures edges'' == edges + Links(node, Fresh(items[..t + 1], closed))
    ensures parent'' == Attach(parent, node, Fresh(items[..t + 1], closed))
    ensures order'' == order + Names(Fresh(items[..t + 1], closed))
    ensures closed'' == parent''.Keys == closed' + {items[t].0} && parent'' == parent'[items[t].0 := Some(node)]
  {
    var nbr, w := items[t].0, items[t].1;
    RecordsStep(items, t, closed, node, cost, queue, edges, parent, order, queue', edges', parent', order');
    closed'' := closed' + {nbr};
    parent'' := parent'[nbr := Some(node)];
    edges'' := edges' + [(node, nbr)];
    queue'' := queue' + [(nbr, cost + w)];
    order'' := order' + [nbr];
  }

  /** The queue holds the logged nodes not yet dequeued, in order. */
  predicate QueueFollowsLog(queue: seq<(Node, int)>, order: seq<Node>, dequeues: nat)
  {
    dequeues + |queue| == |order| && forall p :: 0 <= p < |queue| ==> queue[p].0 == order[dequeues + p]
  }

  /** Enqueueing the added items at the back of the queue and of the log keeps the two in step. */
  lemma QueueKeepsStep(queue: seq<(Node, int)>, order: seq<Node>, dequeues: nat, added: Adjacency, cost: int)
    requires QueueFollowsLog(queue, order, dequeues)
    ensures QueueFollowsLog(queue + Pushes(added, cost), order + Names(added), dequeues)
  {
    var q, o := queue + Pushes(added, cost), order + Names(added);
    PushesNames(added, cost);
    forall p | 0 <= p < |q| ensures q[p].0 == o[dequeues + p] {
      if p >= |queue| {
        assert q[p] == Pushes(added, cost)[p - |queue|];
        assert o[dequeues + p] == Names(added)[p - |queue|];
      }
    }
  }

  /** Each frontier entry pushed for an item carries that item's name. */
  lemma {:induction false} PushesNames(added: Adjacency, cost: int)
    ensures forall i :: 0 <= i < |added| ==> Pushes(added, cost)[i].0 == added[i].0
  {
    if added != [] {
      var prev := added[..|added| - 1];
      PushesNames(prev, cost);
      assert forall i :: 0 <= i < |prev| ==> Pushes(added, cost)[i] == Pushes(prev, cost)[i];
    }
  }

  /** Dequeueing the front entry: it is the next logged node, and the rest of the queue follows the log. */
  lemma Dequeued(queue: seq<(Node, int)>, order: seq<Node>, dequeues: nat, closed: set<Node>)
    requires queue != [] && QueueFollowsLog(queue, order, dequeues)
    requires forall k :: 0 <= k < |order| ==> order[k] in closed
    ensures queue[0].0 == order[dequeues] && queue[0].0 in closed
    ensures QueueFollowsLog(queue[1..], order, dequeues + 1)
  {
  }

  /** Edges that start in a prefix of the log start in any longer prefix. */
  lemma EdgesFromPrefix(edges: seq<(Node, Node)>, log: seq<Node>, i: nat, j: nat)
    requires i <= j <= |log| && EdgesFrom(edges, log[..i])
    ensures forall e :: e in edges ==> e.0 in log[..j]
  {
    forall e | e in edges ensures e.0 in log[..j] {
      var k :| 0 <= k < |edges| && edges[k] == e;
      assert log[..i] <= log[..j];
    }
  }

  /** The edges drawn for the node just dequeued start at that node, so every edge still starts at a dequeued node. */
  lemma EnqueuedEdges(edges: seq<(Node, Node)>, order: seq<Node>, dequeues: nat, node: Node, added: Adjacency, order': seq<Node>)
    requires 0 < dequeues <= |order| && order[dequeues - 1] == node
    requires EdgesFrom(edges, order[..dequeues - 1])
    requires order' == order + Names(added)
    ensures EdgesFrom(edges + Links(node, added), order'[..dequeues])
  {
    assert order'[..dequeues] == order[..dequeues - 1] + [node];
    EdgesFromLonger(edges, order[..dequeues - 1], [node]);
    LinksFrom(edges, order'[..dequeues], node, added);
  }

  /**
   * `bfs_search(graph, start, goal)`: `start` is closed before the first
   * pop; the first time `goal` is dequeued, the tree edges drawn so far,
   * the path back through the parent links and the dequeued cost;
   * `(edges, [], inf)` once the queue is empty. `order` lists the nodes in
   * the order they were enqueued, starting with `start`: none twice, so
   * there are at most as many dequeues as nodes; every tree edge starts at
   * a node already dequeued.
   */
  method BfsSearch(graph: Graph, start: Node, goal: Node) returns (r: Outcome, ghost order: seq<Node>, ghost dequeues: nat)
    requires WellFormed(graph) && start in graph
    ensures r.path == [] <==> r.cost == Infinite
    ensures r.path != [] ==> IsPath(graph, start, goal, r.path)
    ensures ValidEdges(graph, r.edges)
    ensures |order| > 0 && order[0] == start && Distinct(order) && |order| <= |graph|
    ensures forall k :: 0 <= k < |order| ==> order[k] in graph
    ensures dequeues <= |order|
    ensures forall e :: e in r.edges ==> e.0 in order[..dequeues]
  {
    var queue: seq<(Node, int)> := [(start, 0)];
    var closed: set<Node> := {start};
    var parent: Parents := map[start := None];
    var edges: seq<(Node, Node)> := [];
    ghost var rank: map<Node, nat> := map[start := 0];
    order, dequeues := [start], 0;
    while queue != []
      invariant closed == parent.Keys && ParentTree(graph, start, closed, parent, rank) && ValidEdges(graph, edges)
      invariant |order| > 0 && order[0] == start && Distinct(order) && forall k :: 0 <= k < |order| ==> order[k] in closed
      invariant |order| <= |graph| && QueueFollowsLog(queue, order, dequeues)
      invariant EdgesFrom(edges, order[..dequeues])
      decreases |graph| - dequeues
    {
      var node, cost := queue[0].0, queue[0].1;
      Dequeued(queue, order, dequeues, closed);
      queue := queue[1..];
      dequeues := dequeues + 1;
      if node == goal {
        r := Found(graph, start, goal, closed, parent, rank, edges, cost);
        EdgesFromPrefix(edges, order, dequeues - 1, dequeues);
        return r, order, dequeues;
      }
      ghost var added := Fresh(SortByName(graph[node]), closed);
      ghost var edges0, order0 := edges, order;
      QueueKeepsStep(queue, order, dequeues, added, cost);
      closed, queue, parent, edges, rank, order := EnqueueNeighbours(graph, start, closed, node, cost, queue, parent, edges, rank, order);
      EnqueuedEdges(edges0, order0, dequeues, node, added, order);
      DistinctWithin(order, graph.Keys);
    }
    EdgesFromPrefix(edges, order, dequeues, dequeues);
    r := Outcome(edges, [], Infinite);
  }
}
