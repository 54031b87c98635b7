/** Three-colour depth-first search for dependency cycles. */
module CycleFinder {
  import opened Sequences
  import opened Graphs

  datatype Color = White | Gray | Black

  /** The edge from `a` to `b` closes one of the cycles: the search met `b` again from `a`. */
  ghost predicate Closes(cycles: seq<seq<Name>>, a: Name, b: Name) {
    exists c :: c in cycles && |c| >= 2 && c[|c| - 2] == a && c[|c| - 1] == b
  }

  /** Every dependency of a listed name is listed strictly before it, unless the edge closes a cycle. */
  ghost predicate ListedBut(g: Graph, cycles: seq<seq<Name>>, s: seq<Name>) {
    forall i :: 0 <= i < |s| ==> SettledAt(g, cycles, s, i)
  }

  ghost predicate SettledAt(g: Graph, cycles: seq<seq<Name>>, s: seq<Name>, i: nat)
    requires i < |s|
  {
    Settled(g, cycles, s[i], s[..i])
  }

  /** All dependencies of the name are among `done`, apart from those whose edge closes a cycle. */
  ghost predicate Settled(g: Graph, cycles: seq<seq<Name>>, n: Name, done: seq<Name>) {
    AllSettled(cycles, n, g.Get(n), done)
  }

  ghost predicate AllSettled(cycles: seq<seq<Name>>, n: Name, deps: seq<Name>, done: seq<Name>) {
    forall d :: d in deps ==> d in done || Closes(cycles, n, d)
  }

  lemma OneMoreSettled(cycles: seq<seq<Name>>, more: seq<seq<Name>>, n: Name, deps: seq<Name>, d: Name,
                       done: seq<Name>, moreDone: seq<Name>)
    requires AllSettled(cycles, n, deps, done) && cycles <= more && forall x :: x in done ==> x in moreDone
    requires d in moreDone || Closes(more, n, d)
    ensures AllSettled(more, n, deps + [d], moreDone)
  {
    forall x | x in deps && x !in moreDone ensures Closes(more, n, x) {
      ClosesMore(cycles, more, n, x);
    }
  }

  lemma ClosesMore(cycles: seq<seq<Name>>, more: seq<seq<Name>>, a: Name, b: Name)
    requires cycles <= more && Closes(cycles, a, b)
    ensures Closes(more, a, b)
  {
    var c :| c in cycles && |c| >= 2 && c[|c| - 2] == a && c[|c| - 1] == b;
    assert c in more;
  }

  lemma ListedButMore(g: Graph, cycles: seq<seq<Name>>, more: seq<seq<Name>>, s: seq<Name>)
    requires cycles <= more && ListedBut(g, cycles, s)
    ensures ListedBut(g, more, s)
  {
    forall i | 0 <= i < |s| ensures SettledAt(g, more, s, i) {
      assert SettledAt(g, cycles, s, i);
      forall d | d in g.Get(s[i]) && d !in s[..i] ensures Closes(more, s[i], d) {
        ClosesMore(cycles, more, s[i], d);
      }
    }
  }

  lemma ListedButExtend(g: Graph, cycles: seq<seq<Name>>, s: seq<Name>, n: Name)
    requires ListedBut(g, cycles, s) && Settled(g, cycles, n, s)
    ensures ListedBut(g, cycles, s + [n])
  {
    var more := s + [n];
    forall i | 0 <= i < |more| ensures SettledAt(g, cycles, more, i) {
      if i < |s| {
        assert SettledAt(g, cycles, s, i) && more[..i] == s[..i];
      } else {
        assert more[..i] == s;
      }
    }
  }

  ghost function Unclosed(cycles: seq<seq<Name>>, n: Name, deps: seq<Name>): (r: seq<Name>)
    ensures forall d :: d in r <==> d in deps && !Closes(cycles, n, d)
  {
    if deps == [] then []
    else (if Closes(cycles, n, deps[0]) then [] else [deps[0]]) + Unclosed(cycles, n, deps[1..])
  }

  /** The graph without the edges that close the cycles. */
  ghost function Pruned(g: Graph, cycles: seq<seq<Name>>): Graph {
    Graph(g.keys, map n | n in g.deps :: Unclosed(cycles, n, g.deps[n]))
  }

  /** A listing of all keys shows that without the closing edges nothing depends on itself. */
  lemma ListedPrunedAcyclic(g: Graph, cycles: seq<seq<Name>>, s: seq<Name>)
    requires ListedBut(g, cycles, s) && Distinct(s) && forall n :: n in g.deps ==> n in s
    ensures Acyclic(Pruned(g, cycles))
  {
    var pruned := Pruned(g, cycles);
    forall i | 0 <= i < |s| ensures ListedAt(pruned, s, i) {
      assert SettledAt(g, cycles, s, i);
    }
    forall n ensures !Depends(pruned, n, n) {
      if Depends(pruned, n, n) {
        CyclicIsKey(pruned, n);
        ListedAcyclic(pruned, s, n);
      }
    }
  }

  /**
   * The invariant of the search. The gray names are exactly the path, in order and without repeats;
   * `finished` lists the black names in the order they turned black; every mentioned name that is
   * neither is in `uncoloured`.
   */
  ghost predicate SearchState(g: Graph, color: map<Name, Color>, path: seq<Name>, cycles: seq<seq<Name>>,
                              finished: seq<Name>, uncoloured: set<Name>)
  {
    && g.deps.Keys <= color.Keys
    && (forall n :: n in path <==> n in color && color[n] == Gray)
    && (forall n :: n in finished <==> n in color && color[n] == Black)
    && (forall n :: n in AllNames(g) ==> n in uncoloured || n in path || n in finished)
    && (forall n :: n in color && color[n] == White ==> n in uncoloured)
    && Distinct(path) && Distinct(finished)
    && (path != [] ==> IsWalk(g, path))
    && (forall c :: c in cycles ==> IsSimpleCycle(g, c))
    && ListedBut(g, cycles, finished)
  }

  lemma EnterKeepsState(g: Graph, color: map<Name, Color>, path: seq<Name>, cycles: seq<seq<Name>>,
                        finished: seq<Name>, uncoloured: set<Name>, node: Name)
    requires SearchState(g, color, path, cycles, finished, uncoloured)
    requires node in color && color[node] == White
    requires path != [] ==> Edge(g, path[|path| - 1], node)
    ensures SearchState(g, color[node := Gray], path + [node], cycles, finished, uncoloured - {node})
  {
    DistinctExtend(path, node);
    if path != [] {
      WalkExtend(g, path, node);
    }
  }

  lemma LeaveKeepsState(g: Graph, color: map<Name, Color>, path: seq<Name>, cycles: seq<seq<Name>>,
                        finished: seq<Name>, uncoloured: set<Name>, node: Name)
    requires SearchState(g, color, path + [node], cycles, finished, uncoloured)
    requires Settled(g, cycles, node, finished)
    ensures SearchState(g, color[node := Black], path, cycles, finished + [node], uncoloured)
  {
    assert (path + [node])[|path|] == node;
    forall i | 0 <= i < |path| ensures path[i] != node {
      assert (path + [node])[i] == path[i];
    }
    assert forall n :: n in path + [node] <==> n in path || n == node;
    assert Distinct(path) by {
      forall i, j | 0 <= i < j < |path| ensures path[i] != path[j] {
        assert (path + [node])[i] != (path + [node])[j];
      }
    }
    DistinctExtend(finished, node);
    if path != [] {
      PrefixWalk(g, path, node);
    }
    ListedButExtend(g, cycles, finished, node);
  }

  lemma ReportKeepsState(g: Graph, color: map<Name, Color>, path: seq<Name>, cycles: seq<seq<Name>>,
                         finished: seq<Name>, uncoloured: set<Name>, start: nat, n: Name)
    requires SearchState(g, color, path, cycles, finished, uncoloured)
    requires start < |path| && path[start] == n && Edge(g, path[|path| - 1], n)
    ensures SearchState(g, color, path, cycles + [path[start..] + [n]], finished, uncoloured)
    ensures Closes(cycles + [path[start..] + [n]], path[|path| - 1], n)
  {
    var c := path[start..] + [n];
    assert c in cycles + [c] && c[|c| - 2] == path[|path| - 1] && c[|c| - 1] == n;
    ListedButMore(g, cycles, cycles + [c], finished);
    ClosingTheWalk(g, path, start, n);
  }

  /**
   * The variables that the recursive search shares with its caller: the colour map, which grows when the
   * search meets a name that is not a key, the current path, and the cycles found so far.
   */
  class Search {
    const g: Graph
    var color: map<Name, Color>
    var path: seq<Name>
    var cycles: seq<seq<Name>>
    ghost var finished: seq<Name>
    ghost var uncoloured: set<Name>

    ghost predicate Valid()
      reads this
    {
      SearchState(g, color, path, cycles, finished, uncoloured)
    }

    constructor (g: Graph)
      requires g.Valid()
      ensures this.g == g && Valid() && path == [] && cycles == [] && finished == []
    {
      this.g := g;
      color := map n | n in g.deps :: White;
      path, cycles, finished := [], [], [];
      uncoloured := AllNames(g);
    }

    /** Visits a white name that is a root or a dependency of the last name on the path. */
    method Dfs(node: Name)
      requires Valid() && node in color && color[node] == White
      requires path != [] ==> Edge(g, path[|path| - 1], node)
      modifies this
      ensures Valid() && path == old(path) && node in finished
      ensures (forall n :: n in old(finished) ==> n in finished) && old(cycles) <= cycles
      ensures uncoloured <= old(uncoloured)
      decreases uncoloured, 0
    {
      assert node in uncoloured;
      EnterKeepsState(g, color, path, cycles, finished, uncoloured, node);
      color := color[node := Gray];
      path := path + [node];
      uncoloured := uncoloured - {node};
      MeetAll(g.Get(node), node);
      Leave(old(path), node);
    }

    /** Takes the visited name off the path and paints it black. */
    method Leave(ghost before: seq<Name>, node: Name)
      requires Valid() && path == before + [node]
      requires Settled(g, cycles, node, finished)
      modifies this
      ensures Valid() && path == before && finished == old(finished) + [node]
      ensures cycles == old(cycles) && uncoloured == old(uncoloured)
    {
      LeaveKeepsState(g, color, before, cycles, finished, uncoloured, node);
      assert path[..|path| - 1] == before;
      path := path[..|path| - 1];
      color := color[node := Black];
      finished := finished + [node];
    }

    /** The loop over the dependencies of the last name on the path. */
    method MeetAll(neighbors: seq<Name>, node: Name)
      requires Valid() && path != [] && path[|path| - 1] == node && neighbors == g.Get(node)
      modifies this
      ensures Valid() && path == old(path)
      ensures (forall n :: n in old(finished) ==> n in finished) && old(cycles) <= cycles
      ensures uncoloured <= old(uncoloured)
      ensures Settled(g, cycles, node, finished)
      decreases uncoloured, 2
    {
      for i := 0 to |neighbors|
        invariant Valid() && path == old(path)
        invariant (forall n :: n in old(finished) ==> n in finished) && old(cycles) <= cycles
        invariant uncoloured <= old(uncoloured)
        invariant AllSettled(cycles, node, neighbors[..i], finished)
      {
        assert neighbors[..i + 1] == neighbors[..i] + [neighbors[i]];
        ghost var cyclesBefore, finishedBefore := cycles, finished;
        Meet(neighbors[i]);
        OneMoreSettled(cyclesBefore, cycles, node, neighbors[..i], neighbors[i], finishedBefore, finished);
      }
      assert neighbors[..|neighbors|] == neighbors;
    }

    /** One round of the loop over the dependencies of the last name on the path. */
    method Meet(neighbor: Name)
      requires Valid() && path != [] && Edge(g, path[|path| - 1], neighbor)
      modifies this
      ensures Valid() && path == old(path)
      ensures (forall n :: n in old(finished) ==> n in finished) && old(cycles) <= cycles
      ensures uncoloured <= old(uncoloured)
      ensures neighbor in finished || Closes(cycles, path[|path| - 1], neighbor)
      decreases uncoloured, 1
    {
      if neighbor !in color {
        assert neighbor in AllNames(g);
        color := color[neighbor := White];
      }
      if color[neighbor] == Gray {
        var start := IndexOf(path, neighbor);
        ReportKeepsState(g, color, path, cycles, finished, uncoloured, start, neighbor);
        cycles := cycles + [path[start..] + [neighbor]];
      } else if color[neighbor] == White {
        Dfs(neighbor);
      }
    }
  }

  lemma PrefixWalk(g: Graph, p: seq<Name>, n: Name)
    requires IsWalk(g, p + [n]) && p != []
    ensures IsWalk(g, p)
  {
    var q := p + [n];
    forall i | 0 <= i < |p| - 1 ensures LinkAt(g, p, i) {
      assert LinkAt(g, q, i);
    }
  }

  lemma ClosingTheWalk(g: Graph, p: seq<Name>, start: nat, n: Name)
    requires IsWalk(g, p) && Distinct(p) && start < |p| && p[start] == n
    requires Edge(g, p[|p| - 1], n)
    ensures IsSimpleCycle(g, p[start..] + [n])
  {
    var tail := p[start..];
    forall i | 0 <= i < |tail| - 1 ensures LinkAt(g, tail, i) {
      assert LinkAt(g, p, start + i);
    }
    WalkExtend(g, tail, n);
    assert (tail + [n])[..|tail|] == tail;
  }

  /** Position of the first occurrence. */
  method IndexOf(s: seq<Name>, x: Name) returns (i: nat)
    requires x in s
    ensures i < |s| && s[i] == x && x !in s[..i]
  {
    i := 0;
    while s[i] != x
      invariant i < |s| && x !in s[..i]
      decreases |s| - i
    {
      i := i + 1;
      assert x in s[..i] || x in s[i..];
    }
  }

  /**
   * Every reported cycle is a real simple cycle. The report is complete: every closed walk of the graph
   * contains the closing edge of some reported cycle, so without these edges the graph is acyclic. In
   * particular nothing is reported exactly when no name depends on itself, whatever the graph.
   */
  method DetectCycles(g: Graph) returns (cycles: seq<seq<Name>>)
    requires g.Valid()
    ensures forall c :: c in cycles ==> IsSimpleCycle(g, c)
    ensures Acyclic(Pruned(g, cycles))
    ensures cycles == [] <==> Acyclic(g)
  {
    var search := new Search(g);
    for i := 0 to |g.keys|
      invariant search.Valid() && search.g == g && search.path == [] && fresh(search)
      invariant forall k :: 0 <= k < i ==> g.keys[k] in search.finished
    {
      if search.color[g.keys[i]] == White {
        search.Dfs(g.keys[i]);
      }
    }
    cycles := search.cycles;
    ListedPrunedAcyclic(g, cycles, search.finished);
    if cycles == [] {
      forall n ensures !Depends(g, n, n) {
        if Depends(g, n, n) {
          var w :| IsPath(g, w, n, n);
          ClosedWalkMeetsReport(g, cycles, w);
        }
      }
    } else {
      SimpleCycleDepends(g, cycles[0]);
    }
  }

  /** Every closed walk contains the closing edge of a reported cycle. */
  lemma ClosedWalkMeetsReport(g: Graph, cycles: seq<seq<Name>>, w: seq<Name>)
    requires Acyclic(Pruned(g, cycles))
    requires IsWalk(g, w) && |w| >= 2 && w[0] == w[|w| - 1]
    ensures exists i :: 0 <= i < |w| - 1 && Closes(cycles, w[i], w[i + 1])
  {
    if forall i :: 0 <= i < |w| - 1 ==> !Closes(cycles, w[i], w[i + 1]) {
      forall i | 0 <= i < |w| - 1 ensures LinkAt(Pruned(g, cycles), w, i) {
        assert LinkAt(g, w, i);
      }
      assert IsPath(Pruned(g, cycles), w, w[0], w[0]);
      assert Depends(Pruned(g, cycles), w[0], w[0]);
    }
  }

  lemma SimpleCycleDepends(g: Graph, c: seq<Name>)
    requires IsSimpleCycle(g, c)
    ensures Depends(g, c[0], c[0])
  {
    WalkPieceDepends(g, c, 0, |c| - 1);
  }
}
