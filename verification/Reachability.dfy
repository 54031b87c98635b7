/** The worklist test for transitive dependency. */
module Reachability {
  import opened Graphs

  /** Decides dependency on every graph, cyclic ones and ones that mention unknown names included. */
  method DependsTransitively(g: Graph, packetId: Name, dependencyId: Name) returns (found: bool)
    ensures found <==> Depends(g, packetId, dependencyId)
  {
    var pending := g.Get(packetId);
    var visited: set<Name> := {};
    assert forall n :: n in pending ==> Edge(g, packetId, n);
    forall n | n in pending ensures Depends(g, packetId, n) {
      EdgeDepends(g, packetId, n);
    }
    while pending != []
      invariant forall n :: n in pending ==> Depends(g, packetId, n)
      invariant forall n :: n in visited ==> Depends(g, packetId, n)
      invariant forall n :: n in pending ==> n in AllNames(g)
      invariant visited <= AllNames(g) && dependencyId !in visited
      invariant forall d :: d in g.Get(packetId) ==> d in visited || d in pending
      invariant forall n, d :: n in visited && d in g.Get(n) ==> d in visited || d in pending
      decreases AllNames(g) - visited, |pending|
    {
      var current := pending[|pending| - 1];
      var rest := pending[..|pending| - 1];
      assert pending == rest + [current];
      if current == dependencyId {
        return true;
      }
      if current in visited {
        pending := rest;
        continue;
      }
      visited := visited + {current};
      forall n | n in g.Get(current) ensures Depends(g, packetId, n) {
        EdgeDepends(g, current, n);
        DependsTransitive(g, packetId, current, n);
      }
      pending := rest + g.Get(current);
    }
    if Depends(g, packetId, dependencyId) {
      ClosedSetHoldsDependencies(g, packetId, dependencyId, visited);
    }
    return false;
  }
}
