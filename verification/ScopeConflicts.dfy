/** Overlapping write scopes of packets that may run unordered. */
module ScopeConflicts {
  import opened Sequences
  import opened Graphs
  import opened Reachability
  import opened Sorting
  import Text

  datatype Conflict = Conflict(packetA: Name, packetB: Name, files: seq<string>)

  predicate Significant(file: string) {
    !Text.EndsWith(file, "__init__.py")
  }

  /** Two packets claim a file that is not a package marker. */
  ghost predicate SharesFile(scopeA: seq<string>, scopeB: seq<string>) {
    exists f :: f in scopeA && f in scopeB && Significant(f)
  }

  /** The shared significant files, each once. */
  function Shared(scopeA: seq<string>, scopeB: seq<string>): seq<string> {
    if scopeA == [] then []
    else
      var rest := Shared(scopeA[1..], scopeB);
      if scopeA[0] in scopeB && Significant(scopeA[0]) && scopeA[0] !in rest then [scopeA[0]] + rest else rest
  }

  function Overlap(scopeA: seq<string>, scopeB: seq<string>): seq<string> {
    SortNames(Shared(scopeA, scopeB))
  }

  lemma {:induction false} SharedExactly(scopeA: seq<string>, scopeB: seq<string>)
    ensures forall f :: f in Shared(scopeA, scopeB) <==> f in scopeA && f in scopeB && Significant(f)
    ensures Distinct(Shared(scopeA, scopeB))
  {
    if scopeA != [] {
      SharedExactly(scopeA[1..], scopeB);
      assert scopeA == [scopeA[0]] + scopeA[1..];
    }
  }

  /** The reported file list is sorted, repeats nothing, and holds exactly the shared significant files. */
  lemma OverlapExactly(scopeA: seq<string>, scopeB: seq<string>)
    ensures forall f :: f in Overlap(scopeA, scopeB) <==> f in scopeA && f in scopeB && Significant(f)
    ensures Sorted(Overlap(scopeA, scopeB)) && Distinct(Overlap(scopeA, scopeB))
    ensures Overlap(scopeA, scopeB) != [] <==> SharesFile(scopeA, scopeB)
  {
    var shared := Shared(scopeA, scopeB);
    SharedExactly(scopeA, scopeB);
    SortNamesSorts(shared);
    PermutationElements(SortNames(shared), shared);
    PermutationDistinct(SortNames(shared), shared);
    if Overlap(scopeA, scopeB) != [] {
      assert Overlap(scopeA, scopeB)[0] in Overlap(scopeA, scopeB);
    }
  }

  /** One packet depends on the other, so they never run at the same time. */
  ghost predicate Ordered(graph: Option<Graph>, a: Name, b: Name) {
    graph.Some? && (Depends(graph.value, a, b) || Depends(graph.value, b, a))
  }

  /** `c` reports the packets at positions `i` and `j`. */
  ghost predicate ConflictAt(ids: seq<Name>, scopes: map<Name, seq<string>>, graph: Option<Graph>, i: nat, j: nat,
                             c: Conflict)
    requires forall n :: n in ids ==> n in scopes
  {
    && i < j < |ids|
    && c == Conflict(ids[i], ids[j], Overlap(scopes[ids[i]], scopes[ids[j]]))
    && SharesFile(scopes[ids[i]], scopes[ids[j]])
    && !Ordered(graph, ids[i], ids[j])
  }

  /** The pair comes before `(i, j)` in the order of the nested loops. */
  ghost predicate Earlier(i': nat, j': nat, i: nat, j: nat) {
    i' < i || (i' == i && j' < j)
  }

  ghost predicate IsPair(ids: seq<Name>, i: nat, j: nat, c: Conflict) {
    i < j < |ids| && c.packetA == ids[i] && c.packetB == ids[j]
  }

  ghost predicate PairsBefore(ids: seq<Name>, c: Conflict, d: Conflict) {
    exists i, j, i', j' :: IsPair(ids, i, j, c) && IsPair(ids, i', j', d) && Earlier(i, j, i', j')
  }

  /** The conflicts stand in the order of the pairs. */
  ghost predicate InPairOrder(ids: seq<Name>, conflicts: seq<Conflict>) {
    forall k, l :: 0 <= k < l < |conflicts| ==> PairsBefore(ids, conflicts[k], conflicts[l])
  }

  ghost predicate Collected(ids: seq<Name>, scopes: map<Name, seq<string>>, graph: Option<Graph>, i: nat, j: nat,
                            conflicts: seq<Conflict>)
    requires forall n :: n in ids ==> n in scopes
  {
    && Distinct(conflicts) && InPairOrder(ids, conflicts)
    && (forall c :: c in conflicts ==>
          exists i', j' :: Earlier(i', j', i, j) && ConflictAt(ids, scopes, graph, i', j', c))
    && (forall i', j', c :: Earlier(i', j', i, j) && ConflictAt(ids, scopes, graph, i', j', c) ==> c in conflicts)
  }

  lemma CollectOne(ids: seq<Name>, scopes: map<Name, seq<string>>, graph: Option<Graph>, i: nat, j: nat,
                   conflicts: seq<Conflict>, c: Conflict)
    requires Distinct(ids) && forall n :: n in ids ==> n in scopes
    requires Collected(ids, scopes, graph, i, j, conflicts) && ConflictAt(ids, scopes, graph, i, j, c)
    ensures Collected(ids, scopes, graph, i, j + 1, conflicts + [c])
  {
    DistinctExtend(conflicts, c);
    forall k | 0 <= k < |conflicts| ensures PairsBefore(ids, conflicts[k], c) {
      assert conflicts[k] in conflicts;
      var i', j' :| Earlier(i', j', i, j) && ConflictAt(ids, scopes, graph, i', j', conflicts[k]);
      assert IsPair(ids, i', j', conflicts[k]) && IsPair(ids, i, j, c);
    }
    forall c' | c' in conflicts + [c]
      ensures exists i', j' :: Earlier(i', j', i, j + 1) && ConflictAt(ids, scopes, graph, i', j', c')
    {
      if c' in conflicts {
        var i', j' :| Earlier(i', j', i, j) && ConflictAt(ids, scopes, graph, i', j', c');
        assert Earlier(i', j', i, j + 1);
      } else {
        assert Earlier(i, j, i, j + 1);
      }
    }
    forall i', j', c' | Earlier(i', j', i, j + 1) && ConflictAt(ids, scopes, graph, i', j', c')
      ensures c' in conflicts + [c]
    {
      if i' == i && j' == j {
        assert c' == c;
      } else {
        assert Earlier(i', j', i, j);
      }
    }
  }

  lemma CollectNone(ids: seq<Name>, scopes: map<Name, seq<string>>, graph: Option<Graph>, i: nat, j: nat,
                    conflicts: seq<Conflict>)
    requires forall n :: n in ids ==> n in scopes
    requires Collected(ids, scopes, graph, i, j, conflicts) && forall c :: !ConflictAt(ids, scopes, graph, i, j, c)
    ensures Collected(ids, scopes, graph, i, j + 1, conflicts)
  {
    forall c' | c' in conflicts
      ensures exists i', j' :: Earlier(i', j', i, j + 1) && ConflictAt(ids, scopes, graph, i', j', c')
    {
      var i', j' :| Earlier(i', j', i, j) && ConflictAt(ids, scopes, graph, i', j', c');
      assert Earlier(i', j', i, j + 1);
    }
    forall i', j', c' | Earlier(i', j', i, j + 1) && ConflictAt(ids, scopes, graph, i', j', c')
      ensures c' in conflicts
    {
      assert Earlier(i', j', i, j);
    }
  }

  /** The next row starts where the finished row ends. */
  lemma CollectRow(ids: seq<Name>, scopes: map<Name, seq<string>>, graph: Option<Graph>, i: nat,
                   conflicts: seq<Conflict>)
    requires forall n :: n in ids ==> n in scopes
    requires Collected(ids, scopes, graph, i, |ids|, conflicts)
    ensures Collected(ids, scopes, graph, i + 1, i + 2, conflicts)
  {
    forall c | c in conflicts
      ensures exists i', j' :: Earlier(i', j', i + 1, i + 2) && ConflictAt(ids, scopes, graph, i', j', c)
    {
      var i', j' :| Earlier(i', j', i, |ids|) && ConflictAt(ids, scopes, graph, i', j', c);
      assert Earlier(i', j', i + 1, i + 2);
    }
    forall i', j', c | Earlier(i', j', i + 1, i + 2) && ConflictAt(ids, scopes, graph, i', j', c)
      ensures c in conflicts
    {
      assert Earlier(i', j', i, |ids|);
    }
  }

  /**
   * Lists exactly the pairs that share a significant file and are not ordered by dependency, each pair
   * once and in the order of the pairs. Without a graph every sharing pair is listed.
   */
  method DetectScopeConflicts(ids: seq<Name>, scopes: map<Name, seq<string>>, graph: Option<Graph>)
    returns (conflicts: seq<Conflict>)
    requires Distinct(ids) && forall n :: n in ids ==> n in scopes
    ensures Distinct(conflicts) && InPairOrder(ids, conflicts)
    ensures forall c :: c in conflicts <==> exists i, j :: ConflictAt(ids, scopes, graph, i, j, c)
  {
    conflicts := [];
    for i := 0 to |ids|
      invariant Collected(ids, scopes, graph, i, i + 1, conflicts)
    {
      for j := i + 1 to |ids|
        invariant Collected(ids, scopes, graph, i, j, conflicts)
      {
        var a, b := ids[i], ids[j];
        var ordered := false;
        if graph.Some? {
          ordered := DependsTransitively(graph.value, a, b);
          if !ordered {
            ordered := DependsTransitively(graph.value, b, a);
          }
        }
        OverlapExactly(scopes[a], scopes[b]);
        if !ordered && Overlap(scopes[a], scopes[b]) != [] {
          var c := Conflict(a, b, Overlap(scopes[a], scopes[b]));
          CollectOne(ids, scopes, graph, i, j, conflicts, c);
          conflicts := conflicts + [c];
        } else {
          CollectNone(ids, scopes, graph, i, j, conflicts);
        }
      }
      CollectRow(ids, scopes, graph, i, conflicts);
    }
    forall i, j, c | ConflictAt(ids, scopes, graph, i, j, c) ensures c in conflicts {
      assert Earlier(i, j, |ids|, |ids| + 1);
    }
  }
}
