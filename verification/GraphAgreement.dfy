/** The three graph algorithms side by side. */
module GraphAgreement {
  import opened Sequences
  import opened Graphs
  import opened Reachability
  import opened CycleFinder
  import opened KahnSort

  /**
   * On every graph the cycle finder reports nothing exactly when no key depends on itself by the worklist
   * test, and the queue phase of the sort emits every key exactly when besides all dependencies are keys.
   * On a graph whose dependencies are all keys the three verdicts are therefore the same.
   */
  method CompareAlgorithms(g: Graph) returns (noCycle: bool, allEmitted: bool, noneSelfDependent: bool)
    requires g.Valid()
    ensures noCycle <==> noneSelfDependent
    ensures allEmitted <==> noCycle && g.Closed()
    ensures noCycle <==> Acyclic(g)
  {
    var cycles := DetectCycles(g);
    var emitted := EmitFreeNames(g);
    noCycle, allEmitted, noneSelfDependent := cycles == [], |emitted| == |g.keys|, true;
    for i := 0 to |g.keys|
      invariant noneSelfDependent <==> forall k :: 0 <= k < i ==> !Depends(g, g.keys[k], g.keys[k])
    {
      var found := DependsTransitively(g, g.keys[i], g.keys[i]);
      if found {
        noneSelfDependent := false;
      }
    }
    SelfDependencyIsOfKeys(g);
    AllEmitted(g, emitted);
    AllGrounded(g);
  }

  lemma SelfDependencyIsOfKeys(g: Graph)
    requires g.Valid()
    ensures Acyclic(g) <==> forall k :: 0 <= k < |g.keys| ==> !Depends(g, g.keys[k], g.keys[k])
  {
    if !Acyclic(g) {
      var n :| Depends(g, n, n);
      CyclicIsKey(g, n);
      assert n in g.keys;
    }
  }

  /** The emitted names are as many as the keys exactly when every key is grounded. */
  lemma AllEmitted(g: Graph, emitted: seq<Name>)
    requires g.Valid() && Distinct(emitted) && forall n :: n in emitted <==> Grounded(g, n)
    ensures |emitted| == |g.keys| <==> forall n :: n in g.deps ==> Grounded(g, n)
  {
    DistinctSize(emitted);
    DistinctSize(g.keys);
    assert forall n :: n in emitted ==> Grounded(g, n);
    assert Elements(emitted) <= Elements(g.keys);
    SubsetSize(Elements(emitted), Elements(g.keys));
    if forall n :: n in g.deps ==> Grounded(g, n) {
      assert Elements(emitted) == Elements(g.keys);
    }
    if |emitted| == |g.keys| {
      forall n | n in g.deps ensures Grounded(g, n) {
        assert n in Elements(g.keys);
      }
    }
  }
}
