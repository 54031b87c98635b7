/** Dependency graphs and what it means for one packet to depend on another. */
module Graphs {
  import opened Sequences

  type Name = string

  /**
   * An insertion-ordered dictionary from packet names to their dependency lists. The lists may repeat
   * a name, name the packet itself, or name packets that are not keys.
   */
  datatype Graph = Graph(keys: seq<Name>, deps: map<Name, seq<Name>>) {
    ghost predicate Valid() {
      && Distinct(keys)
      && forall n :: n in keys <==> n in deps
    }

    /** Lookup with the empty list as default. */
    function Get(n: Name): seq<Name> {
      if n in deps then deps[n] else []
    }

    /** Every dependency names a key. */
    ghost predicate Closed() {
      forall n, d :: n in deps && d in deps[n] ==> d in deps
    }
  }

  ghost predicate Edge(g: Graph, a: Name, b: Name) {
    b in g.Get(a)
  }

  ghost predicate IsWalk(g: Graph, p: seq<Name>) {
    && p != []
    && forall i :: 0 <= i < |p| - 1 ==> LinkAt(g, p, i)
  }

  ghost predicate LinkAt(g: Graph, p: seq<Name>, i: nat)
    requires i < |p| - 1
  {
    Edge(g, p[i], p[i + 1])
  }

  /** `p` is a non-empty dependency path from `a` to `b`. */
  ghost predicate IsPath(g: Graph, p: seq<Name>, a: Name, b: Name) {
    IsWalk(g, p) && |p| >= 2 && p[0] == a && p[|p| - 1] == b
  }

  /** `a` depends on `b`, directly or through other packets. */
  ghost predicate Depends(g: Graph, a: Name, b: Name) {
    exists p :: IsPath(g, p, a, b)
  }

  ghost predicate Acyclic(g: Graph) {
    forall n :: !Depends(g, n, n)
  }

  /** A closed walk that visits no name twice except that it ends where it started. */
  ghost predicate IsSimpleCycle(g: Graph, c: seq<Name>) {
    && |c| >= 2
    && c[0] == c[|c| - 1]
    && Distinct(c[..|c| - 1])
    && IsWalk(g, c)
  }

  /** Every dependency of a listed name is listed strictly before it. */
  ghost predicate Listed(g: Graph, s: seq<Name>) {
    forall i :: 0 <= i < |s| ==> ListedAt(g, s, i)
  }

  ghost predicate ListedAt(g: Graph, s: seq<Name>, i: nat)
    requires i < |s|
  {
    forall d :: d in g.Get(s[i]) ==> d in s[..i]
  }

  /** From `n` neither a cycle nor a name that is not a key can be reached. */
  ghost predicate Grounded(g: Graph, n: Name) {
    && n in g.deps
    && !Depends(g, n, n)
    && forall m :: Depends(g, n, m) ==> m in g.deps && !Depends(g, m, m)
  }

  /** All names the graph mentions. */
  ghost function AllNames(g: Graph): set<Name> {
    g.deps.Keys + set n, d | n in g.deps && d in g.deps[n] :: d
  }

  lemma EdgeDepends(g: Graph, a: Name, b: Name)
    requires Edge(g, a, b)
    ensures Depends(g, a, b)
  {
    assert IsPath(g, [a, b], a, b);
  }

  lemma DependsTransitive(g: Graph, a: Name, b: Name, c: Name)
    requires Depends(g, a, b) && Depends(g, b, c)
    ensures Depends(g, a, c)
  {
    var p :| IsPath(g, p, a, b);
    var q :| IsPath(g, q, b, c);
    var r := p + q[1..];
    assert LinkAt(g, q, 0);
    forall i | 0 <= i < |r| - 1 ensures LinkAt(g, r, i) {
      if i < |p| - 1 {
        assert LinkAt(g, p, i);
      } else {
        var k := i - (|p| - 1);
        assert LinkAt(g, q, k);
        assert r[i] == q[k] && r[i + 1] == q[k + 1];
      }
    }
    assert IsPath(g, r, a, c);
  }

  lemma WalkPieceDepends(g: Graph, p: seq<Name>, i: nat, j: nat)
    requires IsWalk(g, p) && i < j < |p|
    ensures Depends(g, p[i], p[j])
  {
    var q := p[i..j + 1];
    forall k | 0 <= k < |q| - 1 ensures LinkAt(g, q, k) {
      assert LinkAt(g, p, i + k);
    }
    assert IsPath(g, q, p[i], p[j]);
  }

  lemma PathTail(g: Graph, p: seq<Name>, a: Name, b: Name)
    requires IsPath(g, p, a, b) && |p| > 2
    ensures Edge(g, a, p[1]) && IsPath(g, p[1..], p[1], b) && p[1] in g.deps
  {
    assert LinkAt(g, p, 0) && LinkAt(g, p, 1);
    var q := p[1..];
    forall k | 0 <= k < |q| - 1 ensures LinkAt(g, q, k) {
      assert LinkAt(g, p, k + 1);
    }
  }

  /** A set that holds the direct dependencies of `a` and is closed under dependency holds them all. */
  lemma ClosedSetHoldsDependencies(g: Graph, a: Name, b: Name, s: set<Name>)
    requires forall d :: d in g.Get(a) ==> d in s
    requires forall n, d :: n in s && d in g.Get(n) ==> d in s
    requires Depends(g, a, b)
    ensures b in s
  {
    var p :| IsPath(g, p, a, b);
    assert LinkAt(g, p, 0);
    for i := 1 to |p| - 1
      invariant p[i] in s
    {
      assert LinkAt(g, p, i);
    }
  }

  lemma ListedExtend(g: Graph, s: seq<Name>, n: Name)
    requires Listed(g, s) && forall d :: d in g.Get(n) ==> d in s
    ensures Listed(g, s + [n])
  {
    forall i | 0 <= i < |s + [n]| ensures ListedAt(g, s + [n], i) {
      if i < |s| {
        assert ListedAt(g, s, i) && (s + [n])[..i] == s[..i];
      } else {
        assert (s + [n])[..i] == s;
      }
    }
  }

  /** In a listing everything a name depends on stands strictly before that name. */
  lemma ListedBefore(g: Graph, s: seq<Name>, i: nat, b: Name)
    requires Listed(g, s) && i < |s| && Depends(g, s[i], b)
    ensures b in s[..i]
  {
    var below := Elements(s[..i]);
    assert ListedAt(g, s, i);
    forall n, d | n in below && d in g.Get(n) ensures d in below {
      var k :| 0 <= k < i && s[k] == n;
      assert ListedAt(g, s, k);
    }
    ClosedSetHoldsDependencies(g, s[i], b, below);
  }

  /** A listing without repeats touches no cycle. */
  lemma ListedAcyclic(g: Graph, s: seq<Name>, n: Name)
    requires Listed(g, s) && Distinct(s) && n in s
    ensures !Depends(g, n, n)
  {
    var i :| 0 <= i < |s| && s[i] == n;
    if Depends(g, n, n) {
      ListedBefore(g, s, i, n);
    }
  }

  ghost predicate HasEdgeInto(g: Graph, n: Name, s: set<Name>) {
    exists d :: d in s && Edge(g, n, d)
  }

  /** When every member of a finite set depends on another member, some member lies on a cycle. */
  lemma StuckSetHasCycle(g: Graph, s: set<Name>, start: Name)
    requires start in s
    requires forall n {:trigger HasEdgeInto(g, n, s)} :: n in s ==> HasEdgeInto(g, n, s)
    ensures exists c :: c in s && Depends(g, c, c)
  {
    ExtendUntilRepeat(g, s, [start]);
  }

  lemma WalkExtend(g: Graph, p: seq<Name>, d: Name)
    requires IsWalk(g, p) && Edge(g, p[|p| - 1], d)
    ensures IsWalk(g, p + [d])
  {
    var q := p + [d];
    forall i | 0 <= i < |q| - 1 ensures LinkAt(g, q, i) {
      if i < |p| - 1 {
        assert LinkAt(g, p, i);
      }
    }
  }

  lemma {:induction false} ExtendUntilRepeat(g: Graph, s: set<Name>, p: seq<Name>)
    requires IsWalk(g, p) && Distinct(p) && Elements(p) <= s
    requires forall n {:trigger HasEdgeInto(g, n, s)} :: n in s ==> HasEdgeInto(g, n, s)
    ensures exists c :: c in s && Depends(g, c, c)
    decreases |s| - |p|
  {
    var last := p[|p| - 1];
    assert last in Elements(p);
    assert HasEdgeInto(g, last, s);
    var d :| d in s && Edge(g, last, d);
    WalkExtend(g, p, d);
    var q := p + [d];
    if d in p {
      var k :| 0 <= k < |p| && p[k] == d;
      WalkPieceDepends(g, q, k, |p|);
    } else {
      DistinctExtend(p, d);
      DistinctInside(q, s);
      ExtendUntilRepeat(g, s, q);
    }
  }

  /** A name that has dependencies is a key. */
  lemma CyclicIsKey(g: Graph, n: Name)
    requires Depends(g, n, n)
    ensures n in g.deps
  {
    var p :| IsPath(g, p, n, n);
    assert LinkAt(g, p, 0);
  }
}
