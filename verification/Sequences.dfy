/** Facts about sequences and sets that several components share. */
module Sequences {

  datatype Option<+T> = None | Some(value: T)

  ghost predicate Distinct<T>(s: seq<T>) {
    forall i, j :: 0 <= i < j < |s| ==> s[i] != s[j]
  }

  ghost predicate Ascending(positions: seq<nat>) {
    forall k, l :: 0 <= k < l < |positions| ==> positions[k] < positions[l]
  }

  /** `from` lists, in order, exactly the positions below n that are in `wanted`. */
  ghost predicate Lists(from: seq<nat>, n: nat, wanted: set<nat>) {
    Ascending(from) && forall i :: i in from <==> i < n && i in wanted
  }

  ghost function Shifted(from: seq<nat>): seq<nat> {
    seq(|from|, k requires 0 <= k < |from| => from[k] + 1)
  }

  /** The positions of a list, when its first element is taken or left out. */
  lemma ListsHead(from: seq<nat>, n: nat, tail: set<nat>, wanted: set<nat>, first: bool)
    requires Lists(from, n, tail) && forall i: nat :: i in wanted <==> (i == 0 && first) || (i > 0 && i - 1 in tail)
    ensures Lists((if first then [0] else []) + Shifted(from), n + 1, wanted)
  {
    var shifted := Shifted(from);
    var all := (if first then [0] else []) + shifted;
    forall i ensures i in all <==> i < n + 1 && i in wanted {
      if i in shifted {
        var k :| 0 <= k < |shifted| && shifted[k] == i;
        assert from[k] in from;
      }
      if i > 0 && i - 1 in from {
        var k :| 0 <= k < |from| && from[k] == i - 1;
        assert shifted[k] == i;
      }
    }
  }

  /** The elements of `s`, as a set. */
  ghost function Elements<T>(s: seq<T>): set<T> {
    set x | x in s
  }

  /** A sequence without repeats has as many entries as elements. */
  lemma {:induction false} DistinctSize<T>(s: seq<T>)
    requires Distinct(s)
    ensures |Elements(s)| == |s|
  {
    if s != [] {
      var init, last := s[..|s| - 1], s[|s| - 1];
      DistinctSize(init);
      assert Elements(s) == Elements(init) + {last};
      assert last !in init;
    }
  }

  lemma DistinctExtend<T>(s: seq<T>, x: T)
    requires Distinct(s) && x !in s
    ensures Distinct(s + [x])
    ensures Elements(s + [x]) == Elements(s) + {x}
  {
    assert forall y :: y in s + [x] <==> y in s || y == x;
  }

  /** A sequence without repeats inside a finite set is no longer than the set. */
  lemma DistinctInside<T>(s: seq<T>, bound: set<T>)
    requires Distinct(s) && Elements(s) <= bound
    ensures |s| <= |bound|
  {
    DistinctSize(s);
    SubsetSize(Elements(s), bound);
  }

  lemma {:induction false} SubsetSize<T>(a: set<T>, b: set<T>)
    requires a <= b
    ensures |a| <= |b|
    ensures |a| == |b| ==> a == b
  {
    assert b == a + (b - a);
  }

  /** Two sequences without repeats over the same elements are permutations of each other. */
  lemma DistinctSameElements<T>(s: seq<T>, t: seq<T>)
    requires Distinct(s) && Distinct(t)
    requires forall x :: x in s <==> x in t
    ensures multiset(s) == multiset(t)
  {
    forall x ensures multiset(s)[x] == multiset(t)[x] {
      DistinctOnce(s, x);
      DistinctOnce(t, x);
    }
  }

  lemma {:induction false} DistinctOnce<T>(s: seq<T>, x: T)
    requires Distinct(s)
    ensures multiset(s)[x] == if x in s then 1 else 0
  {
    if s != [] {
      var init, last := s[..|s| - 1], s[|s| - 1];
      DistinctOnce(init, x);
      assert s == init + [last];
      assert last !in init;
    }
  }

  lemma DistinctConcat<T>(s: seq<T>, t: seq<T>)
    requires Distinct(s) && Distinct(t)
    requires forall x :: x in s ==> x !in t
    ensures Distinct(s + t)
  {
    forall i, j | 0 <= i < j < |s + t| ensures (s + t)[i] != (s + t)[j] {
      if i < |s| <= j {
        assert (s + t)[i] in s && (s + t)[j] in t;
      }
    }
  }

  /** A permutation of a sequence without repeats has no repeats. */
  lemma PermutationDistinct<T>(s: seq<T>, t: seq<T>)
    requires multiset(s) == multiset(t) && Distinct(t)
    ensures Distinct(s)
  {
    forall i, j | 0 <= i < j < |s| ensures s[i] != s[j] {
      assert s == s[..j] + s[j..];
      assert s[i] in s[..j] && s[j] in s[j..];
      DistinctOnce(t, s[i]);
    }
  }

  lemma PermutationElements<T>(s: seq<T>, t: seq<T>)
    requires multiset(s) == multiset(t)
    ensures forall x :: x in s <==> x in t
    ensures |s| == |t|
  {
    forall x ensures x in s <==> x in t {
      assert x in s <==> x in multiset(s);
      assert x in t <==> x in multiset(t);
    }
    assert |s| == |multiset(s)| && |t| == |multiset(t)|;
  }

  lemma AddOne<T>(s: set<T>, x: T)
    requires x !in s
    ensures |s + {x}| == |s| + 1
  {
  }
}
