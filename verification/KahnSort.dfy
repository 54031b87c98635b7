/** Kahn's topological sort with its fallback for graphs that cannot be ordered. */
module KahnSort {
  import opened Sequences
  import opened Graphs
  import opened Sorting

  /** How many entries of `s`, repeats counted, are not yet in `done`. */
  ghost function Waiting(s: seq<Name>, done: set<Name>): nat {
    if s == [] then 0 else (if s[0] in done then 0 else 1) + Waiting(s[1..], done)
  }

  lemma {:induction false} WaitingZero(s: seq<Name>, done: set<Name>)
    ensures Waiting(s, done) == 0 <==> forall d :: d in s ==> d in done
  {
    if s != [] {
      WaitingZero(s[1..], done);
      assert s == [s[0]] + s[1..];
    }
  }

  lemma {:induction false} WaitingAll(s: seq<Name>)
    ensures Waiting(s, {}) == |s|
  {
    if s != [] {
      WaitingAll(s[1..]);
    }
  }

  /** How often `x` occurs in `s`. */
  ghost function Count(s: seq<Name>, x: Name): nat {
    if s == [] then 0 else (if s[0] == x then 1 else 0) + Count(s[1..], x)
  }

  lemma {:induction false} CountAppend(s: seq<Name>, y: Name, x: Name)
    ensures Count(s + [y], x) == Count(s, x) + if y == x then 1 else 0
  {
    if s != [] {
      CountAppend(s[1..], y, x);
      assert (s + [y])[1..] == s[1..] + [y];
    }
  }

  lemma {:induction false} CountMember(s: seq<Name>, x: Name)
    ensures Count(s, x) > 0 <==> x in s
  {
    if s != [] {
      CountMember(s[1..], x);
      assert s == [s[0]] + s[1..];
    }
  }

  lemma {:induction false} WaitingStep(s: seq<Name>, done: set<Name>, x: Name)
    requires x !in done
    ensures Waiting(s, done) == Waiting(s, done + {x}) + Count(s, x)
  {
    if s != [] {
      WaitingStep(s[1..], done, x);
      assert s == [s[0]] + s[1..];
    }
  }

  function Lookup(m: map<Name, seq<Name>>, n: Name): seq<Name> {
    if n in m then m[n] else []
  }

  /** `dependents[d]` repeats `n` once for every occurrence of `d` among the dependencies of `n`. */
  ghost predicate Inverts(g: Graph, dependents: map<Name, seq<Name>>) {
    forall d, n :: d in g.deps ==> Count(Lookup(dependents, d), n) == Count(g.Get(n), d)
  }

  /** Key `a` comes before key `b`, or they are the same key. */
  ghost predicate NotAfter(keys: seq<Name>, a: Name, b: Name) {
    exists i, j :: 0 <= i <= j < |keys| && keys[i] == a && keys[j] == b
  }

  /** The names are among the first i keys, and in key order. */
  ghost predicate OrderedUpTo(keys: seq<Name>, i: nat, s: seq<Name>)
    requires i <= |keys|
  {
    && (forall k :: 0 <= k < |s| ==> s[k] in keys[..i])
    && forall k, l :: 0 <= k < l < |s| ==> NotAfter(keys, s[k], s[l])
  }

  /** Every entry of the table is in key order. */
  ghost predicate EntriesOrdered(keys: seq<Name>, i: nat, dependents: map<Name, seq<Name>>)
    requires i <= |keys|
  {
    forall d :: OrderedUpTo(keys, i, Lookup(dependents, d))
  }

  lemma OrderedExtend(keys: seq<Name>, i: nat, s: seq<Name>)
    requires i < |keys| && OrderedUpTo(keys, i + 1, s)
    ensures OrderedUpTo(keys, i + 1, s + [keys[i]])
  {
    var more := s + [keys[i]];
    assert keys[..i + 1][i] == keys[i];
    forall k | 0 <= k < |s| ensures NotAfter(keys, s[k], keys[i]) {
      var j :| 0 <= j < i + 1 && keys[..i + 1][j] == s[k];
      assert keys[j] == s[k];
    }
  }

  lemma EntriesExtend(keys: seq<Name>, i: nat, dependents: map<Name, seq<Name>>, dep: Name)
    requires i < |keys| && EntriesOrdered(keys, i + 1, dependents)
    ensures EntriesOrdered(keys, i + 1, dependents[dep := Lookup(dependents, dep) + [keys[i]]])
  {
    var next, more := i + 1, dependents[dep := Lookup(dependents, dep) + [keys[i]]];
    OrderedExtend(keys, i, Lookup(dependents, dep));
    forall d ensures OrderedUpTo(keys, next, Lookup(more, d)) {
      assert OrderedUpTo(keys, next, Lookup(dependents, d));
    }
  }

  lemma EntriesMoreKeys(keys: seq<Name>, i: nat, dependents: map<Name, seq<Name>>)
    requires i < |keys| && EntriesOrdered(keys, i, dependents)
    ensures EntriesOrdered(keys, i + 1, dependents)
  {
    var next := i + 1;
    assert keys[..next] == keys[..i] + [keys[i]];
    forall d ensures OrderedUpTo(keys, next, Lookup(dependents, d)) {
      assert OrderedUpTo(keys, i, Lookup(dependents, d));
    }
  }

  /** The table inverts the dependencies of the first i keys. */
  ghost predicate InvertsFirst(g: Graph, i: nat, dependents: map<Name, seq<Name>>)
    requires i <= |g.keys|
  {
    forall d, n :: d in g.deps ==>
      Count(Lookup(dependents, d), n) == if n in g.keys[..i] then Count(g.Get(n), d) else 0
  }

  lemma InvertsOneMore(g: Graph, i: nat, before: map<Name, seq<Name>>, now: map<Name, seq<Name>>)
    requires g.Valid() && i < |g.keys| && InvertsFirst(g, i, before)
    requires Appended(g, before, now, g.Get(g.keys[i]), g.keys[i])
    ensures InvertsFirst(g, i + 1, now)
  {
    assert g.keys[..i + 1] == g.keys[..i] + [g.keys[i]];
    assert g.keys[i] !in g.keys[..i];
  }

  lemma InvertsAll(g: Graph, dependents: map<Name, seq<Name>>)
    requires g.Valid() && InvertsFirst(g, |g.keys|, dependents)
    ensures Inverts(g, dependents)
  {
    assert g.keys[..|g.keys|] == g.keys;
    forall d, n | d in g.deps ensures Count(Lookup(dependents, d), n) == Count(g.Get(n), d) {
      assert n in g.keys <==> n in g.deps;
    }
  }

  method BuildDependents(g: Graph) returns (dependents: map<Name, seq<Name>>)
    requires g.Valid()
    ensures Inverts(g, dependents) && EntriesOrdered(g.keys, |g.keys|, dependents)
  {
    dependents := map[];
    for i := 0 to |g.keys|
      invariant InvertsFirst(g, i, dependents)
      invariant EntriesOrdered(g.keys, i, dependents)
    {
      ghost var before := dependents;
      dependents := AddDependent(g, i, dependents);
      InvertsOneMore(g, i, before, dependents);
    }
    InvertsAll(g, dependents);
  }

  /** `now` is `before` with `node` appended to the entry of every key among `deps`, repeats included. */
  ghost predicate Appended(g: Graph, before: map<Name, seq<Name>>, now: map<Name, seq<Name>>, deps: seq<Name>,
                           node: Name)
  {
    forall d, n :: d in g.deps ==>
      Count(Lookup(now, d), n) == Count(Lookup(before, d), n) + if n == node then Count(deps, d) else 0
  }

  lemma AppendOne(g: Graph, before: map<Name, seq<Name>>, was: map<Name, seq<Name>>, deps: seq<Name>, node: Name,
                  dep: Name)
    requires Appended(g, before, was, deps, node)
    ensures
      var now := if dep in g.deps then was[dep := Lookup(was, dep) + [node]] else was;
      Appended(g, before, now, deps + [dep], node)
  {
    var now := if dep in g.deps then was[dep := Lookup(was, dep) + [node]] else was;
    forall d, n | d in g.deps
      ensures Count(Lookup(now, d), n) ==
        Count(Lookup(before, d), n) + if n == node then Count(deps + [dep], d) else 0
    {
      CountAppend(deps, dep, d);
      CountAppend(Lookup(was, d), node, n);
    }
  }

  method AddDependent(g: Graph, i: nat, before: map<Name, seq<Name>>) returns (dependents: map<Name, seq<Name>>)
    requires g.Valid() && i < |g.keys| && EntriesOrdered(g.keys, i, before)
    ensures Appended(g, before, dependents, g.Get(g.keys[i]), g.keys[i])
    ensures EntriesOrdered(g.keys, i + 1, dependents)
  {
    var node := g.keys[i];
    dependents := before;
    EntriesMoreKeys(g.keys, i, before);
    var deps := g.deps[node];
    forall d ensures Count(deps[..0], d) == 0 {
    }
    for j := 0 to |deps|
      invariant Appended(g, before, dependents, deps[..j], node)
      invariant EntriesOrdered(g.keys, i + 1, dependents)
    {
      var dep := deps[j];
      AppendOne(g, before, dependents, deps[..j], node, dep);
      assert deps[..j + 1] == deps[..j] + [dep];
      if dep in g.deps {
        EntriesExtend(g.keys, i, dependents, dep);
        dependents := dependents[dep := Lookup(dependents, dep) + [node]];
      }
    }
    assert deps[..|deps|] == deps;
  }

  /**
   * The in-degrees count the dependencies not yet emitted, plus one for every decrement still owed to a
   * name in `owed`; result and queue together are the names at zero, without repeats.
   */
  ghost predicate Counted(g: Graph, indegree: map<Name, int>, result: seq<Name>, queue: seq<Name>, owed: seq<Name>) {
    && indegree.Keys == g.deps.Keys
    && (forall n :: n in g.deps ==> indegree[n] == Waiting(g.deps[n], Elements(result)) + Count(owed, n))
    && Distinct(result + queue)
    && (forall n :: n in result + queue <==> n in g.deps && indegree[n] == 0)
  }

  /** One decrement: the in-degree was positive, and the name joins the queue when it reaches zero. */
  lemma PayOne(g: Graph, indegree: map<Name, int>, result: seq<Name>, queue: seq<Name>, owed: seq<Name>, dep: Name)
    requires Counted(g, indegree, result, queue, owed)
    requires owed != [] && owed[0] == dep && dep in g.deps
    ensures indegree[dep] >= 1
    ensures
      var left := indegree[dep] - 1;
      Counted(g, indegree[dep := left], result, if left == 0 then queue + [dep] else queue, owed[1..])
  {
    var left := indegree[dep] - 1;
    assert dep !in result + queue;
    if left == 0 {
      DistinctExtend(result + queue, dep);
      assert result + (queue + [dep]) == result + queue + [dep];
    }
  }

  // ----- First in, first out

  /** All dependencies of `n` are among the first m emitted names. */
  ghost predicate DoneBy(g: Graph, result: seq<Name>, n: Name, m: nat) {
    m <= |result| && forall d :: d in g.Get(n) ==> d in result[..m]
  }

  ghost predicate KeyBefore(keys: seq<Name>, a: Name, b: Name) {
    exists i, j :: 0 <= i < j < |keys| && keys[i] == a && keys[j] == b
  }

  /** `a` had its dependencies emitted earlier than `b`, or at the same moment and is the earlier key. */
  ghost predicate Precedes(g: Graph, result: seq<Name>, a: Name, b: Name) {
    || (exists m :: 0 <= m <= |result| && DoneBy(g, result, a, m) && !DoneBy(g, result, b, m))
    || ((forall m :: 0 <= m <= |result| ==> (DoneBy(g, result, a, m) <==> DoneBy(g, result, b, m)))
        && KeyBefore(g.keys, a, b))
  }

  ghost predicate InFifo(g: Graph, result: seq<Name>, all: seq<Name>) {
    forall k, l :: 0 <= k < l < |all| ==> Precedes(g, result, all[k], all[l])
  }

  ghost predicate AllDone(g: Graph, result: seq<Name>, all: seq<Name>, m: nat) {
    forall k :: 0 <= k < |all| ==> DoneBy(g, result, all[k], m)
  }

  lemma DoneByMore(g: Graph, result: seq<Name>, node: Name, n: Name, m: nat)
    requires m <= |result|
    ensures DoneBy(g, result + [node], n, m) <==> DoneBy(g, result, n, m)
    ensures DoneBy(g, result, n, |result|) ==> DoneBy(g, result + [node], n, |result| + 1)
  {
    assert (result + [node])[..m] == result[..m];
    assert (result + [node])[..|result| + 1] == result + [node];
    assert result[..|result|] == result;
  }

  lemma PrecedesMore(g: Graph, result: seq<Name>, node: Name, a: Name, b: Name)
    requires Precedes(g, result, a, b) && DoneBy(g, result, a, |result|) && DoneBy(g, result, b, |result|)
    ensures Precedes(g, result + [node], a, b)
  {
    var more := result + [node];
    if m :| 0 <= m <= |result| && DoneBy(g, result, a, m) && !DoneBy(g, result, b, m) {
      DoneByMore(g, result, node, a, m);
      DoneByMore(g, result, node, b, m);
    } else {
      forall m | 0 <= m <= |more| ensures DoneBy(g, more, a, m) <==> DoneBy(g, more, b, m) {
        DoneByMore(g, result, node, a, if m <= |result| then m else 0);
        DoneByMore(g, result, node, b, if m <= |result| then m else 0);
      }
    }
  }

  /** Emitting another name changes nothing between names whose dependencies were all emitted before. */
  lemma FifoMore(g: Graph, result: seq<Name>, node: Name, all: seq<Name>)
    requires InFifo(g, result, all) && AllDone(g, result, all, |result|)
    ensures InFifo(g, result + [node], all)
    ensures AllDone(g, result + [node], all, |result|) && AllDone(g, result + [node], all, |result| + 1)
  {
    forall k | 0 <= k < |all|
      ensures DoneBy(g, result + [node], all[k], |result|) && DoneBy(g, result + [node], all[k], |result| + 1)
    {
      DoneByMore(g, result, node, all[k], |result|);
    }
    forall k, l | 0 <= k < l < |all| ensures Precedes(g, result + [node], all[k], all[l]) {
      PrecedesMore(g, result, node, all[k], all[l]);
    }
  }

  /** The names released by the last emitted name, in the order of the waiting list. */
  ghost predicate Released(g: Graph, result: seq<Name>, released: seq<Name>, waiters: seq<Name>) {
    forall r :: r in released ==> r in waiters && JustDone(g, result, r)
  }

  /** The last emitted name was the last dependency missing. */
  ghost predicate JustDone(g: Graph, result: seq<Name>, n: Name) {
    result != [] && DoneBy(g, result, n, |result|) && !DoneBy(g, result, n, |result| - 1)
  }

  lemma JustDoneBoth(g: Graph, result: seq<Name>, a: Name, b: Name)
    requires JustDone(g, result, a) && JustDone(g, result, b) && KeyBefore(g.keys, a, b)
    ensures Precedes(g, result, a, b)
  {
    forall m | 0 <= m <= |result| ensures DoneBy(g, result, a, m) <==> DoneBy(g, result, b, m) {
      if m < |result| {
        NotDoneEarlier(g, result, a, m);
        NotDoneEarlier(g, result, b, m);
      }
    }
  }

  lemma NotDoneEarlier(g: Graph, result: seq<Name>, n: Name, m: nat)
    requires JustDone(g, result, n) && m < |result|
    ensures !DoneBy(g, result, n, m)
  {
    var d :| d in g.Get(n) && d !in result[..|result| - 1];
    assert result[..m] <= result[..|result| - 1];
    assert d !in result[..m] by {
      assert forall x :: x in result[..m] ==> x in result[..|result| - 1];
    }
  }

  /** A name that was just released goes behind everything in the queue. */
  lemma FifoJoin(g: Graph, result: seq<Name>, all: seq<Name>, released: seq<Name>, waiters: seq<Name>, dep: Name)
    requires g.Valid() && InFifo(g, result, all + released) && result != []
    requires AllDone(g, result, all, |result| - 1) && Released(g, result, released, waiters)
    requires OrderedUpTo(g.keys, |g.keys|, waiters + [dep]) && dep !in released && JustDone(g, result, dep)
    ensures InFifo(g, result, all + released + [dep])
    ensures Released(g, result, released + [dep], waiters + [dep])
  {
    var line, more := all + released, all + released + [dep];
    forall k | 0 <= k < |line| ensures Precedes(g, result, line[k], dep) {
      if k < |all| {
        assert DoneBy(g, result, all[k], |result| - 1);
      } else {
        var r := line[k];
        assert r in released;
        var a :| 0 <= a < |waiters| && waiters[a] == r;
        assert (waiters + [dep])[a] == r && (waiters + [dep])[|waiters|] == dep;
        assert NotAfter(g.keys, r, dep) && r != dep;
        JustDoneBoth(g, result, r, dep);
      }
    }
    forall k, l | 0 <= k < l < |more| ensures Precedes(g, result, more[k], more[l]) {
      assert more[k] == line[k];
      assert l < |line| ==> more[l] == line[l];
    }
  }

  /** The state between two rounds of the queue phase. */
  ghost predicate QueueState(g: Graph, indegree: map<Name, int>, result: seq<Name>, queue: seq<Name>) {
    && Counted(g, indegree, result, queue, []) && Listed(g, result)
    && InFifo(g, result, result + queue) && AllDone(g, result, result + queue, |result|)
  }

  /** What stays the same while the names that wait for `node` are paid. */
  ghost predicate PayingContext(g: Graph, result: seq<Name>, node: Name, queue: seq<Name>, waiters: seq<Name>) {
    && g.Valid() && node !in result && Listed(g, result + [node])
    && AllDone(g, result + [node], result + [node] + queue, |result|)
    && AllDone(g, result + [node], result + [node] + queue, |result| + 1)
    && OrderedUpTo(g.keys, |g.keys|, waiters)
    && forall n :: Count(waiters, n) == Count(g.Get(n), node)
  }

  /** The state when the first k entries of the waiting list are paid. */
  ghost predicate Paying(g: Graph, indegree: map<Name, int>, result: seq<Name>, node: Name, queue: seq<Name>,
                         released: seq<Name>, waiters: seq<Name>, k: nat)
    requires k <= |waiters|
  {
    && Counted(g, indegree, result + [node], queue + released, waiters[k..])
    && Released(g, result + [node], released, waiters[..k])
    && InFifo(g, result + [node], result + [node] + queue + released)
  }

  lemma NodeIsFresh(g: Graph, indegree: map<Name, int>, result: seq<Name>, node: Name, queue: seq<Name>)
    requires Counted(g, indegree, result, [node] + queue, [])
    ensures node in g.deps && node !in result && result + ([node] + queue) == result + [node] + queue
  {
    var all := result + ([node] + queue);
    assert all[|result|] == node && node in all;
    forall i | 0 <= i < |result| ensures result[i] != node {
      assert all[i] == result[i];
    }
  }

  lemma StartFifo(g: Graph, result: seq<Name>, node: Name, queue: seq<Name>, all: seq<Name>)
    requires InFifo(g, result, all) && AllDone(g, result, all, |result|) && all == result + [node] + queue
    ensures InFifo(g, result + [node], result + [node] + queue + [])
    ensures AllDone(g, result + [node], result + [node] + queue, |result|)
    ensures AllDone(g, result + [node], result + [node] + queue, |result| + 1)
  {
    FifoMore(g, result, node, all);
    assert all + [] == all;
  }

  lemma StartPaying(g: Graph, dependents: map<Name, seq<Name>>, indegree: map<Name, int>, result: seq<Name>,
                    node: Name, queue: seq<Name>, waiters: seq<Name>)
    requires g.Valid() && EntriesOrdered(g.keys, |g.keys|, dependents) && waiters == Lookup(dependents, node)
    requires node in g.deps ==> forall n :: Count(waiters, n) == Count(g.Get(n), node)
    requires QueueState(g, indegree, result, [node] + queue)
    ensures PayingContext(g, result, node, queue, waiters)
    ensures Paying(g, indegree, result, node, queue, [], waiters, 0)
  {
    NodeIsFresh(g, indegree, result, node, queue);
    StartFifo(g, result, node, queue, result + ([node] + queue));
    TakenFromQueue(g, indegree, result, node, queue, waiters);
    assert waiters[0..] == waiters && queue + [] == queue;
  }

  lemma PayNext(g: Graph, indegree: map<Name, int>, result: seq<Name>, node: Name, queue: seq<Name>,
                released: seq<Name>, waiters: seq<Name>, k: nat)
    requires PayingContext(g, result, node, queue, waiters)
    requires k < |waiters| && Paying(g, indegree, result, node, queue, released, waiters, k)
    ensures waiters[k] in indegree && indegree[waiters[k]] >= 1
    ensures
      var left := indegree[waiters[k]] - 1;
      Paying(g, indegree[waiters[k] := left], result, node, queue,
             if left == 0 then released + [waiters[k]] else released, waiters, k + 1)
  {
    var dep := waiters[k];
    var left, emitted, all := indegree[dep] - 1, result + [node], result + [node] + queue;
    assert waiters[k..][0] == dep && waiters[k..][1..] == waiters[k + 1..];
    assert waiters[..k + 1] == waiters[..k] + [dep];
    CountMember(waiters, dep);
    CountMember(g.Get(dep), node);
    assert dep in g.deps;
    PayOne(g, indegree, emitted, queue + released, waiters[k..], dep);
    if left == 0 {
      assert queue + (released + [dep]) == queue + released + [dep];
      ReleaseNext(g, indegree[dep := left], result, node, queue, released, waiters, k);
    }
  }

  lemma ReleaseNext(g: Graph, indegree: map<Name, int>, result: seq<Name>, node: Name, queue: seq<Name>,
                    released: seq<Name>, waiters: seq<Name>, k: nat)
    requires PayingContext(g, result, node, queue, waiters) && k < |waiters|
    requires Counted(g, indegree, result + [node], queue + released + [waiters[k]], waiters[k + 1..])
    requires Released(g, result + [node], released, waiters[..k])
    requires InFifo(g, result + [node], result + [node] + queue + released)
    requires waiters[k] in g.deps && indegree[waiters[k]] == 0 && node in g.Get(waiters[k])
    ensures Released(g, result + [node], released + [waiters[k]], waiters[..k] + [waiters[k]])
    ensures InFifo(g, result + [node], result + [node] + queue + (released + [waiters[k]]))
  {
    var dep, emitted, all := waiters[k], result + [node], result + [node] + queue;
    JustReleased(g, indegree, result, node, queue + released + [dep], waiters[k + 1..], dep);
    var line := emitted + (queue + released + [dep]);
    assert dep !in released by {
      assert line[|line| - 1] == dep;
      forall i | 0 <= i < |released| ensures released[i] != dep {
        assert line[|emitted| + |queue| + i] == released[i];
      }
    }
    WaitersPrefix(g, waiters, k);
    assert |emitted| - 1 == |result|;
    FifoJoin(g, emitted, all, released, waiters[..k], dep);
    assert all + (released + [dep]) == all + released + [dep];
  }

  lemma WaitersPrefix(g: Graph, waiters: seq<Name>, k: nat)
    requires k < |waiters| && OrderedUpTo(g.keys, |g.keys|, waiters)
    ensures OrderedUpTo(g.keys, |g.keys|, waiters[..k] + [waiters[k]])
  {
    assert waiters[..k] + [waiters[k]] == waiters[..k + 1];
  }

  lemma AllPaid(g: Graph, indegree: map<Name, int>, result: seq<Name>, node: Name, queue: seq<Name>,
                released: seq<Name>, waiters: seq<Name>)
    requires PayingContext(g, result, node, queue, waiters)
    requires Paying(g, indegree, result, node, queue, released, waiters, |waiters|)
    ensures QueueState(g, indegree, result + [node], queue + released)
  {
    var emitted, all := result + [node], result + [node] + queue;
    assert waiters[|waiters|..] == [] && waiters[..|waiters|] == waiters;
    AllOfThemDone(g, emitted, all, released, waiters);
    assert all + released == emitted + (queue + released);
  }

  /** Takes `node` off the queue: every dependent's in-degree drops once for each edge to `node`. */
  method Release(g: Graph, dependents: map<Name, seq<Name>>, node: Name, ghost result: seq<Name>,
                 indegree: map<Name, int>, queue: seq<Name>)
    returns (indegree': map<Name, int>, queue': seq<Name>)
    requires g.Valid() && Inverts(g, dependents) && EntriesOrdered(g.keys, |g.keys|, dependents)
    requires QueueState(g, indegree, result, [node] + queue)
    ensures QueueState(g, indegree', result + [node], queue')
  {
    var waiters := Lookup(dependents, node);
    StartPaying(g, dependents, indegree, result, node, queue, waiters);
    ghost var released;
    indegree', queue', released := PayAll(g, waiters, node, result, indegree, queue);
    AllPaid(g, indegree', result, node, queue, released, waiters);
  }

  /** The loop over the names that wait for `node`. */
  method PayAll(g: Graph, waiters: seq<Name>, ghost node: Name, ghost result: seq<Name>, indegree: map<Name, int>,
                queue: seq<Name>)
    returns (indegree': map<Name, int>, queue': seq<Name>, ghost released: seq<Name>)
    requires PayingContext(g, result, node, queue, waiters)
    requires Paying(g, indegree, result, node, queue, [], waiters, 0)
    ensures queue' == queue + released
    ensures Paying(g, indegree', result, node, queue, released, waiters, |waiters|)
  {
    indegree', queue', released := indegree, queue, [];
    for k := 0 to |waiters|
      invariant queue' == queue + released
      invariant Paying(g, indegree', result, node, queue, released, waiters, k)
    {
      var dep := waiters[k];
      PayNext(g, indegree', result, node, queue, released, waiters, k);
      var left := indegree'[dep] - 1;
      indegree' := indegree'[dep := left];
      if left == 0 {
        queue' := queue' + [dep];
        released := released + [dep];
      }
    }
  }

  lemma AllOfThemDone(g: Graph, result: seq<Name>, all: seq<Name>, released: seq<Name>, waiters: seq<Name>)
    requires AllDone(g, result, all, |result|) && Released(g, result, released, waiters)
    ensures AllDone(g, result, all + released, |result|)
  {
    forall k | 0 <= k < |all + released| ensures DoneBy(g, result, (all + released)[k], |result|) {
      if k >= |all| {
        assert (all + released)[k] in released;
      }
    }
  }

  lemma JustReleased(g: Graph, indegree: map<Name, int>, result: seq<Name>, node: Name, queue: seq<Name>,
                     owed: seq<Name>, dep: Name)
    requires Counted(g, indegree, result + [node], queue, owed) && dep in g.deps && indegree[dep] == 0
    requires node in g.Get(dep) && node !in result
    ensures JustDone(g, result + [node], dep)
  {
    var emitted := result + [node];
    WaitingZero(g.deps[dep], Elements(emitted));
    assert emitted[..|emitted|] == emitted && emitted[..|emitted| - 1] == result;
  }

  /** The facts about the state when `node` has moved from the queue to the result. */
  lemma TakenFromQueue(g: Graph, indegree: map<Name, int>, result: seq<Name>, node: Name, queue: seq<Name>,
                       waiters: seq<Name>)
    requires g.Valid() && Counted(g, indegree, result, [node] + queue, []) && Listed(g, result)
    requires forall n :: Count(waiters, n) == Count(g.Get(n), node)
    ensures Listed(g, result + [node])
    ensures Counted(g, indegree, result + [node], queue, waiters)
  {
    var all := result + ([node] + queue);
    assert all == result + [node] + queue;
    assert all[|result|] == node && node in all;
    assert node !in result by {
      forall i | 0 <= i < |result| ensures result[i] != node {
        assert all[i] == result[i];
      }
    }
    assert Elements(result + [node]) == Elements(result) + {node};
    forall n | n in g.deps
      ensures indegree[n] == Waiting(g.deps[n], Elements(result + [node])) + Count(waiters, n)
    {
      WaitingStep(g.deps[n], Elements(result), node);
    }
    WaitingZero(g.deps[node], Elements(result));
    ListedExtend(g, result, node);
  }

  /**
   * The queue phase. It emits, without repeats and dependencies first, exactly the names from which
   * neither a cycle nor an unknown name can be reached.
   */
  method EmitFreeNames(g: Graph) returns (result: seq<Name>)
    requires g.Valid()
    ensures Distinct(result) && Listed(g, result) && InFifo(g, result, result)
    ensures forall n :: n in result <==> Grounded(g, n)
  {
    var indegree: map<Name, int> := map n | n in g.deps :: |g.deps[n]|;
    var dependents := BuildDependents(g);
    result := [];
    var queue := [];
    for i := 0 to |g.keys|
      invariant Distinct(queue)
      invariant forall n :: n in queue <==> n in g.keys[..i] && indegree[n] == 0
      invariant InFifo(g, [], queue)
    {
      assert g.keys[..i + 1] == g.keys[..i] + [g.keys[i]];
      if indegree[g.keys[i]] == 0 {
        DistinctExtend(queue, g.keys[i]);
        FifoStart(g, queue, i);
        queue := queue + [g.keys[i]];
      }
    }
    assert g.keys[..|g.keys|] == g.keys;
    StartOfQueue(g, indegree, queue);
    while queue != []
      invariant QueueState(g, indegree, result, queue)
      decreases |g.deps.Keys| - |result|
    {
      var node := queue[0];
      assert queue == [node] + queue[1..];
      RoomForOne(g, indegree, result, queue);
      indegree, queue := Release(g, dependents, node, result, indegree, queue[1..]);
      result := result + [node];
    }
    EndOfQueue(g, indegree, result);
  }

  lemma StartOfQueue(g: Graph, indegree: map<Name, int>, queue: seq<Name>)
    requires g.Valid() && indegree.Keys == g.deps.Keys && forall n :: n in g.deps ==> indegree[n] == |g.deps[n]|
    requires Distinct(queue) && InFifo(g, [], queue) && forall n :: n in queue <==> n in g.keys && indegree[n] == 0
    ensures QueueState(g, indegree, [], queue)
  {
    forall n | n in g.deps ensures indegree[n] == Waiting(g.deps[n], Elements([])) {
      WaitingAll(g.deps[n]);
      assert Elements<Name>([]) == {};
    }
    assert [] + queue == queue;
    forall k | 0 <= k < |queue| ensures DoneBy(g, [], queue[k], 0) {
      assert queue[k] in queue;
    }
  }

  lemma RoomForOne(g: Graph, indegree: map<Name, int>, result: seq<Name>, queue: seq<Name>)
    requires QueueState(g, indegree, result, queue) && queue != []
    ensures |result| < |g.deps.Keys|
  {
    DistinctInside(result + queue, g.deps.Keys);
  }

  lemma EndOfQueue(g: Graph, indegree: map<Name, int>, result: seq<Name>)
    requires g.Valid() && QueueState(g, indegree, result, [])
    ensures Distinct(result) && Listed(g, result) && InFifo(g, result, result)
    ensures forall n :: n in result <==> Grounded(g, n)
  {
    assert result + [] == result;
    EmittedAreGrounded(g, indegree, result);
  }

  lemma FifoStart(g: Graph, queue: seq<Name>, i: nat)
    requires i < |g.keys| && InFifo(g, [], queue) && g.Get(g.keys[i]) == []
    requires forall n :: n in queue ==> n in g.keys[..i] && g.Get(n) == []
    ensures InFifo(g, [], queue + [g.keys[i]])
  {
    var more := queue + [g.keys[i]];
    forall k | 0 <= k < |queue| ensures Precedes(g, [], queue[k], g.keys[i]) {
      assert queue[k] in queue;
      var j :| 0 <= j < i && g.keys[..i][j] == queue[k];
      assert g.keys[j] == queue[k];
    }
    forall k, l | 0 <= k < l < |more| ensures Precedes(g, [], more[k], more[l]) {
      assert more[k] == queue[k];
    }
  }

  /** When the queue is empty the emitted names are the grounded ones. */
  lemma EmittedAreGrounded(g: Graph, indegree: map<Name, int>, result: seq<Name>)
    requires g.Valid() && Counted(g, indegree, result, [], []) && Listed(g, result)
    ensures forall n :: n in result <==> Grounded(g, n)
  {
    assert result + [] == result;
    forall n | n in result ensures Grounded(g, n) {
      ListedAcyclic(g, result, n);
      forall m | Depends(g, n, m) ensures m in g.deps && !Depends(g, m, m) {
        var i :| 0 <= i < |result| && result[i] == n;
        ListedBefore(g, result, i, m);
        ListedAcyclic(g, result, m);
      }
    }
    forall n | Grounded(g, n) ensures n in result {
      if n !in result {
        GroundedIsEmitted(g, indegree, result, n);
      }
    }
  }

  lemma GroundedIsEmitted(g: Graph, indegree: map<Name, int>, result: seq<Name>, n: Name)
    requires g.Valid() && Counted(g, indegree, result, [], []) && Listed(g, result) && Grounded(g, n)
    ensures n in result
  {
    assert result + [] == result;
    if n !in result {
      var stuck := set m | m in g.deps && m !in result && (m == n || Depends(g, n, m));
      forall m {:trigger HasEdgeInto(g, m, stuck)} | m in stuck ensures HasEdgeInto(g, m, stuck) {
        WaitingZero(g.deps[m], Elements(result));
        var d :| d in g.deps[m] && d !in result;
        EdgeDepends(g, m, d);
        if m != n {
          DependsTransitive(g, n, m, d);
        }
        assert d in stuck && Edge(g, m, d);
      }
      StuckSetHasCycle(g, stuck, n);
    }
  }

  lemma SameUpTo(g: Graph, s: seq<Name>, t: seq<Name>, k: nat, n: Name, m: nat)
    requires k <= |s| && k <= |t| && s[..k] == t[..k] && DoneBy(g, s, n, k)
    ensures m <= k ==> (DoneBy(g, s, n, m) <==> DoneBy(g, t, n, m))
    ensures k <= m <= |s| ==> DoneBy(g, s, n, m)
    ensures k <= m <= |t| ==> DoneBy(g, t, n, m)
  {
    if m <= k {
      assert s[..m] == s[..k][..m] && t[..m] == t[..k][..m];
    }
    if k <= m <= |s| {
      assert s[..k] <= s[..m];
      assert forall d :: d in s[..k] ==> d in s[..m];
    }
    if k <= m <= |t| {
      assert t[..k] <= t[..m];
      assert forall d :: d in t[..k] ==> d in t[..m];
    }
  }

  lemma DoneMonotone(g: Graph, s: seq<Name>, n: Name, m: nat, m': nat)
    requires DoneBy(g, s, n, m) && m <= m' <= |s|
    ensures DoneBy(g, s, n, m')
  {
    assert s[..m] <= s[..m'];
    assert forall d :: d in s[..m] ==> d in s[..m'];
  }

  /** Two orders that agree so far cannot disagree about which of two ready names comes first. */
  lemma PrecedesOneWay(g: Graph, s: seq<Name>, t: seq<Name>, k: nat, a: Name, b: Name)
    requires g.Valid() && k <= |s| && k <= |t| && s[..k] == t[..k]
    requires DoneBy(g, s, a, k) && DoneBy(g, s, b, k) && Precedes(g, s, a, b)
    ensures !Precedes(g, t, b, a)
  {
    forall m: nat
      ensures m <= k ==> (DoneBy(g, s, a, m) <==> DoneBy(g, t, a, m)) && (DoneBy(g, s, b, m) <==> DoneBy(g, t, b, m))
      ensures k <= m <= |s| ==> DoneBy(g, s, a, m) && DoneBy(g, s, b, m)
      ensures k <= m <= |t| ==> DoneBy(g, t, a, m) && DoneBy(g, t, b, m)
    {
      SameUpTo(g, s, t, k, a, m);
      SameUpTo(g, s, t, k, b, m);
    }
    if m :| 0 <= m <= |s| && DoneBy(g, s, a, m) && !DoneBy(g, s, b, m) {
      forall m' | 0 <= m' <= |t| ensures DoneBy(g, t, b, m') ==> DoneBy(g, t, a, m') {
        if m <= m' <= k {
          DoneMonotone(g, t, a, m, m');
        } else if m' < m && DoneBy(g, s, b, m') {
          DoneMonotone(g, s, b, m', m);
        }
      }
      assert DoneBy(g, t, a, m) && !DoneBy(g, t, b, m);
    }
  }

  /** There is only one order in which first in, first out can emit the names: it does not depend on the run. */
  lemma FifoUnique(g: Graph, s: seq<Name>, t: seq<Name>)
    requires g.Valid() && Distinct(s) && Distinct(t) && forall n :: n in s <==> n in t
    requires Listed(g, s) && Listed(g, t) && InFifo(g, s, s) && InFifo(g, t, t)
    ensures s == t
  {
    DistinctSameElements(s, t);
    PermutationElements(s, t);
    for k := 0 to |s|
      invariant s[..k] == t[..k]
    {
      NextIsSame(g, s, t, k);
      assert s[..k + 1] == s[..k] + [s[k]] && t[..k + 1] == t[..k] + [t[k]];
    }
    assert s[..|s|] == s && t[..|t|] == t;
  }

  lemma LaterIn(s: seq<Name>, t: seq<Name>, k: nat) returns (j: nat)
    requires Distinct(s) && Distinct(t) && (forall n :: n in s <==> n in t)
    requires k < |s| && k < |t| && s[..k] == t[..k] && s[k] != t[k]
    ensures k < j < |s| && s[j] == t[k]
  {
    forall i | 0 <= i < k ensures s[i] != t[k] {
      assert s[..k][i] == t[..k][i];
    }
    assert t[k] in t;
    j :| 0 <= j < |s| && s[j] == t[k];
  }

  lemma NextIsSame(g: Graph, s: seq<Name>, t: seq<Name>, k: nat)
    requires g.Valid() && Distinct(s) && Distinct(t) && forall n :: n in s <==> n in t
    requires Listed(g, s) && Listed(g, t) && InFifo(g, s, s) && InFifo(g, t, t)
    requires k < |s| && k < |t| && s[..k] == t[..k]
    ensures s[k] == t[k]
  {
    if s[k] != t[k] {
      var j := LaterIn(s, t, k);
      var i := LaterIn(t, s, k);
      assert ListedAt(g, s, k) && ListedAt(g, t, k);
      assert Precedes(g, s, s[k], s[j]) && Precedes(g, t, t[k], t[i]);
      PrecedesOneWay(g, s, t, k, s[k], t[k]);
    }
  }

  /** The names of `all` that are not in `taken`, in order. */
  function Remaining(all: seq<Name>, taken: seq<Name>): (r: seq<Name>)
    ensures forall n :: n in r <==> n in all && n !in taken
  {
    if all == [] then []
    else if all[0] in taken then Remaining(all[1..], taken)
    else [all[0]] + Remaining(all[1..], taken)
  }

  lemma {:induction false} RemainingDistinct(all: seq<Name>, taken: seq<Name>)
    requires Distinct(all)
    ensures Distinct(Remaining(all, taken))
  {
    if all != [] {
      RemainingDistinct(all[1..], taken);
    }
  }

  /** `order[..k]` is the queue phase and the rest is the sorted fallback. */
  ghost predicate KahnOrder(g: Graph, order: seq<Name>, k: nat) {
    && k <= |order|
    && Listed(g, order[..k]) && InFifo(g, order[..k], order[..k])
    && (forall n :: n in order[..k] <==> Grounded(g, n))
    && Sorted(order[k..])
  }

  /** Always a permutation of the keys, the orderable names first. */
  method TopologicalSort(g: Graph) returns (order: seq<Name>)
    requires g.Valid()
    ensures multiset(order) == multiset(g.keys)
    ensures exists k: nat :: KahnOrder(g, order, k)
  {
    var result := EmitFreeNames(g);
    ghost var rest := Remaining(g.keys, result);
    RemainingDistinct(g.keys, result);
    DistinctConcat(result, rest);
    forall n ensures n in g.keys <==> n in result + rest {
      if n in result {
        assert Grounded(g, n);
      }
    }
    DistinctSameElements(result + rest, g.keys);
    order := result;
    if |result| != |g.keys| {
      var remaining := SortNames(Remaining(g.keys, result));
      SortNamesSorts(Remaining(g.keys, result));
      order := order + remaining;
      assert order[..|result|] == result && order[|result|..] == remaining;
    } else {
      PermutationElements(result + rest, g.keys);
      assert result + rest == result && order[..|result|] == result && order[|result|..] == [];
    }
    assert KahnOrder(g, order, |result|);
  }

  /** All keys pass the queue phase exactly when the graph is acyclic and mentions no unknown name. */
  lemma AllGrounded(g: Graph)
    requires g.Valid()
    ensures (forall n :: n in g.deps ==> Grounded(g, n)) <==> Acyclic(g) && g.Closed()
  {
    if forall n :: n in g.deps ==> Grounded(g, n) {
      forall n ensures !Depends(g, n, n) {
        if Depends(g, n, n) {
          CyclicIsKey(g, n);
        }
      }
      forall n, d | n in g.deps && d in g.deps[n] ensures d in g.deps {
        EdgeDepends(g, n, d);
      }
    }
    if Acyclic(g) && g.Closed() {
      forall n | n in g.deps ensures Grounded(g, n) {
        forall m | Depends(g, n, m) ensures m in g.deps {
          ClosedSetHoldsDependencies(g, n, m, g.deps.Keys);
        }
      }
    }
  }

  /** On an acyclic graph without unknown names the whole order lists dependencies first. */
  lemma KahnOrderOfAcyclic(g: Graph, order: seq<Name>, k: nat)
    requires g.Valid() && Acyclic(g) && g.Closed()
    requires multiset(order) == multiset(g.keys) && KahnOrder(g, order, k)
    ensures Listed(g, order)
  {
    AllGrounded(g);
    PermutationElements(order, g.keys);
    PermutationDistinct(order, g.keys);
    assert Elements(order) == Elements(order[..k]);
    DistinctSize(order);
    DistinctSize(order[..k]);
    assert order[..k] == order;
  }
}
