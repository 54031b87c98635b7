/** Slash-separated paths: splitting, joining and what a path prefix means. */
module Paths {
  import opened Sequences
  import opened Text

  const SLASH := '/'

  function Slashed(s: string): (r: string)
    ensures |r| == |s|
    ensures '\\' !in s ==> r == s
    ensures forall i :: 0 <= i < |s| ==> (s[i] == '\\' && r[i] == '/') || (s[i] != '\\' && r[i] == s[i])
  {
    if s == [] then [] else [if s[0] == '\\' then SLASH else s[0]] + Slashed(s[1..])
  }

  lemma SplitHead(s: string)
    requires s != [] && s[0] != SLASH
    ensures
      var parts, rest := Split(s, SLASH), Split(s[1..], SLASH);
      parts == [[s[0]] + rest[0]] + rest[1..]
  {
  }

  /** `e` is the file or a directory above it exactly when the segments of `e` begin the segments of the file. */
  lemma {:induction false} PrefixBySegments(e: string, file: string)
    ensures file == e || e + [SLASH] <= file <==> Split(e, SLASH) <= Split(file, SLASH)
  {
    if e == [] {
      SplitOfEmpty(file);
    } else if file == [] {
      assert Split(file, SLASH) == [[]];
      if e[0] != SLASH {
        SplitHead(e);
        assert Split(e, SLASH)[0][0] == e[0];
      } else {
        assert |Split(e, SLASH)| >= 2;
      }
    } else if e[0] == file[0] {
      PrefixBySegments(e[1..], file[1..]);
      assert e == [e[0]] + e[1..] && file == [file[0]] + file[1..];
      assert (e + [SLASH])[1..] == e[1..] + [SLASH];
      assert e + [SLASH] <= file <==> e[1..] + [SLASH] <= file[1..];
      if e[0] == SLASH {
        ConsPrefix([], Split(e[1..], SLASH), Split(file[1..], SLASH));
      } else {
        SplitHead(e);
        SplitHead(file);
        HeadPrefix(e[0], Split(e[1..], SLASH), Split(file[1..], SLASH));
      }
    } else {
      assert !(e + [SLASH] <= file) by {
        assert (e + [SLASH])[0] == e[0];
      }
      DifferentHeads(e, file);
    }
  }

  lemma SplitOfEmpty(file: string)
    ensures file == [] || [SLASH] <= file <==> Split([], SLASH) <= Split(file, SLASH)
  {
    if file != [] && file[0] != SLASH {
      SplitHead(file);
    }
  }

  lemma ConsPrefix(x: string, a: seq<string>, b: seq<string>)
    ensures [x] + a <= [x] + b <==> a <= b
  {
    if [x] + a <= [x] + b {
      assert a == ([x] + a)[1..] && b == ([x] + b)[1..];
      forall i | 0 <= i < |a| ensures a[i] == b[i] {
        assert ([x] + a)[i + 1] == ([x] + b)[i + 1];
      }
    }
  }

  lemma HeadPrefix(c: char, a: seq<string>, b: seq<string>)
    requires a != [] && b != []
    ensures [[c] + a[0]] + a[1..] <= [[c] + b[0]] + b[1..] <==> a <= b
  {
    var x, y := [[c] + a[0]] + a[1..], [[c] + b[0]] + b[1..];
    if x <= y {
      assert a[0] == x[0][1..] && b[0] == y[0][1..];
      forall i | 0 <= i < |a| ensures a[i] == b[i] {
        assert x[i] == y[i];
      }
    }
    if a <= b {
      forall i | 0 <= i < |x| ensures x[i] == y[i] {
      }
    }
  }

  lemma DifferentHeads(e: string, file: string)
    requires e != [] && file != [] && e[0] != file[0]
    ensures !(Split(e, SLASH) <= Split(file, SLASH))
  {
    if e[0] != SLASH {
      SplitHead(e);
      assert Split(e, SLASH)[0][0] == e[0];
    }
    if file[0] != SLASH {
      SplitHead(file);
      assert Split(file, SLASH)[0][0] == file[0];
    }
  }

  lemma {:induction false} SplitConcat(a: string, s: string)
    requires SLASH !in a
    ensures Split(a + [SLASH] + s, SLASH) == [a] + Split(s, SLASH)
  {
    if a == [] {
      assert (a + [SLASH] + s)[1..] == s;
    } else {
      var whole := a + [SLASH] + s;
      assert whole[0] == a[0] && whole[1..] == a[1..] + [SLASH] + s;
      SplitConcat(a[1..], s);
      assert a == [a[0]] + a[1..];
      SplitHead(whole);
    }
  }

  lemma {:induction false} SplitPlain(a: string)
    requires SLASH !in a
    ensures Split(a, SLASH) == [a]
  {
    if a != [] {
      SplitPlain(a[1..]);
      assert a == [a[0]] + a[1..];
    }
  }

  /** Joining slash-free segments and splitting again gives the segments back. */
  lemma {:induction false} SplitJoin(parts: seq<string>)
    requires parts != [] && SlashFree(parts)
    ensures Split(Join(parts, SLASH), SLASH) == parts
  {
    if |parts| == 1 {
      SplitPlain(parts[0]);
    } else {
      SplitJoin(parts[1..]);
      SplitConcat(parts[0], Join(parts[1..], SLASH));
      assert parts == [parts[0]] + parts[1..];
    }
  }

  ghost predicate SlashFree(parts: seq<string>) {
    forall i :: 0 <= i < |parts| ==> SLASH !in parts[i]
  }

  lemma {:induction false} RealSegmentsAreSegments(parts: seq<string>)
    requires SlashFree(parts)
    ensures SlashFree(RealSegments(parts))
  {
    if parts != [] {
      var rest := RealSegments(parts[1..]);
      RealSegmentsAreSegments(parts[1..]);
      assert SlashFree([parts[0]] + rest);
      assert [] + rest == rest;
    }
  }

  /** A trailing slash adds one empty segment. */
  lemma {:induction false} SplitTrailingSlash(s: string)
    ensures Split(s + [SLASH], SLASH) == Split(s, SLASH) + [[]]
  {
    if s == [] {
      assert [SLASH][1..] == [];
    } else {
      assert (s + [SLASH])[1..] == s[1..] + [SLASH];
      SplitTrailingSlash(s[1..]);
    }
  }

  /** The segments that count: neither empty nor a single dot. */
  function RealSegments(parts: seq<string>): seq<string> {
    if parts == [] then []
    else (if parts[0] == [] || parts[0] == "." then [] else [parts[0]]) + RealSegments(parts[1..])
  }

  ghost function RealPositions(parts: seq<string>): set<nat> {
    set i | 0 <= i < |parts| && parts[i] != "" && parts[i] != "."
  }

  /** Exactly the segments that are neither empty nor a dot, in order. */
  lemma {:induction false} RealSegmentsFrom(parts: seq<string>) returns (from: seq<nat>)
    ensures Lists(from, |parts|, RealPositions(parts)) && |RealSegments(parts)| == |from|
    ensures forall k :: 0 <= k < |from| ==> from[k] < |parts| && RealSegments(parts)[k] == parts[from[k]]
  {
    from := [];
    if parts != [] {
      var tail := parts[1..];
      var rest := RealSegmentsFrom(tail);
      var first := parts[0] != "" && parts[0] != ".";
      ListsHead(rest, |tail|, RealPositions(tail), RealPositions(parts), first);
      from := (if first then [0] else []) + Shifted(rest);
    }
  }

  /** The normal form has exactly the real segments of the path, and is a dot if there are none. */
  lemma NormalizedExact(p: string) returns (from: seq<nat>)
    ensures
      var parts := Split(p, SLASH);
      && Lists(from, |parts|, RealPositions(parts))
      && if from == [] then Normalized(p) == "."
         else
           && |Split(Normalized(p), SLASH)| == |from|
           && forall k :: 0 <= k < |from| ==> from[k] < |parts| && Split(Normalized(p), SLASH)[k] == parts[from[k]]
  {
    var parts := Split(p, SLASH);
    from := RealSegmentsFrom(parts);
    if from != [] {
      assert SlashFree(parts) by {
        forall i | 0 <= i < |parts| ensures SLASH !in parts[i] {
          assert parts[i] in parts;
        }
      }
      RealSegmentsAreSegments(parts);
      SplitJoin(RealSegments(parts));
    }
  }

  /** The normal form of a relative path: its real segments joined, or a dot if there are none. */
  function Normalized(p: string): string {
    var parts := RealSegments(Split(p, SLASH));
    if parts == [] then "." else Join(parts, SLASH)
  }

  ghost predicate AllReal(parts: seq<string>) {
    forall i :: 0 <= i < |parts| ==> parts[i] != [] && parts[i] != "."
  }

  /** All segments are real: no doubled or trailing slash and no dot segment. */
  ghost predicate Canonical(p: string) {
    AllReal(Split(p, SLASH))
  }

  lemma {:induction false} RealSegmentsOfReal(parts: seq<string>)
    requires AllReal(parts)
    ensures RealSegments(parts) == parts && RealSegments(parts + [[]]) == parts
  {
    if parts != [] {
      assert (parts + [[]])[1..] == parts[1..] + [[]];
      RealSegmentsOfReal(parts[1..]);
    }
  }

  /** A canonical path is its own normal form, also when a trailing slash is added. */
  lemma NormalizedCanonical(p: string)
    requires Canonical(p)
    ensures Normalized(p) == p && Normalized(p + [SLASH]) == p
  {
    RealSegmentsOfReal(Split(p, SLASH));
    JoinSplit(p, SLASH);
    SplitTrailingSlash(p);
  }
}
