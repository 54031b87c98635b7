/** Sorting of names, as the built-in `sorted` does it. */
module Sorting {
  import opened Text

  ghost predicate Sorted(s: seq<string>) {
    forall i, j :: 0 <= i < j < |s| ==> LexLe(s[i], s[j])
  }

  function Insert(x: string, s: seq<string>): seq<string> {
    if s == [] || LexLe(x, s[0]) then [x] + s else [s[0]] + Insert(x, s[1..])
  }

  function SortNames(s: seq<string>): seq<string> {
    if s == [] then [] else Insert(s[0], SortNames(s[1..]))
  }

  lemma {:induction false} InsertSorts(x: string, s: seq<string>)
    requires Sorted(s)
    ensures Sorted(Insert(x, s)) && multiset(Insert(x, s)) == multiset(s) + multiset{x}
  {
    if s == [] {
    } else if LexLe(x, s[0]) {
      forall j | 0 <= j < |s| ensures LexLe(x, s[j]) {
        if j > 0 {
          LexTransitive(x, s[0], s[j]);
        }
      }
    } else {
      var t := Insert(x, s[1..]);
      InsertSorts(x, s[1..]);
      LexTotal(x, s[0]);
      assert s == [s[0]] + s[1..];
      forall j | 0 <= j < |t| ensures LexLe(s[0], t[j]) {
        assert t[j] in multiset(t);
        if t[j] != x {
          assert t[j] in s[1..];
        }
      }
    }
  }

  lemma {:induction false} SortNamesSorts(s: seq<string>)
    ensures Sorted(SortNames(s)) && multiset(SortNames(s)) == multiset(s)
  {
    if s != [] {
      SortNamesSorts(s[1..]);
      InsertSorts(s[0], SortNames(s[1..]));
      assert s == [s[0]] + s[1..];
    }
  }
}
