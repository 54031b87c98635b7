/** The string operations of the modelled program, on sequences of characters. */
module Text {

  predicate EndsWith(s: string, suffix: string) {
    |suffix| <= |s| && s[|s| - |suffix|..] == suffix
  }

  predicate Contains(s: string, part: string) {
    exists i :: 0 <= i <= |s| && part <= s[i..]
  }

  /** A text that ends in `suffix` is something followed by it. */
  lemma EndsWithExact(s: string, suffix: string)
    ensures EndsWith(s, suffix) <==> exists front :: s == front + suffix
  {
    if EndsWith(s, suffix) {
      assert s == s[..|s| - |suffix|] + suffix;
    }
    if front :| s == front + suffix {
      assert s[|s| - |suffix|..] == suffix;
    }
  }

  /** A text that contains `part` has it somewhere between a front and a back. */
  lemma ContainsExact(s: string, part: string)
    ensures Contains(s, part) <==> exists front, back :: s == front + part + back
  {
    if Contains(s, part) {
      var i :| 0 <= i <= |s| && part <= s[i..];
      assert s == s[..i] + part + s[i + |part|..];
    }
    if front, back :| s == front + part + back {
      assert part <= s[|front|..];
    }
  }

  /** Lower case, for the letters A to Z. */
  function Lower(s: string): (r: string)
    ensures |r| == |s|
    ensures forall i :: 0 <= i < |s| ==> !('A' <= r[i] <= 'Z') && (r[i] != s[i] ==> 'a' <= r[i] <= 'z')
    ensures forall i :: 0 <= i < |s| ==> s[i] == r[i] || s[i] as int == r[i] as int - 'a' as int + 'A' as int
  {
    seq(|s|, i requires 0 <= i < |s| => if 'A' <= s[i] <= 'Z' then (s[i] as int + 32) as char else s[i])
  }

  /** White space as `str.isspace` defines it. */
  predicate IsSpace(c: char) {
    var k := c as int;
    || 0x09 <= k <= 0x0D || 0x1C <= k <= 0x20 || k == 0x85 || k == 0xA0 || k == 0x1680
    || 0x2000 <= k <= 0x200A || k == 0x2028 || k == 0x2029 || k == 0x202F || k == 0x205F || k == 0x3000
  }

  function StripLeft(s: string): (r: string)
    ensures r != [] ==> !IsSpace(r[0])
  {
    if s != [] && IsSpace(s[0]) then StripLeft(s[1..]) else s
  }

  function StripRight(s: string): (r: string)
    ensures r != [] ==> !IsSpace(r[|r| - 1])
    ensures r <= s
  {
    if s != [] && IsSpace(s[|s| - 1]) then StripRight(s[..|s| - 1]) else s
  }

  /** Removes white space at both ends. */
  function Strip(s: string): string {
    StripRight(StripLeft(s))
  }

  ghost predicate AllSpace(s: string) {
    forall i :: 0 <= i < |s| ==> IsSpace(s[i])
  }

  /** `t` is `s` without the white space around it. */
  ghost predicate IsStripped(s: string, t: string) {
    && (exists left, right :: IsPadded(s, left, t, right))
    && (t != [] ==> !IsSpace(t[0]) && !IsSpace(t[|t| - 1]))
  }

  ghost predicate IsPadded(s: string, left: string, t: string, right: string) {
    s == left + t + right && AllSpace(left) && AllSpace(right)
  }

  lemma {:induction false} StripLeftPads(s: string) returns (left: string)
    ensures s == left + StripLeft(s) && AllSpace(left)
  {
    left := [];
    if s != [] && IsSpace(s[0]) {
      var rest := StripLeftPads(s[1..]);
      left := [s[0]] + rest;
      assert s == [s[0]] + s[1..];
    }
  }

  lemma {:induction false} StripRightPads(s: string) returns (right: string)
    ensures s == StripRight(s) + right && AllSpace(right)
  {
    right := [];
    if s != [] && IsSpace(s[|s| - 1]) {
      var rest := StripRightPads(s[..|s| - 1]);
      right := rest + [s[|s| - 1]];
      assert s == s[..|s| - 1] + [s[|s| - 1]];
    }
  }

  /** Stripping removes exactly the white space around a text. */
  lemma StripStrips(s: string)
    ensures IsStripped(s, Strip(s))
  {
    var left := StripLeftPads(s);
    var right := StripRightPads(StripLeft(s));
    assert IsPadded(s, left, Strip(s), right);
    var t := Strip(s);
    if t != [] {
      assert t[0] == StripLeft(s)[0];
    }
  }

  /** The pieces of `s` between occurrences of `sep`; always at least one piece. */
  function Split(s: string, sep: char): (parts: seq<string>)
    ensures parts != []
    ensures forall p :: p in parts ==> sep !in p
  {
    if s == [] then [[]]
    else if s[0] == sep then [[]] + Split(s[1..], sep)
    else
      var rest := Split(s[1..], sep);
      [[s[0]] + rest[0]] + rest[1..]
  }

  /** The pieces with `sep` between neighbours. */
  function Join(parts: seq<string>, sep: char): string {
    if parts == [] then []
    else if |parts| == 1 then parts[0]
    else parts[0] + [sep] + Join(parts[1..], sep)
  }

  /** The pieces, joined again, are the text. */
  lemma {:induction false} JoinSplit(s: string, sep: char)
    ensures Join(Split(s, sep), sep) == s
  {
    if s != [] {
      var rest := Split(s[1..], sep);
      JoinSplit(s[1..], sep);
      assert s == [s[0]] + s[1..];
      if s[0] == sep {
        assert ([[]] + rest)[1..] == rest;
      } else {
        var parts := [[s[0]] + rest[0]] + rest[1..];
        assert parts[1..] == rest[1..];
      }
    }
  }

  /** Character-wise dictionary order. */
  predicate LexLe(a: string, b: string) {
    a == [] || (b != [] && (a[0] < b[0] || (a[0] == b[0] && LexLe(a[1..], b[1..]))))
  }

  lemma LexTotal(a: string, b: string)
    ensures LexLe(a, b) || LexLe(b, a)
  {
  }

  lemma {:induction false} LexTransitive(a: string, b: string, c: string)
    requires LexLe(a, b) && LexLe(b, c)
    ensures LexLe(a, c)
  {
    if a != [] && a[0] == b[0] == c[0] {
      LexTransitive(a[1..], b[1..], c[1..]);
    }
  }

  /** The texts agree before position k and `a` has the smaller character there. */
  ghost predicate DiffersAt(a: string, b: string, k: nat) {
    k < |a| && k < |b| && (forall i :: 0 <= i < k ==> a[i] == b[i]) && a[k] < b[k]
  }

  lemma DiffersTail(a: string, b: string, k: nat)
    requires a != [] && b != [] && a[0] == b[0]
    ensures DiffersAt(a, b, k + 1) <==> DiffersAt(a[1..], b[1..], k)
  {
    if DiffersAt(a[1..], b[1..], k) {
      forall i | 0 <= i < k + 1 ensures a[i] == b[i] {
        assert i > 0 ==> a[i] == a[1..][i - 1] && b[i] == b[1..][i - 1];
      }
    }
  }

  /** The first difference decides, and a text comes after its beginnings. */
  lemma {:induction false} LexLeExact(a: string, b: string)
    ensures LexLe(a, b) <==> a <= b || exists k: nat :: DiffersAt(a, b, k)
  {
    if a != [] && b != [] {
      if a[0] == b[0] {
        LexLeExact(a[1..], b[1..]);
        assert a <= b <==> a[1..] <= b[1..] by {
          assert a == [a[0]] + a[1..] && b == [b[0]] + b[1..];
        }
        if k: nat :| DiffersAt(a[1..], b[1..], k) {
          DiffersTail(a, b, k);
        }
        if k: nat :| DiffersAt(a, b, k) {
          DiffersTail(a, b, k - 1);
        }
      } else {
        assert a[0] < b[0] ==> DiffersAt(a, b, 0);
        assert forall k: nat :: DiffersAt(a, b, k) ==> k == 0;
      }
    }
  }
}
