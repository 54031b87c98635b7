/** The checker for named START and END block markers. */
module CanonBlocks {
  import opened Text

  const START_MARK := "#START_BLOCK_"
  const END_MARK := "#END_BLOCK_"

  datatype Token = Open(name: string) | Close(name: string)

  /** What a line means to the checker. A marker without a name makes it raise. */
  datatype LineKind = Plain | Marker(token: Token) | Nameless

  /** A block still open: its name and the line that opened it. */
  datatype OpenBlock = OpenBlock(name: string, line: nat)

  datatype Violation =
    | EndWithoutStart(line: nat, name: string)
    | MismatchedBlocks(line: nat, startName: string, startLine: nat, endName: string)
    | UnclosedStart(line: nat, name: string)

  datatype CheckResult = Checked(violations: seq<Violation>) | Raised

  /** The text before the first occurrence of `sep`. */
  function UpTo(s: string, sep: string): string {
    if s == [] || sep <= s then [] else [s[0]] + UpTo(s[1..], sep)
  }

  function WordFrom(s: string): string {
    if s == [] || IsSpace(s[0]) then [] else [s[0]] + WordFrom(s[1..])
  }

  /** The first word of the text, empty if it has none. */
  function FirstWord(s: string): string {
    WordFrom(StripLeft(s))
  }

  /** The name after a mark at the start of a stripped line. */
  function NameAfter(stripped: string, mark: string): string
    requires mark <= stripped
  {
    FirstWord(UpTo(stripped[|mark|..], mark))
  }

  function Classify(line: string): LineKind {
    var stripped := Strip(line);
    if START_MARK <= stripped then
      var name := NameAfter(stripped, START_MARK);
      if name == [] then Nameless else Marker(Open(name))
    else if END_MARK <= stripped then
      var name := NameAfter(stripped, END_MARK);
      if name == [] then Nameless else Marker(Close(name))
    else Plain
  }

  /** What each line means. */
  function Kinds(lines: seq<string>): seq<LineKind> {
    seq(|lines|, i requires 0 <= i < |lines| => Classify(lines[i]))
  }

  /** The markers, in order. */
  function Tokens(kinds: seq<LineKind>): seq<Token> {
    if kinds == [] then []
    else (if kinds[0].Marker? then [kinds[0].token] else []) + Tokens(kinds[1..])
  }

  predicate IsNameless(line: string) {
    Classify(line).Nameless?
  }

  /** The stripped line is the mark alone, or the mark and then white space up to the same mark again. */
  ghost predicate BareMark(stripped: string, mark: string) {
    mark <= stripped && IsBlankUpTo(stripped[|mark|..], mark)
  }

  /** White space up to the end or up to an occurrence of the mark. */
  ghost predicate IsBlankUpTo(text: string, mark: string) {
    exists k :: 0 <= k <= |text| && BlankAndThen(text, mark, k)
  }

  ghost predicate BlankAndThen(text: string, mark: string, k: nat)
    requires k <= |text|
  {
    (forall i :: 0 <= i < k ==> IsSpace(text[i])) && (k == |text| || mark <= text[k..])
  }

  /** Some line starts with a mark and has no name. */
  ghost predicate HasNameless(lines: seq<string>) {
    exists k :: 0 <= k < |lines| && (BareMark(Strip(lines[k]), START_MARK) || BareMark(Strip(lines[k]), END_MARK))
  }

  lemma BlankTail(text: string, mark: string, k: nat)
    requires text != [] && IsSpace(text[0]) && k < |text|
    ensures BlankAndThen(text, mark, k + 1) <==> BlankAndThen(text[1..], mark, k)
  {
    var tail := text[1..];
    assert text[k + 1..] == tail[k..];
    if forall i :: 0 <= i < k ==> IsSpace(tail[i]) {
      forall i | 0 <= i < k + 1 ensures IsSpace(text[i]) {
        assert i > 0 ==> text[i] == tail[i - 1];
      }
    }
    assert forall i :: 0 <= i < k ==> tail[i] == text[i + 1];
  }

  lemma BlankHead(text: string, mark: string)
    requires text != [] && !(mark <= text)
    ensures IsBlankUpTo(text, mark) <==> IsSpace(text[0]) && IsBlankUpTo(text[1..], mark)
  {
    var tail := text[1..];
    assert text[0..] == text && !BlankAndThen(text, mark, 0);
    if IsBlankUpTo(text, mark) {
      var k :| 0 <= k <= |text| && BlankAndThen(text, mark, k);
      BlankTail(text, mark, k - 1);
    }
    if IsSpace(text[0]) && IsBlankUpTo(tail, mark) {
      var k :| 0 <= k <= |tail| && BlankAndThen(tail, mark, k);
      BlankTail(text, mark, k);
    }
  }

  /** There is no word before the mark exactly when there is only white space. */
  lemma {:induction false} NoWordUpTo(text: string, mark: string)
    ensures FirstWord(UpTo(text, mark)) == [] <==> IsBlankUpTo(text, mark)
  {
    if text == [] || mark <= text {
      assert text[0..] == text;
      assert BlankAndThen(text, mark, 0);
    } else {
      BlankHead(text, mark);
      assert UpTo(text, mark)[1..] == UpTo(text[1..], mark);
      NoWordUpTo(text[1..], mark);
    }
  }

  // ----- The name of a marker, read off the text

  /** The text goes no further, or goes on with white space or with the mark. */
  predicate IsBoundary(rest: string, mark: string) {
    rest == [] || IsSpace(rest[0]) || mark <= rest
  }

  /** The text starts with `word`: no white space and no mark within it, and a boundary after it. */
  ghost predicate StartsWithWord(text: string, mark: string, word: string) {
    && word <= text && IsBoundary(text[|word|..], mark)
    && (forall i :: 0 <= i < |word| ==> !IsSpace(word[i]))
    && forall i :: 0 <= i < |word| ==> !(mark <= text[i..])
  }

  /** After white space, in which no mark starts, comes the name, as a whole word. */
  ghost predicate IsNamed(text: string, mark: string, name: string) {
    name != [] && exists k :: 0 <= k <= |text| && NameAt(text, mark, name, k)
  }

  ghost predicate NameAt(text: string, mark: string, name: string, k: nat)
    requires k <= |text|
  {
    && AllSpace(text[..k]) && (forall i :: 0 <= i < k ==> !(mark <= text[i..]))
    && StartsWithWord(text[k..], mark, name)
  }

  lemma {:induction false} WordExact(text: string, mark: string, word: string)
    requires mark != []
    ensures WordFrom(UpTo(text, mark)) == word <==> StartsWithWord(text, mark, word)
  {
    if text == [] || mark <= text || IsSpace(text[0]) {
      assert text[0..] == text;
      assert word != [] && word <= text ==> word[0] == text[0];
    } else if word == [] {
      assert text[0..] == text;
    } else {
      WordExactHead(text, mark, word);
      WordExact(text[1..], mark, word[1..]);
      assert UpTo(text, mark)[1..] == UpTo(text[1..], mark);
      assert word == [word[0]] + word[1..];
    }
  }

  lemma WordExactHead(text: string, mark: string, word: string)
    requires text != [] && !(mark <= text) && !IsSpace(text[0]) && word != []
    ensures StartsWithWord(text, mark, word) <==> word[0] == text[0] && StartsWithWord(text[1..], mark, word[1..])
  {
    var tail, rest := text[1..], word[1..];
    assert word == [word[0]] + rest && text == [text[0]] + tail;
    assert word <= text <==> word[0] == text[0] && rest <= tail;
    if rest <= tail {
      assert text[|word|..] == tail[|rest|..];
    }
    assert text[0..] == text;
    forall i | 0 <= i < |rest| && i < |tail| ensures tail[i..] == text[i + 1..] {
    }
    if StartsWithWord(text, mark, word) {
      forall i | 0 <= i < |rest| ensures !IsSpace(rest[i]) && !(mark <= tail[i..]) {
        assert rest[i] == word[i + 1];
      }
    }
    if word[0] == text[0] && StartsWithWord(tail, mark, rest) {
      forall i | 0 <= i < |word| ensures !IsSpace(word[i]) && !(mark <= text[i..]) {
        if i > 0 {
          assert word[i] == rest[i - 1] && tail[i - 1..] == text[i..];
        }
      }
    }
  }

  lemma NameAtTail(text: string, mark: string, name: string, k: nat)
    requires text != [] && !(mark <= text) && IsSpace(text[0]) && k < |text|
    ensures NameAt(text, mark, name, k + 1) <==> NameAt(text[1..], mark, name, k)
  {
    var tail := text[1..];
    assert text[0..] == text && text[k + 1..] == tail[k..];
    assert text[..k + 1] == [text[0]] + tail[..k];
    assert AllSpace(text[..k + 1]) <==> AllSpace(tail[..k]) by {
      assert forall i :: 0 <= i < k ==> text[..k + 1][i + 1] == tail[..k][i];
    }
    assert forall i :: 0 <= i < k ==> text[i + 1..] == tail[i..];
    if forall i :: 0 <= i < k ==> !(mark <= tail[i..]) {
      forall i | 0 <= i < k + 1 ensures !(mark <= text[i..]) {
        assert i > 0 ==> text[i..] == tail[i - 1..];
      }
    }
  }

  lemma NameAtHead(text: string, mark: string, name: string)
    requires text != [] && !(mark <= text) && IsSpace(text[0])
    ensures IsNamed(text, mark, name) <==> IsNamed(text[1..], mark, name)
  {
    assert text[0..] == text;
    assert name != [] ==> !NameAt(text, mark, name, 0) by {
      assert name != [] && name <= text ==> name[0] == text[0];
    }
    if IsNamed(text, mark, name) {
      var k :| 0 <= k <= |text| && NameAt(text, mark, name, k);
      NameAtTail(text, mark, name, k - 1);
    }
    if IsNamed(text[1..], mark, name) {
      var k :| 0 <= k <= |text[1..]| && NameAt(text[1..], mark, name, k);
      NameAtTail(text, mark, name, k);
    }
  }

  lemma NoNameAtMark(text: string, mark: string, name: string)
    requires name != [] && (text == [] || mark <= text)
    ensures !IsNamed(text, mark, name)
  {
    assert text[0..] == text;
    forall k | 0 <= k <= |text| ensures !NameAt(text, mark, name, k) {
      assert text[k..][0..] == text[k..];
    }
  }

  lemma NameAtOnce(text: string, mark: string, name: string)
    requires name != [] && text != [] && !IsSpace(text[0])
    ensures IsNamed(text, mark, name) <==> StartsWithWord(text, mark, name)
  {
    assert text[0..] == text && text[..0] == [];
    forall k | 0 < k <= |text| ensures !NameAt(text, mark, name, k) {
      assert text[..k][0] == text[0];
    }
    assert NameAt(text, mark, name, 0) <==> StartsWithWord(text, mark, name);
  }

  /** The first word before the mark is exactly the whole word that the text gives as the name. */
  lemma {:induction false} NameExact(text: string, mark: string, name: string)
    requires mark != [] && name != []
    ensures FirstWord(UpTo(text, mark)) == name <==> IsNamed(text, mark, name)
  {
    if text == [] || mark <= text {
      NoNameAtMark(text, mark, name);
    } else if IsSpace(text[0]) {
      NameAtHead(text, mark, name);
      assert UpTo(text, mark)[1..] == UpTo(text[1..], mark);
      NameExact(text[1..], mark, name);
    } else {
      WordExact(text, mark, name);
      NameAtOnce(text, mark, name);
    }
  }

  /** The stripped line is the mark and then, after white space perhaps, the name as a whole word. */
  ghost predicate IsMarker(stripped: string, mark: string, name: string) {
    mark <= stripped && IsNamed(stripped[|mark|..], mark, name)
  }

  /** Which lines open and close a block, and with which name. */
  lemma MarkerByText(line: string, name: string)
    ensures Classify(line) == Marker(Open(name)) <==> IsMarker(Strip(line), START_MARK, name)
    ensures Classify(line) == Marker(Close(name)) <==> IsMarker(Strip(line), END_MARK, name)
  {
    var stripped := Strip(line);
    if name != [] {
      if START_MARK <= stripped {
        NameExact(stripped[|START_MARK|..], START_MARK, name);
        assert stripped[1] == 'S';
      } else if END_MARK <= stripped {
        NameExact(stripped[|END_MARK|..], END_MARK, name);
      }
    }
  }

  lemma NamelessByText(line: string)
    ensures IsNameless(line) <==> BareMark(Strip(line), START_MARK) || BareMark(Strip(line), END_MARK)
  {
    var stripped := Strip(line);
    if START_MARK <= stripped {
      NoWordUpTo(stripped[|START_MARK|..], START_MARK);
      assert stripped[1] == 'S';
    } else if END_MARK <= stripped {
      NoWordUpTo(stripped[|END_MARK|..], END_MARK);
    }
  }

  /** A file that holds nothing but a start mark makes the checker raise. */
  lemma BareMarkRaises()
    ensures HasNameless(Split(START_MARK, '\n'))
  {
    OneLine(START_MARK);
    MarkRaises(START_MARK, Split(START_MARK, '\n'));
  }

  lemma MarkRaises(mark: string, lines: seq<string>)
    requires lines == [mark] && mark != [] && !IsSpace(mark[0]) && !IsSpace(mark[|mark| - 1])
    requires mark == START_MARK || mark == END_MARK
    ensures HasNameless(lines)
  {
    StripsToItself(mark);
    MarkIsBare(mark);
    assert lines[0] == mark;
  }

  lemma MarkIsBare(mark: string)
    ensures BareMark(mark, mark)
  {
    assert BlankAndThen(mark[|mark|..], mark, 0);
  }

  lemma StripsToItself(s: string)
    requires s != [] && !IsSpace(s[0]) && !IsSpace(s[|s| - 1])
    ensures Strip(s) == s
  {
  }

  lemma {:induction false} OneLine(s: string)
    requires '\n' !in s
    ensures Split(s, '\n') == [s]
  {
    if s != [] {
      OneLine(s[1..]);
      assert s == [s[0]] + s[1..];
    }
  }

  /** None of the first n lines is a marker without a name. */
  ghost predicate NamedUpTo(lines: seq<string>, n: nat)
    requires n <= |lines|
  {
    forall k {:trigger IsNameless(lines[k])} :: 0 <= k < n ==> !IsNameless(lines[k])
  }

  /** The grammar of well-nested blocks: nothing, or a named block around blocks, followed by blocks. */
  ghost predicate Nested(w: seq<Token>)
    decreases |w|
  {
    w == [] || exists k: nat :: SplitsAt(w, k) && Nested(w[1..k]) && Nested(w[k + 1..])
  }

  /** The first block of `w` opens at 0 and closes at k. */
  ghost predicate SplitsAt(w: seq<Token>, k: nat) {
    1 <= k < |w| && w[0].Open? && w[k] == Close(w[0].name)
  }

  /** The word closes exactly the open blocks of `stack`, innermost last, with matching names all along. */
  ghost predicate Clean(stack: seq<string>, w: seq<Token>)
    decreases |w|
  {
    if w == [] then stack == []
    else if w[0].Open? then Clean(stack + [w[0].name], w[1..])
    else stack != [] && stack[|stack| - 1] == w[0].name && Clean(stack[..|stack| - 1], w[1..])
  }

  lemma OpenStep(stack: seq<string>, n: string, rest: seq<Token>)
    ensures Clean(stack, [Open(n)] + rest) <==> Clean(stack + [n], rest)
  {
    assert ([Open(n)] + rest)[1..] == rest;
  }

  lemma CloseStep(stack: seq<string>, n: string, m: string, rest: seq<Token>)
    ensures Clean(stack + [n], [Close(m)] + rest) <==> n == m && Clean(stack, rest)
  {
    assert ([Close(m)] + rest)[1..] == rest;
    assert (stack + [n])[..|stack|] == stack;
  }

  lemma Regroup(x: seq<Token>, a: seq<Token>, y: seq<Token>, b: seq<Token>)
    ensures x + (a + y + b) == x + a + y + b
  {
  }

  lemma RegroupLast(x: seq<Token>, b: seq<Token>, y: seq<Token>, last: seq<Token>)
    ensures x + (b + y + last) == x + b + y + last
  {
  }

  lemma RegroupTail(x: seq<Token>, a: seq<Token>, y: seq<Token>, b: seq<Token>, rest: seq<Token>)
    ensures x + (a + (y + b)) + rest == x + (a + (y + (b + rest)))
  {
  }

  /** A non-empty nested word starts with a block. */
  lemma NestedParts(w: seq<Token>) returns (n: string, a: seq<Token>, b: seq<Token>)
    requires Nested(w) && w != []
    ensures w == [Open(n)] + (a + ([Close(n)] + b)) && Nested(a) && Nested(b)
  {
    var k: nat :| SplitsAt(w, k) && Nested(w[1..k]) && Nested(w[k + 1..]);
    n, a, b := w[0].name, w[1..k], w[k + 1..];
  }

  /** A nested word leaves the stack as it was. */
  lemma {:induction false} NestedIsNeutral(stack: seq<string>, w: seq<Token>, rest: seq<Token>)
    requires Nested(w)
    ensures Clean(stack, w + rest) <==> Clean(stack, rest)
    decreases |w|
  {
    if w == [] {
      assert w + rest == rest;
    } else {
      var n, a, b := NestedParts(w);
      RegroupTail([Open(n)], a, [Close(n)], b, rest);
      OpenStep(stack, n, a + ([Close(n)] + (b + rest)));
      NestedIsNeutral(stack + [n], a, [Close(n)] + (b + rest));
      CloseStep(stack, n, n, b + rest);
      NestedIsNeutral(stack, b, rest);
    }
  }

  /** A block around a nested word, followed by a nested word, is nested. */
  lemma NestedBlock(n: string, a: seq<Token>, b: seq<Token>)
    requires Nested(a) && Nested(b)
    ensures Nested([Open(n)] + a + [Close(n)] + b)
  {
    var w, k := [Open(n)] + a + [Close(n)] + b, |a| + 1;
    assert w[1..k] == a && w[k + 1..] == b;
    assert SplitsAt(w, k);
  }

  /** A word that closes the innermost block does so after a nested word. */
  lemma {:induction false} CleanSplits(stack: seq<string>, n: string, w: seq<Token>)
    returns (inside: seq<Token>, rest: seq<Token>)
    requires Clean(stack + [n], w)
    ensures w == inside + [Close(n)] + rest && Nested(inside) && Clean(stack, rest)
    decreases |w|
  {
    var open := stack + [n];
    if w[0].Close? {
      assert open[..|open| - 1] == stack;
      inside, rest := [], w[1..];
      assert w == [w[0]] + w[1..];
    } else {
      var m := w[0].name;
      var a, after := CleanSplits(open, m, w[1..]);
      var b, last := CleanSplits(stack, n, after);
      inside, rest := [Open(m)] + a + [Close(m)] + b, last;
      NestedBlock(m, a, b);
      assert w == [Open(m)] + w[1..];
      Regroup([Open(m)], a, [Close(m)], b + [Close(n)] + last);
      RegroupLast([Open(m)] + a + [Close(m)], b, [Close(n)], last);
    }
  }

  lemma {:induction false} CleanIsNested(w: seq<Token>)
    requires Clean([], w)
    ensures Nested(w)
    decreases |w|
  {
    if w != [] {
      var n, tail := w[0].name, w[1..];
      assert w == [Open(n)] + tail;
      OpenStep([], n, tail);
      var inside, rest := CleanSplits([], n, tail);
      CleanIsNested(rest);
      NestedBlock(n, inside, rest);
      Regroup([Open(n)], inside, [Close(n)], rest);
    }
  }

  /** The stack discipline accepts exactly the well-nested words. */
  lemma CleanIffNested(w: seq<Token>)
    ensures Clean([], w) <==> Nested(w)
  {
    if Nested(w) {
      NestedIsNeutral([], w, []);
      assert w + [] == w;
    }
    if Clean([], w) {
      CleanIsNested(w);
    }
  }

  // ----- The report

  function Names(stack: seq<OpenBlock>): seq<string> {
    seq(|stack|, i requires 0 <= i < |stack| => stack[i].name)
  }

  /** One violation for every block still open, outermost first. */
  function Unclosed(stack: seq<OpenBlock>): seq<Violation> {
    seq(|stack|, i requires 0 <= i < |stack| => UnclosedStart(stack[i].line, stack[i].name))
  }

  /** What closing a block reports when `stack` holds the names and lines of the open blocks. */
  function CloseReport(stack: seq<OpenBlock>, line: nat, name: string): seq<Violation> {
    if stack == [] then [EndWithoutStart(line, name)]
    else
      var OpenBlock(startName, startLine) := stack[|stack| - 1];
      if startName != name then [MismatchedBlocks(line, startName, startLine, name)] else []
  }

  /** The stack after closing a block: the innermost block goes, whatever its name. */
  function Popped(stack: seq<OpenBlock>): seq<OpenBlock> {
    if stack == [] then [] else stack[..|stack| - 1]
  }

  /** The report on the lines from `at` on. */
  function Report(kinds: seq<LineKind>, at: nat, stack: seq<OpenBlock>): seq<Violation>
    requires at <= |kinds|
    decreases |kinds| - at
  {
    if at == |kinds| then Unclosed(stack)
    else
      match kinds[at]
      case Marker(Open(name)) => Report(kinds, at + 1, stack + [OpenBlock(name, at + 1)])
      case Marker(Close(name)) => CloseReport(stack, at + 1, name) + Report(kinds, at + 1, Popped(stack))
      case _ => Report(kinds, at + 1, stack)
  }

  /** One line of the report. */
  lemma ReportStep(kinds: seq<LineKind>, at: nat, stack: seq<OpenBlock>, kind: LineKind, report: seq<Violation>)
    requires at < |kinds| && kind == kinds[at] && report == Report(kinds, at, stack)
    ensures !kind.Marker? ==> report == Report(kinds, at + 1, stack)
    ensures kind.Marker? && kind.token.Open? ==>
      report == Report(kinds, at + 1, stack + [OpenBlock(kind.token.name, at + 1)])
    ensures kind.Marker? && kind.token.Close? ==>
      report == CloseReport(stack, at + 1, kind.token.name) + Report(kinds, at + 1, Popped(stack))
  {
  }

  lemma CleanOpen(stack: seq<OpenBlock>, name: string, line: nat, rest: seq<Token>)
    ensures Clean(Names(stack), [Open(name)] + rest) <==> Clean(Names(stack + [OpenBlock(name, line)]), rest)
  {
    assert Names(stack + [OpenBlock(name, line)]) == Names(stack) + [name];
    OpenStep(Names(stack), name, rest);
  }

  lemma CleanClose(stack: seq<OpenBlock>, line: nat, name: string, rest: seq<Token>)
    ensures Clean(Names(stack), [Close(name)] + rest) <==>
      CloseReport(stack, line, name) == [] && Clean(Names(Popped(stack)), rest)
  {
    assert ([Close(name)] + rest)[1..] == rest;
    if stack != [] {
      var below := stack[..|stack| - 1];
      assert Names(stack) == Names(below) + [stack[|stack| - 1].name];
      CloseStep(Names(below), stack[|stack| - 1].name, name, rest);
    }
  }

  lemma TokensStep(kinds: seq<LineKind>, i: nat)
    requires i < |kinds|
    ensures
      var kind, rest := kinds[i], Tokens(kinds[i + 1..]);
      Tokens(kinds[i..]) == if kind.Marker? then [kind.token] + rest else rest
  {
    assert kinds[i..][1..] == kinds[i + 1..];
  }

  /** Nothing is reported exactly when the remaining markers close the open blocks cleanly. */
  lemma {:induction false} ReportIffClean(kinds: seq<LineKind>, at: nat, stack: seq<OpenBlock>)
    requires at <= |kinds|
    ensures Report(kinds, at, stack) == [] <==> Clean(Names(stack), Tokens(kinds[at..]))
    decreases |kinds| - at
  {
    if at == |kinds| {
      assert kinds[at..] == [];
      assert |Unclosed(stack)| == |Names(stack)|;
    } else {
      var kind, report, rest := kinds[at], Report(kinds, at, stack), Tokens(kinds[at + 1..]);
      TokensStep(kinds, at);
      ReportStep(kinds, at, stack, kind, report);
      match kind
      case Marker(Open(name)) =>
        CleanOpen(stack, name, at + 1, rest);
        ReportIffClean(kinds, at + 1, stack + [OpenBlock(name, at + 1)]);
      case Marker(Close(name)) =>
        CleanClose(stack, at + 1, name, rest);
        ReportIffClean(kinds, at + 1, Popped(stack));
      case _ =>
        ReportIffClean(kinds, at + 1, stack);
    }
  }

  /** The report is empty exactly when the markers are well nested with matching names. */
  lemma NoViolationIffNested(kinds: seq<LineKind>)
    ensures Report(kinds, 0, []) == [] <==> Nested(Tokens(kinds))
  {
    ReportIffClean(kinds, 0, []);
    CleanIffNested(Tokens(kinds));
    assert kinds[0..] == kinds;
  }

  // ----- What is reported, in terms of the lines alone

  predicate OpensAt(kinds: seq<LineKind>, k: nat, name: string) {
    k < |kinds| && kinds[k] == Marker(Open(name))
  }

  predicate ClosesAt(kinds: seq<LineKind>, k: nat, name: string) {
    k < |kinds| && kinds[k] == Marker(Close(name))
  }

  /** How many more blocks the lines from `from` up to `to` open than close. */
  ghost function Depth(kinds: seq<LineKind>, from: nat, to: nat): int
    requires from <= to <= |kinds|
  {
    if from == to then 0 else Depth(kinds, from, to - 1) + DepthOf(kinds[to - 1])
  }

  ghost function DepthOf(kind: LineKind): int {
    match kind
    case Marker(Open(_)) => 1
    case Marker(Close(_)) => -1
    case _ => 0
  }

  /** Line k opens a block that the lines before line n leave open. */
  ghost predicate IsPending(kinds: seq<LineKind>, k: nat, n: nat)
    requires n <= |kinds|
  {
    k < n && kinds[k].Marker? && kinds[k].token.Open?
    && forall m :: k < m <= n ==> Depth(kinds, k, m) >= 1
  }

  /** The end marker in line l belongs to the start marker in line k: between them every block that opens closes. */
  ghost predicate AreMates(kinds: seq<LineKind>, k: nat, l: nat)
    requires l <= |kinds|
  {
    IsPending(kinds, k, l) && Depth(kinds, k, l) == 1
  }

  ghost predicate HasMate(kinds: seq<LineKind>, l: nat)
    requires l <= |kinds|
  {
    exists k :: 0 <= k < l && AreMates(kinds, k, l)
  }

  /** What deserves to be reported. Lines are counted from 1. */
  ghost predicate Deserved(kinds: seq<LineKind>, v: Violation) {
    && 1 <= v.line <= |kinds|
    && match v
       case EndWithoutStart(line, name) => ClosesAt(kinds, line - 1, name) && !HasMate(kinds, line - 1)
       case MismatchedBlocks(line, startName, startLine, endName) =>
         && 1 <= startLine && ClosesAt(kinds, line - 1, endName) && OpensAt(kinds, startLine - 1, startName)
         && AreMates(kinds, startLine - 1, line - 1) && startName != endName
       case UnclosedStart(line, name) => OpensAt(kinds, line - 1, name) && IsPending(kinds, line - 1, |kinds|)
  }

  /** `stack` holds the blocks that the first n lines leave open, outermost first. */
  ghost predicate HoldsPending(kinds: seq<LineKind>, n: nat, stack: seq<OpenBlock>)
    requires n <= |kinds|
  {
    && (forall i :: 0 <= i < |stack| ==> EntryOk(kinds, n, stack, i))
    && (forall i, j :: 0 <= i < j < |stack| ==> stack[i].line < stack[j].line)
    && forall k :: 0 <= k < n && IsPending(kinds, k, n) ==> OnStack(stack, k)
  }

  ghost predicate OnStack(stack: seq<OpenBlock>, k: nat) {
    exists i :: 0 <= i < |stack| && stack[i].line == k + 1
  }

  ghost predicate EntryOk(kinds: seq<LineKind>, n: nat, stack: seq<OpenBlock>, i: nat)
    requires n <= |kinds| && i < |stack|
  {
    var b := stack[i];
    && 1 <= b.line <= n && OpensAt(kinds, b.line - 1, b.name) && IsPending(kinds, b.line - 1, n)
    && Depth(kinds, b.line - 1, n) == |stack| - i
  }

  lemma PendingStep(kinds: seq<LineKind>, k: nat, n: nat)
    requires k < n < |kinds|
    ensures Depth(kinds, k, n + 1) == Depth(kinds, k, n) + DepthOf(kinds[n])
    ensures IsPending(kinds, k, n + 1) <==> IsPending(kinds, k, n) && Depth(kinds, k, n) + DepthOf(kinds[n]) >= 1
  {
  }

  lemma LastPending(kinds: seq<LineKind>, n: nat)
    requires n < |kinds|
    ensures IsPending(kinds, n, n + 1) <==> kinds[n].Marker? && kinds[n].token.Open?
    ensures Depth(kinds, n, n + 1) == DepthOf(kinds[n])
  {
    assert Depth(kinds, n, n + 1) == Depth(kinds, n, n) + DepthOf(kinds[n]);
  }

  lemma OpenKeepsPending(kinds: seq<LineKind>, n: nat, stack: seq<OpenBlock>, name: string)
    requires n < |kinds| && HoldsPending(kinds, n, stack) && OpensAt(kinds, n, name)
    ensures HoldsPending(kinds, n + 1, stack + [OpenBlock(name, n + 1)])
  {
    var more, next := stack + [OpenBlock(name, n + 1)], n + 1;
    LastPending(kinds, n);
    forall i, j | 0 <= i < j < |more| ensures more[i].line < more[j].line {
      assert EntryOk(kinds, n, stack, i);
    }
    forall i | 0 <= i < |more| ensures EntryOk(kinds, next, more, i) {
      if i < |stack| {
        assert EntryOk(kinds, n, stack, i);
        PendingStep(kinds, stack[i].line - 1, n);
      }
    }
    forall k | 0 <= k < n + 1 && IsPending(kinds, k, n + 1) ensures OnStack(more, k) {
      if k < n {
        PendingStep(kinds, k, n);
        var i :| 0 <= i < |stack| && stack[i].line == k + 1;
        assert more[i].line == k + 1;
      } else {
        assert more[|stack|].line == k + 1;
      }
    }
  }

  lemma CloseKeepsPending(kinds: seq<LineKind>, n: nat, stack: seq<OpenBlock>, name: string)
    requires n < |kinds| && HoldsPending(kinds, n, stack) && ClosesAt(kinds, n, name)
    ensures HoldsPending(kinds, n + 1, Popped(stack))
  {
    var less, next := Popped(stack), n + 1;
    LastPending(kinds, n);
    forall i | 0 <= i < |less| ensures EntryOk(kinds, next, less, i) {
      assert EntryOk(kinds, n, stack, i);
      PendingStep(kinds, stack[i].line - 1, n);
    }
    forall k | 0 <= k < n + 1 && IsPending(kinds, k, n + 1) ensures OnStack(less, k) {
      PendingStep(kinds, k, n);
      var i :| 0 <= i < |stack| && stack[i].line == k + 1;
      assert EntryOk(kinds, n, stack, i);
      assert less[i].line == k + 1;
    }
  }

  lemma PlainKeepsPending(kinds: seq<LineKind>, n: nat, stack: seq<OpenBlock>)
    requires n < |kinds| && HoldsPending(kinds, n, stack) && !kinds[n].Marker?
    ensures HoldsPending(kinds, n + 1, stack)
  {
    var next := n + 1;
    LastPending(kinds, n);
    forall i | 0 <= i < |stack| ensures EntryOk(kinds, next, stack, i) {
      assert EntryOk(kinds, n, stack, i);
      PendingStep(kinds, stack[i].line - 1, n);
    }
    forall k | 0 <= k < n + 1 && IsPending(kinds, k, n + 1) ensures OnStack(stack, k) {
      PendingStep(kinds, k, n);
    }
  }

  /** The mate of an end marker is the innermost open block, if there is one. */
  lemma MateIsInnermost(kinds: seq<LineKind>, n: nat, stack: seq<OpenBlock>, k: nat)
    requires n < |kinds| && HoldsPending(kinds, n, stack)
    ensures AreMates(kinds, k, n) <==> stack != [] && stack[|stack| - 1].line == k + 1
  {
    if stack != [] {
      assert EntryOk(kinds, n, stack, |stack| - 1);
    }
    if AreMates(kinds, k, n) {
      var i :| 0 <= i < |stack| && stack[i].line == k + 1;
      assert EntryOk(kinds, n, stack, i);
    }
  }

  /** What an end marker adds to the report is what it deserves. */
  lemma CloseDeserved(kinds: seq<LineKind>, n: nat, stack: seq<OpenBlock>, name: string, v: Violation)
    requires n < |kinds| && HoldsPending(kinds, n, stack) && ClosesAt(kinds, n, name)
    ensures v in CloseReport(stack, n + 1, name) <==> Deserved(kinds, v) && v.line == n + 1 && !v.UnclosedStart?
  {
    if stack != [] {
      var top := stack[|stack| - 1];
      assert EntryOk(kinds, n, stack, |stack| - 1);
      MateIsInnermost(kinds, n, stack, top.line - 1);
    }
    forall k | 0 <= k < n ensures AreMates(kinds, k, n) <==> stack != [] && stack[|stack| - 1].line == k + 1 {
      MateIsInnermost(kinds, n, stack, k);
    }
  }

  lemma UnclosedDeserved(kinds: seq<LineKind>, stack: seq<OpenBlock>, v: Violation)
    requires HoldsPending(kinds, |kinds|, stack)
    ensures v in Unclosed(stack) <==> Deserved(kinds, v) && v.UnclosedStart?
  {
    if v in Unclosed(stack) {
      var i :| 0 <= i < |stack| && Unclosed(stack)[i] == v;
      assert EntryOk(kinds, |kinds|, stack, i);
    }
    if Deserved(kinds, v) && v.UnclosedStart? {
      assert OnStack(stack, v.line - 1);
      var i :| 0 <= i < |stack| && stack[i].line == v.line;
      assert EntryOk(kinds, |kinds|, stack, i);
      assert Unclosed(stack)[i] == v;
    }
  }

  /** The violation is one of those the lines from `at` on give rise to. */
  ghost predicate DeservedFrom(kinds: seq<LineKind>, at: nat, v: Violation) {
    Deserved(kinds, v) && (v.UnclosedStart? || v.line > at)
  }

  lemma DeservedStep(kinds: seq<LineKind>, at: nat, v: Violation)
    requires at < |kinds|
    ensures DeservedFrom(kinds, at, v) <==>
      DeservedFrom(kinds, at + 1, v) || (Deserved(kinds, v) && v.line == at + 1 && !v.UnclosedStart?)
    ensures Deserved(kinds, v) && v.line == at + 1 && !v.UnclosedStart? ==>
      kinds[at].Marker? && kinds[at].token.Close?
  {
  }

  lemma {:induction false} ReportDeserved(kinds: seq<LineKind>, at: nat, stack: seq<OpenBlock>, v: Violation)
    requires at <= |kinds| && HoldsPending(kinds, at, stack)
    ensures v in Report(kinds, at, stack) <==> DeservedFrom(kinds, at, v)
    decreases |kinds| - at
  {
    if at == |kinds| {
      UnclosedDeserved(kinds, stack, v);
    } else {
      DeservedStep(kinds, at, v);
      match kinds[at]
      case Marker(Open(name)) =>
        OpenKeepsPending(kinds, at, stack, name);
        ReportDeserved(kinds, at + 1, stack + [OpenBlock(name, at + 1)], v);
      case Marker(Close(name)) =>
        CloseKeepsPending(kinds, at, stack, name);
        CloseDeserved(kinds, at, stack, name, v);
        ReportDeserved(kinds, at + 1, Popped(stack), v);
      case _ =>
        PlainKeepsPending(kinds, at, stack);
        ReportDeserved(kinds, at + 1, stack, v);
    }
  }

  /** End markers first, by line; then the blocks left open, by line. */
  ghost predicate ReportedBefore(v: Violation, w: Violation) {
    if v.UnclosedStart? == w.UnclosedStart? then v.line < w.line else w.UnclosedStart?
  }

  ghost predicate InReportOrder(report: seq<Violation>) {
    forall i, j :: 0 <= i < j < |report| ==> ReportedBefore(report[i], report[j])
  }

  lemma OrderAfterClose(stack: seq<OpenBlock>, line: nat, name: string, rest: seq<Violation>)
    requires InReportOrder(rest) && forall j :: 0 <= j < |rest| ==> rest[j].UnclosedStart? || rest[j].line > line
    ensures InReportOrder(CloseReport(stack, line, name) + rest)
  {
    var first := CloseReport(stack, line, name);
    assert |first| <= 1 && forall i :: 0 <= i < |first| ==> first[i].line == line && !first[i].UnclosedStart?;
  }

  lemma {:induction false} ReportInOrder(kinds: seq<LineKind>, at: nat, stack: seq<OpenBlock>)
    requires at <= |kinds| && HoldsPending(kinds, at, stack)
    ensures InReportOrder(Report(kinds, at, stack))
    decreases |kinds| - at
  {
    if at < |kinds| {
      match kinds[at]
      case Marker(Open(name)) =>
        OpenKeepsPending(kinds, at, stack, name);
        ReportInOrder(kinds, at + 1, stack + [OpenBlock(name, at + 1)]);
      case Marker(Close(name)) =>
        CloseKeepsPending(kinds, at, stack, name);
        ReportInOrder(kinds, at + 1, Popped(stack));
        var rest := Report(kinds, at + 1, Popped(stack));
        forall j | 0 <= j < |rest| ensures rest[j].UnclosedStart? || rest[j].line > at + 1 {
          ReportDeserved(kinds, at + 1, Popped(stack), rest[j]);
        }
        OrderAfterClose(stack, at + 1, name, rest);
      case _ =>
        PlainKeepsPending(kinds, at, stack);
        ReportInOrder(kinds, at + 1, stack);
    }
  }

  /**
   * The report is exact: it holds, in order, one violation for every end marker without a start marker, for
   * every pair of mates with different names and for every block left open, and nothing else.
   */
  lemma ReportExact(kinds: seq<LineKind>)
    ensures forall v :: v in Report(kinds, 0, []) <==> Deserved(kinds, v)
    ensures InReportOrder(Report(kinds, 0, []))
  {
    forall v ensures v in Report(kinds, 0, []) <==> Deserved(kinds, v) {
      ReportDeserved(kinds, 0, [], v);
    }
    ReportInOrder(kinds, 0, []);
  }

  /** Two lines, the second closing another block than the first opens: one mismatch, with both names and lines. */
  lemma TwoBlocksMismatch(first: string, second: string, a: string, b: string)
    requires IsMarker(Strip(first), START_MARK, a) && IsMarker(Strip(second), END_MARK, b) && a != b
    ensures Report(Kinds([first, second]), 0, []) == [MismatchedBlocks(2, a, 1, b)]
  {
    MarkerByText(first, a);
    MarkerByText(second, b);
    var kinds, open := Kinds([first, second]), [OpenBlock(a, 1)];
    assert Report(kinds, 0, []) == Report(kinds, 1, open) by {
      assert [] + [OpenBlock(a, 1)] == open;
    }
    assert Report(kinds, 1, open) == CloseReport(open, 2, b) + Report(kinds, 2, Popped(open));
    assert Report(kinds, 2, Popped(open)) == [];
  }

  /** What the loop does at the end marker of a block. */
  method CloseBlock(stack: seq<OpenBlock>, violations: seq<Violation>, line: nat, name: string,
                    ghost rest: seq<Violation>)
    returns (stack': seq<OpenBlock>, violations': seq<Violation>)
    ensures stack' == Popped(stack) && violations' == violations + CloseReport(stack, line, name)
    ensures violations' + rest == violations + (CloseReport(stack, line, name) + rest)
  {
    stack', violations' := stack, violations;
    if stack == [] {
      violations' := violations + [EndWithoutStart(line, name)];
    } else {
      var OpenBlock(startName, startLine) := stack[|stack| - 1];
      stack' := stack[..|stack| - 1];
      if startName != name {
        violations' := violations + [MismatchedBlocks(line, startName, startLine, name)];
      }
    }
  }

  /** The checker: it raises exactly when some marker has no name, and otherwise gives the report. */
  method CheckSemanticBlocks(content: string) returns (result: CheckResult)
    ensures result == Raised <==> HasNameless(Split(content, '\n'))
    ensures result.Checked? ==> result.violations == Report(Kinds(Split(content, '\n')), 0, [])
    ensures result.Checked? ==> (result.violations == [] <==> Nested(Tokens(Kinds(Split(content, '\n')))))
    ensures result.Checked? ==> forall v :: v in result.violations <==> Deserved(Kinds(Split(content, '\n')), v)
    ensures result.Checked? ==> InReportOrder(result.violations)
  {
    var lines := Split(content, '\n');
    var stack: seq<OpenBlock> := [];
    var violations: seq<Violation> := [];
    ghost var kinds := Kinds(lines);
    ghost var report := Report(kinds, 0, []);
    ghost var rest := report;
    for i := 0 to |lines|
      invariant NamedUpTo(lines, i)
      invariant rest == Report(kinds, i, stack) && report == violations + rest
    {
      var kind := Classify(lines[i]);
      if kind.Nameless? {
        SomeNameless(lines, i);
        return Raised;
      }
      NamedStep(lines, i);
      ReportStep(kinds, i, stack, kind, rest);
      if kind.Marker? && kind.token.Open? {
        stack := stack + [OpenBlock(kind.token.name, i + 1)];
      } else if kind.Marker? {
        rest := Report(kinds, i + 1, Popped(stack));
        stack, violations := CloseBlock(stack, violations, i + 1, kind.token.name, rest);
      }
    }
    violations := ReportUnclosed(stack, violations);
    NoneNameless(lines);
    ReportFacts(kinds, violations);
    return Checked(violations);
  }

  lemma ReportFacts(kinds: seq<LineKind>, violations: seq<Violation>)
    requires violations == Report(kinds, 0, [])
    ensures violations == [] <==> Nested(Tokens(kinds))
    ensures (forall v :: v in violations <==> Deserved(kinds, v)) && InReportOrder(violations)
  {
    NoViolationIffNested(kinds);
    ReportExact(kinds);
  }

  lemma NamedStep(lines: seq<string>, i: nat)
    requires i < |lines| && NamedUpTo(lines, i) && !IsNameless(lines[i])
    ensures NamedUpTo(lines, i + 1)
  {
  }

  lemma SomeNameless(lines: seq<string>, i: nat)
    requires i < |lines| && IsNameless(lines[i])
    ensures HasNameless(lines)
  {
    NoneNameless(lines);
  }

  lemma NoneNameless(lines: seq<string>)
    ensures HasNameless(lines) <==> !NamedUpTo(lines, |lines|)
  {
    forall k | 0 <= k < |lines|
      ensures IsNameless(lines[k]) <==>
        BareMark(Strip(lines[k]), START_MARK) || BareMark(Strip(lines[k]), END_MARK)
    {
      NamelessByText(lines[k]);
    }
  }

  /** What the checker does at the end of the file. */
  method ReportUnclosed(stack: seq<OpenBlock>, violations: seq<Violation>) returns (violations': seq<Violation>)
    ensures violations' == violations + Unclosed(stack)
  {
    violations' := violations;
    for j := 0 to |stack|
      invariant violations' == violations + Unclosed(stack)[..j]
    {
      violations' := violations' + [UnclosedStart(stack[j].line, stack[j].name)];
    }
  }
}
