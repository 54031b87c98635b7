/** Enforcement of an agent's write scope on the files it changed. */
module ScopeEnforcer {
  import opened Sequences
  import opened Text
  import opened Paths

  datatype FailureCode = ScopeEnforcementFailed | ChangedOutOfScope | NoChangesProduced | TouchedFrozenScope

  datatype EnforcementResult = EnforcementResult(ok: bool, changedFiles: seq<string>, allowedFiles: seq<string>,
                                                 outOfScopeFiles: seq<string>, frozenTouchedFiles: seq<string>,
                                                 failureCode: Option<FailureCode>)

  /** The glob test of the library: does the path match the pattern? */
  type Glob = (string, string) -> bool

  /** The library functions the enforcer calls: the glob test, and whether a character is a letter of any script. */
  datatype Library = Library(glob: Glob, isAlpha: char -> bool)

  const EXCLUDE_PREFIXES: seq<string> := [
    ".git/", ".grace/", ".venv/", "venv/", "node_modules/", "__pycache__/", ".pytest_cache/", ".mypy_cache/",
    ".ruff_cache/", ".next/", "dist/", "build/", ".tox/"]

  /** Development, build and cache files are not looked at. */
  predicate IsExcluded(f: string) {
    exists k :: 0 <= k < |EXCLUDE_PREFIXES| && (EXCLUDE_PREFIXES[k] <= f || Contains(f, "/" + EXCLUDE_PREFIXES[k]))
  }

  /** Absolute paths, paths that climb, and drive paths. */
  predicate IsInvalidPath(lib: Library, p: string) {
    var n := Slashed(p);
    || "/" <= n || ".." <= n || Contains(n, "/../")
    || (|n| >= 2 && n[1] == ':' && lib.isAlpha(n[0]))
  }

  function InvalidTest(lib: Library): string -> bool {
    p => IsInvalidPath(lib, p)
  }

  predicate HasGlob(entry: string) {
    '*' in entry || '?' in entry || '[' in entry
  }

  /** One scope entry covers the file: literally, by its pattern, or as a directory above it. */
  predicate Covers(glob: Glob, entry: string, file: string) {
    var n := Slashed(file);
    n == entry || if HasGlob(entry) then glob(n, entry) else entry + "/" <= n
  }

  predicate InScope(glob: Glob, scope: seq<string>, file: string) {
    exists k :: 0 <= k < |scope| && Covers(glob, scope[k], file)
  }

  // ----- The verdict, as a function of sets

  ghost predicate AnyInvalid(lib: Library, paths: set<string>) {
    exists p :: p in paths && IsInvalidPath(lib, p)
  }

  /** The changed files that count. */
  ghost function Kept(changed: set<string>): set<string> {
    set f | f in changed && !IsExcluded(f)
  }

  /** Some entry of the scope covers the file, in normal form. */
  ghost predicate CoveredBy(glob: Glob, scope: set<string>, file: string) {
    exists e :: e in scope && Covers(glob, Normalized(e), file)
  }

  /** The failure code, if any: it depends on the files and entries only as sets. */
  ghost function Verdict(lib: Library, changed: set<string>, allowed: set<string>, frozen: set<string>,
                         failOnNoChanges: bool): Option<FailureCode>
  {
    var kept := Kept(changed);
    if AnyInvalid(lib, allowed) || AnyInvalid(lib, frozen) then Some(ScopeEnforcementFailed)
    else if AnyInvalid(lib, kept) then Some(ChangedOutOfScope)
    else if kept == {} then if failOnNoChanges then Some(NoChangesProduced) else None
    else ScopeVerdict(lib.glob, kept, allowed, frozen)
  }

  ghost function ScopeVerdict(glob: Glob, kept: set<string>, allowed: set<string>, frozen: set<string>)
    : Option<FailureCode>
  {
    if exists f :: f in kept && CoveredBy(glob, frozen, f) then Some(TouchedFrozenScope)
    else if exists f :: f in kept && !CoveredBy(glob, allowed, f) then Some(ChangedOutOfScope)
    else None
  }

  // ----- The verdict, each code by its own condition

  const EXCLUDED_DIRS: seq<string> := [
    ".git", ".grace", ".venv", "venv", "node_modules", "__pycache__", ".pytest_cache", ".mypy_cache", ".ruff_cache",
    ".next", "dist", "build", ".tox"]

  /** Excluded are exactly the files below a directory with one of these names. */
  lemma ExcludedExact(f: string)
    ensures IsExcluded(f) <==> exists k :: 0 <= k < |EXCLUDED_DIRS| && IsUnder(f, EXCLUDED_DIRS[k])
  {
    forall k | 0 <= k < |EXCLUDED_DIRS|
      ensures IsUnder(f, EXCLUDED_DIRS[k]) <==>
        EXCLUDE_PREFIXES[k] <= f || Contains(f, "/" + EXCLUDE_PREFIXES[k])
    {
      PrefixOfDir(k);
      UnderExact(f, EXCLUDED_DIRS[k]);
    }
  }

  lemma PrefixOfDir(k: nat)
    requires k < |EXCLUDED_DIRS|
    ensures EXCLUDE_PREFIXES[k] == EXCLUDED_DIRS[k] + "/"
  {
  }

  /** A directory of this name is on the path. */
  ghost predicate IsUnder(f: string, dir: string) {
    || (exists below :: f == dir + "/" + below)
    || exists above, below :: f == above + "/" + dir + "/" + below
  }

  lemma UnderExact(f: string, dir: string)
    ensures IsUnder(f, dir) <==> dir + "/" <= f || Contains(f, "/" + (dir + "/"))
  {
    var inner := "/" + (dir + "/");
    ContainsExact(f, inner);
    if dir + "/" <= f {
      assert f == dir + "/" + f[|dir| + 1..];
    }
    if above, below :| f == above + inner + below {
      assert f == above + "/" + dir + "/" + below;
    }
    if above, below :| f == above + "/" + dir + "/" + below {
      assert f == above + inner + below;
    }
  }

  lemma BeginsExact(s: string, prefix: string)
    ensures prefix <= s <==> exists rest :: s == prefix + rest
  {
    if prefix <= s {
      assert s == prefix + s[|prefix|..];
    }
  }

  /** Absolute, climbing at the start or inside, or with a drive letter; backslashes count as slashes. */
  lemma InvalidExact(lib: Library, p: string)
    ensures
      var n := Slashed(p);
      IsInvalidPath(lib, p) <==>
        || (exists rest :: n == "/" + rest)
        || (exists rest :: n == ".." + rest)
        || (exists front, rest :: n == front + "/../" + rest)
        || (exists letter, rest :: lib.isAlpha(letter) && n == [letter] + ":" + rest)
  {
    var n := Slashed(p);
    ContainsExact(n, "/../");
    BeginsExact(n, "/");
    BeginsExact(n, "..");
    if |n| >= 2 && n[1] == ':' && lib.isAlpha(n[0]) {
      assert n == [n[0]] + ":" + n[2..];
    }
  }

  /** An entry with a pattern covers by the pattern, any other entry as the file itself or a directory above it. */
  lemma CoversByKind(glob: Glob, entry: string, file: string)
    ensures ('*' in entry || '?' in entry || '[' in entry) ==>
      (Covers(glob, entry, file) <==> Slashed(file) == entry || glob(Slashed(file), entry))
    ensures !('*' in entry || '?' in entry || '[' in entry) ==>
      (Covers(glob, entry, file) <==> Slashed(file) == entry || exists below :: Slashed(file) == (entry + "/") + below)
  {
    BeginsExact(Slashed(file), entry + "/");
  }

  ghost predicate SomeInvalid(lib: Library, paths: seq<string>) {
    exists p :: p in paths && IsInvalidPath(lib, p)
  }

  /** The file is covered by the normal form of one of the entries. */
  ghost predicate IsCovered(lib: Library, entries: seq<string>, file: string) {
    exists e :: e in entries && Covers(lib.glob, Normalized(e), file)
  }

  ghost predicate SomeFileInvalid(lib: Library, changed: seq<string>) {
    exists f :: f in changed && !IsExcluded(f) && IsInvalidPath(lib, f)
  }

  ghost predicate NothingCounts(changed: seq<string>) {
    forall f :: f in changed ==> IsExcluded(f)
  }

  ghost predicate SomeFileCovered(lib: Library, changed: seq<string>, entries: seq<string>) {
    exists f :: f in changed && !IsExcluded(f) && IsCovered(lib, entries, f)
  }

  ghost predicate SomeFileOutside(lib: Library, changed: seq<string>, entries: seq<string>) {
    exists f :: f in changed && !IsExcluded(f) && !IsCovered(lib, entries, f)
  }

  /** When each code is due. A bad scope comes first, then a bad path, then the frozen scope, then the allowed one. */
  ghost predicate CodeIsDue(lib: Library, changed: seq<string>, allowed: seq<string>, frozen: seq<string>,
                            failOnNoChanges: bool, code: Option<FailureCode>)
  {
    var badScope := SomeInvalid(lib, allowed) || SomeInvalid(lib, frozen);
    var badFile, nothing := SomeFileInvalid(lib, changed), NothingCounts(changed);
    var frozenTouched, outside := SomeFileCovered(lib, changed, frozen), SomeFileOutside(lib, changed, allowed);
    match code
    case None => !badScope && !badFile && (if nothing then !failOnNoChanges else !frozenTouched && !outside)
    case Some(ScopeEnforcementFailed) => badScope
    case Some(ChangedOutOfScope) => !badScope && (badFile || (!frozenTouched && outside))
    case Some(NoChangesProduced) => !badScope && !badFile && nothing && failOnNoChanges
    case Some(TouchedFrozenScope) => !badScope && !badFile && frozenTouched
  }

  lemma VerdictIsDue(lib: Library, changed: seq<string>, allowed: seq<string>, frozen: seq<string>,
                     failOnNoChanges: bool)
    ensures CodeIsDue(lib, changed, allowed, frozen, failOnNoChanges,
                      Verdict(lib, Elements(changed), Elements(allowed), Elements(frozen), failOnNoChanges))
  {
    AnyIsSome(lib, allowed);
    AnyIsSome(lib, frozen);
    KeptInvalid(lib, changed);
    KeptNone(changed);
    ScopeVerdictIsDue(lib, changed, allowed, frozen);
  }

  lemma ScopeVerdictIsDue(lib: Library, changed: seq<string>, allowed: seq<string>, frozen: seq<string>)
    ensures ScopeVerdict(lib.glob, Kept(Elements(changed)), Elements(allowed), Elements(frozen)) ==
      if SomeFileCovered(lib, changed, frozen) then Some(TouchedFrozenScope)
      else if SomeFileOutside(lib, changed, allowed) then Some(ChangedOutOfScope)
      else None
  {
    KeptCovered(lib, changed, frozen);
    KeptOutside(lib, changed, allowed);
  }

  lemma KeptNone(changed: seq<string>)
    ensures Kept(Elements(changed)) == {} <==> NothingCounts(changed)
  {
    assert forall f :: f in Kept(Elements(changed)) <==> f in changed && !IsExcluded(f);
  }

  lemma KeptCovered(lib: Library, changed: seq<string>, entries: seq<string>)
    ensures SomeFileCovered(lib, changed, entries) <==>
      exists f :: f in Kept(Elements(changed)) && CoveredBy(lib.glob, Elements(entries), f)
  {
    if f :| f in changed && !IsExcluded(f) && IsCovered(lib, entries, f) {
      CoveredIsCovered(lib, entries, f);
      assert f in Kept(Elements(changed));
    }
    if f :| f in Kept(Elements(changed)) && CoveredBy(lib.glob, Elements(entries), f) {
      CoveredIsCovered(lib, entries, f);
    }
  }

  lemma KeptOutside(lib: Library, changed: seq<string>, entries: seq<string>)
    ensures SomeFileOutside(lib, changed, entries) <==>
      exists f :: f in Kept(Elements(changed)) && !CoveredBy(lib.glob, Elements(entries), f)
  {
    if f :| f in changed && !IsExcluded(f) && !IsCovered(lib, entries, f) {
      CoveredIsCovered(lib, entries, f);
      assert f in Kept(Elements(changed));
    }
    if f :| f in Kept(Elements(changed)) && !CoveredBy(lib.glob, Elements(entries), f) {
      CoveredIsCovered(lib, entries, f);
    }
  }

  lemma KeptInvalid(lib: Library, changed: seq<string>)
    ensures AnyInvalid(lib, Kept(Elements(changed))) <==> SomeFileInvalid(lib, changed)
  {
    if f :| f in changed && !IsExcluded(f) && IsInvalidPath(lib, f) {
      assert f in Kept(Elements(changed));
    }
  }

  lemma AnyIsSome(lib: Library, paths: seq<string>)
    ensures AnyInvalid(lib, Elements(paths)) <==> SomeInvalid(lib, paths)
  {
    if p :| p in paths && IsInvalidPath(lib, p) {
      assert p in Elements(paths);
    }
  }

  lemma CoveredIsCovered(lib: Library, entries: seq<string>, f: string)
    ensures CoveredBy(lib.glob, Elements(entries), f) <==> IsCovered(lib, entries, f)
  {
    if e :| e in entries && Covers(lib.glob, Normalized(e), f) {
      assert e in Elements(entries);
    }
  }

  // ----- The loops

  /** `x` occurs in `items` before `y` does. */
  ghost predicate MentionedFirst(items: seq<string>, x: string, y: string) {
    exists k :: 0 <= k <= |items| && x in items[..k] && y !in items[..k]
  }

  /** The entries of `out` stand in the order in which `items` first mentions them. */
  ghost predicate InOrder(items: seq<string>, out: seq<string>) {
    forall i, j :: 0 <= i < j < |out| ==> MentionedFirst(items, out[i], out[j])
  }

  lemma InOrderExtend(items: seq<string>, out: seq<string>, i: nat)
    requires i < |items| && InOrder(items, out)
    requires items[i] !in items[..i] && forall x :: x in out ==> x in items[..i]
    ensures InOrder(items, out + [items[i]])
  {
    var more := out + [items[i]];
    forall k, l | 0 <= k < l < |more| ensures MentionedFirst(items, more[k], more[l]) {
      if l < |out| {
        assert MentionedFirst(items, out[k], out[l]);
      } else {
        assert out[k] in items[..i];
      }
    }
  }

  method DedupeOrdered(items: seq<string>) returns (out: seq<string>)
    ensures Distinct(out) && Elements(out) == Elements(items) && InOrder(items, out)
  {
    var seen: set<string> := {};
    out := [];
    for i := 0 to |items|
      invariant Distinct(out) && Elements(out) == Elements(items[..i]) == seen
      invariant InOrder(items, out)
    {
      assert items[..i + 1] == items[..i] + [items[i]];
      if items[i] !in seen {
        assert forall x :: x in out ==> x in Elements(out);
        InOrderExtend(items, out, i);
        DistinctExtend(out, items[i]);
        seen := seen + {items[i]};
        out := out + [items[i]];
      }
    }
    assert items[..|items|] == items;
  }

  /** The invalid paths, in their order. */
  method InvalidPaths(lib: Library, paths: seq<string>) returns (invalid: seq<string>)
    ensures invalid == Where(paths, InvalidTest(lib))
    ensures forall p :: p in invalid <==> p in paths && IsInvalidPath(lib, p)
  {
    invalid := [];
    for i := 0 to |paths|
      invariant invalid == Where(paths[..i], InvalidTest(lib))
    {
      assert paths[..i + 1] == paths[..i] + [paths[i]];
      WhereExtend(paths[..i], paths[i], InvalidTest(lib));
      if IsInvalidPath(lib, paths[i]) {
        invalid := invalid + [paths[i]];
      }
    }
    assert paths[..|paths|] == paths;
  }

  /** The normal forms of the entries, each once. */
  method NormalizeScopeList(scope: seq<string>) returns (out: seq<string>)
    ensures Distinct(out)
    ensures forall n :: n in out <==> exists e :: e in scope && Normalized(e) == n
  {
    out := [];
    for i := 0 to |scope|
      invariant Distinct(out)
      invariant forall n :: n in out <==> exists e :: e in scope[..i] && Normalized(e) == n
    {
      assert scope[..i + 1] == scope[..i] + [scope[i]];
      var normalized := Normalized(scope[i]);
      if normalized !in out {
        DistinctExtend(out, normalized);
        out := out + [normalized];
      }
    }
    assert scope[..|scope|] == scope;
  }

  function Where(items: seq<string>, keep: string -> bool): (r: seq<string>)
    ensures forall x :: x in r <==> x in items && keep(x)
  {
    if items == [] then []
    else (if keep(items[0]) then [items[0]] else []) + Where(items[1..], keep)
  }

  lemma NormalizedCovers(glob: Glob, scope: seq<string>, normal: seq<string>, file: string)
    requires forall n :: n in normal <==> exists e :: e in scope && Normalized(e) == n
    ensures InScope(glob, normal, file) <==> CoveredBy(glob, Elements(scope), file)
  {
    if InScope(glob, normal, file) {
      var k :| 0 <= k < |normal| && Covers(glob, normal[k], file);
      assert normal[k] in normal;
    }
    if CoveredBy(glob, Elements(scope), file) {
      var e :| e in Elements(scope) && Covers(glob, Normalized(e), file);
      assert Normalized(e) in normal;
    }
  }

  /**
   * The verdict is the one of the sets, so order and repetition do not matter; once the paths pass, every
   * kept file is allowed or reported, never both.
   */
  method Enforce(lib: Library, changedFiles: seq<string>, allowedScope: seq<string>, frozenScope: seq<string>,
                 failOnNoChanges: bool)
    returns (result: EnforcementResult)
    ensures result.failureCode ==
      Verdict(lib, Elements(changedFiles), Elements(allowedScope), Elements(frozenScope), failOnNoChanges)
    ensures result.ok <==> result.failureCode == None
    ensures
      var kept := Kept(Elements(changedFiles));
      !AnyInvalid(lib, Elements(allowedScope)) && !AnyInvalid(lib, Elements(frozenScope)) && !AnyInvalid(lib, kept) ==>
        && Distinct(result.changedFiles) && Elements(result.changedFiles) == kept
        && InOrder(changedFiles, result.changedFiles)
        && (forall f :: f in kept ==>
              (f in result.allowedFiles <==> !(f in result.outOfScopeFiles || f in result.frozenTouchedFiles)))
        && (forall f :: f in result.allowedFiles ==> f in kept)
        && (forall f :: f in result.frozenTouchedFiles <==> f in kept && CoveredBy(lib.glob, Elements(frozenScope), f))
        && (forall f :: f in result.outOfScopeFiles <==> f in kept && !CoveredBy(lib.glob, Elements(allowedScope), f))
    ensures
      var kept := Kept(Elements(changedFiles));
      !AnyInvalid(lib, Elements(allowedScope)) && !AnyInvalid(lib, Elements(frozenScope)) && AnyInvalid(lib, kept) ==>
        && result.allowedFiles == [] && result.frozenTouchedFiles == []
        && forall f :: f in result.outOfScopeFiles <==> f in kept && IsInvalidPath(lib, f)
  {
    var invalidAllowed := InvalidPaths(lib, allowedScope);
    var invalidFrozen := InvalidPaths(lib, frozenScope);
    assert AnyInvalid(lib, Elements(allowedScope)) <==> invalidAllowed != [] by { SomeMember(invalidAllowed); }
    assert AnyInvalid(lib, Elements(frozenScope)) <==> invalidFrozen != [] by { SomeMember(invalidFrozen); }
    if invalidAllowed + invalidFrozen != [] {
      return EnforcementResult(false, [], [], [], [], Some(ScopeEnforcementFailed));
    }
    var unique := DedupeOrdered(changedFiles);
    var changed := Where(unique, f => !IsExcluded(f));
    WhereDistinct(unique, f => !IsExcluded(f));
    WhereInOrder(changedFiles, unique, f => !IsExcluded(f));
    ghost var kept := Kept(Elements(changedFiles));
    assert forall f :: f in changed <==> f in kept by {
      assert forall f :: f in unique <==> f in Elements(unique);
    }
    var invalid := InvalidPaths(lib, changed);
    assert AnyInvalid(lib, kept) <==> invalid != [] by { SomeMember(invalid); }
    if invalid != [] {
      return EnforcementResult(false, changed, [], invalid, [], Some(ChangedOutOfScope));
    }
    assert kept == {} <==> changed == [] by { SomeMember(changed); }
    if changed == [] {
      var code := if failOnNoChanges then Some(NoChangesProduced) else None;
      return EnforcementResult(!failOnNoChanges, [], [], [], [], code);
    }
    result := JudgeByScope(lib.glob, changed, allowedScope, frozenScope);
    assert Elements(changed) == kept;
  }

  /** The scope test proper, on the kept files. */
  method JudgeByScope(glob: Glob, changed: seq<string>, allowedScope: seq<string>, frozenScope: seq<string>)
    returns (result: EnforcementResult)
    ensures result.failureCode == ScopeVerdict(glob, Elements(changed), Elements(allowedScope), Elements(frozenScope))
    ensures result.ok <==> result.failureCode == None
    ensures result.changedFiles == changed
    ensures forall f :: f in changed ==>
      (f in result.allowedFiles <==> !(f in result.outOfScopeFiles || f in result.frozenTouchedFiles))
    ensures forall f :: f in result.allowedFiles ==> f in changed
    ensures forall f :: f in result.frozenTouchedFiles <==> f in changed && CoveredBy(glob, Elements(frozenScope), f)
    ensures forall f :: f in result.outOfScopeFiles <==> f in changed && !CoveredBy(glob, Elements(allowedScope), f)
  {
    var frozen := NormalizeScopeList(frozenScope);
    var allow := NormalizeScopeList(allowedScope);
    forall f ensures InScope(glob, frozen, f) <==> CoveredBy(glob, Elements(frozenScope), f)
      ensures InScope(glob, allow, f) <==> CoveredBy(glob, Elements(allowedScope), f)
    {
      NormalizedCovers(glob, frozenScope, frozen, f);
      NormalizedCovers(glob, allowedScope, allow, f);
    }
    var frozenTouched := Where(changed, f => InScope(glob, frozen, f));
    var outOfScope := Where(changed, f => !InScope(glob, allow, f));
    var allowed := Where(changed, f => f !in outOfScope && f !in frozenTouched);
    SomeMember(frozenTouched);
    SomeMember(outOfScope);
    if frozenTouched != [] {
      return EnforcementResult(false, changed, allowed, outOfScope, frozenTouched, Some(TouchedFrozenScope));
    }
    if outOfScope != [] {
      return EnforcementResult(false, changed, allowed, outOfScope, [], Some(ChangedOutOfScope));
    }
    return EnforcementResult(true, changed, changed, [], [], None);
  }

  lemma SomeMember(s: seq<string>)
    ensures s != [] <==> exists x :: x in s
  {
    if s != [] {
      assert s[0] in s;
    }
  }

  lemma {:induction false} WhereExtend(items: seq<string>, x: string, keep: string -> bool)
    ensures Where(items + [x], keep) == Where(items, keep) + if keep(x) then [x] else []
  {
    if items == [] {
      assert [x][1..] == [];
    } else {
      assert (items + [x])[1..] == items[1..] + [x];
      WhereExtend(items[1..], x, keep);
    }
  }

  lemma {:induction false} WhereDistinct(items: seq<string>, keep: string -> bool)
    requires Distinct(items)
    ensures Distinct(Where(items, keep))
  {
    if items != [] {
      WhereDistinct(items[1..], keep);
    }
  }

  lemma {:induction false} WhereInOrder(all: seq<string>, items: seq<string>, keep: string -> bool)
    requires InOrder(all, items)
    ensures InOrder(all, Where(items, keep))
  {
    if items != [] {
      var tail := items[1..];
      forall i, j | 0 <= i < j < |tail| ensures MentionedFirst(all, tail[i], tail[j]) {
        assert tail[i] == items[i + 1] && tail[j] == items[j + 1];
      }
      WhereInOrder(all, tail, keep);
      var rest := Where(tail, keep);
      forall j | 0 <= j < |rest| ensures MentionedFirst(all, items[0], rest[j]) {
        assert rest[j] in rest;
        var k :| 0 <= k < |tail| && tail[k] == rest[j];
        assert tail[k] == items[k + 1];
      }
    }
  }

  // ----- Properties of the verdict

  /** More allowed entries never turn an accepted change into a rejected one. */
  lemma MoreAllowedKeepsOk(lib: Library, changed: set<string>, allowed: set<string>, more: set<string>,
                           frozen: set<string>, failOnNoChanges: bool)
    requires !AnyInvalid(lib, more) && Verdict(lib, changed, allowed, frozen, failOnNoChanges) == None
    ensures Verdict(lib, changed, allowed + more, frozen, failOnNoChanges) == None
  {
    forall f | f in Kept(changed) && CoveredBy(lib.glob, allowed, f) ensures CoveredBy(lib.glob, allowed + more, f) {
      var e :| e in allowed && Covers(lib.glob, Normalized(e), f);
      assert e in allowed + more;
    }
  }

  /** More frozen entries never turn a rejected change into an accepted one. */
  lemma MoreFrozenKeepsRejection(lib: Library, changed: set<string>, allowed: set<string>, frozen: set<string>,
                                 more: set<string>, failOnNoChanges: bool)
    requires !AnyInvalid(lib, more) && Verdict(lib, changed, allowed, frozen, failOnNoChanges) != None
    ensures Verdict(lib, changed, allowed, frozen + more, failOnNoChanges) != None
  {
    if AnyInvalid(lib, frozen) {
      assert AnyInvalid(lib, frozen + more);
    }
    forall f | f in Kept(changed) && CoveredBy(lib.glob, frozen, f) ensures CoveredBy(lib.glob, frozen + more, f) {
      var e :| e in frozen && Covers(lib.glob, Normalized(e), f);
      assert e in frozen + more;
    }
  }

  // ----- The string test by path segments

  /**
   * For every entry with a real segment and no pattern, the string test on the normal form says exactly
   * that the real segments of the entry begin the segments of the file.
   */
  lemma CoversBySegments(glob: Glob, entry: string, file: string)
    requires RealSegments(Split(entry, SLASH)) != [] && !HasGlob(Normalized(entry))
    ensures Covers(glob, Normalized(entry), file) <==>
      RealSegments(Split(entry, SLASH)) <= Split(Slashed(file), SLASH)
  {
    var parts := Split(entry, SLASH);
    assert SlashFree(parts) by {
      forall i | 0 <= i < |parts| ensures SLASH !in parts[i] {
        assert parts[i] in parts;
      }
    }
    RealSegmentsAreSegments(parts);
    SplitJoin(RealSegments(parts));
    PrefixBySegments(Normalized(entry), Slashed(file));
  }

  /** An entry without a real segment, such as the current directory, covers no file written without it. */
  lemma DotCoversNothing(glob: Glob, entry: string, file: string)
    requires RealSegments(Split(entry, SLASH)) == []
    ensures Covers(glob, Normalized(entry), file) <==> Slashed(file) == "." || "./" <= Slashed(file)
  {
  }
}
