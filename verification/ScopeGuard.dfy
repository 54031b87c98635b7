/** The scope guard, which judges changed files by its own matcher, and how it relates to the enforcer. */
module ScopeGuard {
  import opened Sequences
  import opened Text
  import opened Paths
  import opened ScopeEnforcer

  datatype ViolationType = MissingAllowedScope | InvalidPath | FrozenScope | OutOfScope

  datatype ScopeViolation = ScopeViolation(path: string, violationType: ViolationType)

  /** An absolute path or one with a parent segment. */
  predicate IsAbsOrParent(path: string) {
    "/" <= path || ".." in Split(path, SLASH)
  }

  /** One pattern matches the path: literally, as a directory above it, or as a glob. */
  predicate GuardMatches(glob: Glob, path: string, pattern: string) {
    || path == pattern
    || (EndsWith(pattern, "/") && pattern <= path)
    || ('*' in pattern && glob(path, pattern))
  }

  /**
   * The enforcer covers exactly what the guard matches with the entry or with the entry and a trailing
   * slash; so whatever the guard matches the enforcer covers, in either spelling.
   */
  lemma EnforcerExtendsGuard(glob: Glob, entry: string, path: string)
    requires !HasGlob(entry) && Canonical(entry) && '\\' !in path
    ensures Covers(glob, Normalized(entry), path) <==>
      GuardMatches(glob, path, entry) || GuardMatches(glob, path, entry + "/")
    ensures GuardMatches(glob, path, entry) ==> Covers(glob, Normalized(entry), path)
    ensures GuardMatches(glob, path, entry + "/") ==> Covers(glob, Normalized(entry + "/"), path)
  {
    NormalizedCanonical(entry);
    NoTrailingSlash(entry);
    assert EndsWith(entry + "/", "/");
  }

  lemma NoTrailingSlash(entry: string)
    requires Canonical(entry)
    ensures !EndsWith(entry, "/")
  {
    if EndsWith(entry, "/") {
      assert entry == entry[..|entry| - 1] + [SLASH];
      TrailingSlashNotCanonical(entry[..|entry| - 1]);
    }
  }

  lemma TrailingSlashNotCanonical(front: string)
    ensures !Canonical(front + [SLASH])
  {
    var parts := Split(front + [SLASH], SLASH);
    SplitTrailingSlash(front);
    assert parts[|parts| - 1] == [];
  }

  /** A pattern with a star matches as a glob, or as a directory if it ends in a slash, or literally. */
  lemma GuardByPattern(glob: Glob, path: string, pattern: string)
    ensures path == pattern ==> GuardMatches(glob, path, pattern)
    ensures '*' in pattern && glob(path, pattern) ==> GuardMatches(glob, path, pattern)
    ensures (exists front, below :: pattern == front + "/" && path == pattern + below) ==>
      GuardMatches(glob, path, pattern)
    ensures GuardMatches(glob, path, pattern) ==>
      || path == pattern
      || ('*' in pattern && glob(path, pattern))
      || exists front, below :: pattern == front + "/" && path == pattern + below
  {
    EndsWithExact(pattern, "/");
    if GuardMatches(glob, path, pattern) && EndsWith(pattern, "/") && pattern <= path {
      assert path == pattern + path[|pattern|..];
    }
  }

  predicate MatchesAny(glob: Glob, path: string, patterns: seq<string>) {
    exists k :: 0 <= k < |patterns| && GuardMatches(glob, path, patterns[k])
  }

  /** What the guard holds against one file, if anything. */
  ghost function Objection(glob: Glob, path: string, allowed: seq<string>, frozen: seq<string>): Option<ViolationType> {
    if allowed == [] then Some(MissingAllowedScope)
    else if IsAbsOrParent(path) then Some(InvalidPath)
    else if MatchesAny(glob, path, frozen) then Some(FrozenScope)
    else if MatchesAny(glob, path, allowed) then None
    else Some(OutOfScope)
  }

  /** The violations are those of the files, in the order of the files: entry k comes from file `from[k]`. */
  ghost predicate ReportsInOrder(glob: Glob, files: seq<string>, allowed: seq<string>, frozen: seq<string>,
                                 violations: seq<ScopeViolation>, from: seq<nat>)
  {
    && |from| == |violations|
    && (forall k :: 0 <= k < |from| ==>
          && from[k] < |files|
          && Objection(glob, files[from[k]], allowed, frozen) == Some(violations[k].violationType)
          && violations[k].path == files[from[k]])
    && (forall k, l :: 0 <= k < l < |from| ==> from[k] < from[l])
    && (forall i :: 0 <= i < |files| && Objection(glob, files[i], allowed, frozen) != None ==> i in from)
  }

  /** When each kind of violation is due, by its own condition. The frozen scope wins over the allowed scope. */
  ghost predicate IsDue(glob: Glob, path: string, allowed: seq<string>, frozen: seq<string>, kind: ViolationType) {
    var climbs := "/" <= path || exists parts :: ".." in parts && Join(parts, SLASH) == path && IsSplit(parts);
    var isFrozen := exists e :: e in frozen && GuardMatches(glob, path, e);
    var isAllowed := exists e :: e in allowed && GuardMatches(glob, path, e);
    match kind
    case MissingAllowedScope => allowed == []
    case InvalidPath => allowed != [] && climbs
    case FrozenScope => allowed != [] && !climbs && isFrozen
    case OutOfScope => allowed != [] && !climbs && !isFrozen && !isAllowed
  }

  ghost predicate IsSplit(parts: seq<string>) {
    parts != [] && SlashFree(parts)
  }

  lemma ObjectionIsDue(glob: Glob, path: string, allowed: seq<string>, frozen: seq<string>, kind: ViolationType)
    ensures Objection(glob, path, allowed, frozen) == Some(kind) <==> IsDue(glob, path, allowed, frozen, kind)
  {
    MatchesSome(glob, path, allowed);
    MatchesSome(glob, path, frozen);
    ParentSegment(path);
  }

  lemma MatchesSome(glob: Glob, path: string, patterns: seq<string>)
    ensures MatchesAny(glob, path, patterns) <==> exists e :: e in patterns && GuardMatches(glob, path, e)
  {
    if e :| e in patterns && GuardMatches(glob, path, e) {
      var k :| 0 <= k < |patterns| && patterns[k] == e;
    }
  }

  lemma ParentSegment(path: string)
    ensures ".." in Split(path, SLASH) <==>
      exists parts :: ".." in parts && Join(parts, SLASH) == path && IsSplit(parts)
  {
    var parts := Split(path, SLASH);
    JoinSplit(path, SLASH);
    forall i | 0 <= i < |parts| ensures SLASH !in parts[i] {
      assert parts[i] in parts;
    }
    assert IsSplit(parts);
    if other :| ".." in other && Join(other, SLASH) == path && IsSplit(other) {
      SplitJoin(other);
    }
  }

  lemma ReportIsDue(glob: Glob, files: seq<string>, allowed: seq<string>, frozen: seq<string>,
                    violations: seq<ScopeViolation>, from: seq<nat>, v: ScopeViolation)
    requires ReportsInOrder(glob, files, allowed, frozen, violations, from)
    ensures v in violations <==> v.path in files && IsDue(glob, v.path, allowed, frozen, v.violationType)
  {
    ObjectionIsDue(glob, v.path, allowed, frozen, v.violationType);
    if v in violations {
      var k :| 0 <= k < |violations| && violations[k] == v;
      assert files[from[k]] == v.path;
    }
    if v.path in files && IsDue(glob, v.path, allowed, frozen, v.violationType) {
      var i :| 0 <= i < |files| && files[i] == v.path;
      assert i in from;
      var k :| 0 <= k < |from| && from[k] == i;
      assert violations[k] == v;
    }
  }

  lemma NothingReported(glob: Glob, files: seq<string>, allowed: seq<string>, frozen: seq<string>,
                        violations: seq<ScopeViolation>, from: seq<nat>)
    requires ReportsInOrder(glob, files, allowed, frozen, violations, from)
    ensures violations == [] <==> forall f :: f in files ==> Objection(glob, f, allowed, frozen) == None
  {
    if violations != [] {
      assert files[from[0]] in files;
    }
  }

  /** Exactly one violation for every file with an objection, in the order of the files. */
  method ValidateChangedFiles(glob: Glob, changedFiles: seq<string>, allowed: seq<string>, frozen: seq<string>)
    returns (violations: seq<ScopeViolation>, ghost from: seq<nat>)
    ensures ReportsInOrder(glob, changedFiles, allowed, frozen, violations, from)
    ensures violations == [] <==> forall f :: f in changedFiles ==> Objection(glob, f, allowed, frozen) == None
    ensures forall v ::
      v in violations <==> v.path in changedFiles && IsDue(glob, v.path, allowed, frozen, v.violationType)
  {
    violations, from := [], [];
    if allowed == [] {
      for i := 0 to |changedFiles|
        invariant ReportsInOrder(glob, changedFiles[..i], allowed, frozen, violations, from)
      {
        violations, from := violations + [ScopeViolation(changedFiles[i], MissingAllowedScope)], from + [i];
      }
      assert changedFiles[..|changedFiles|] == changedFiles;
      NothingReported(glob, changedFiles, allowed, frozen, violations, from);
      AllReportsDue(glob, changedFiles, allowed, frozen, violations, from);
      return;
    }
    for i := 0 to |changedFiles|
      invariant ReportsInOrder(glob, changedFiles[..i], allowed, frozen, violations, from)
    {
      var path := changedFiles[i];
      if IsAbsOrParent(path) {
        violations, from := violations + [ScopeViolation(path, InvalidPath)], from + [i];
      } else if MatchesAny(glob, path, frozen) {
        violations, from := violations + [ScopeViolation(path, FrozenScope)], from + [i];
      } else if !MatchesAny(glob, path, allowed) {
        violations, from := violations + [ScopeViolation(path, OutOfScope)], from + [i];
      }
    }
    assert changedFiles[..|changedFiles|] == changedFiles;
    NothingReported(glob, changedFiles, allowed, frozen, violations, from);
    AllReportsDue(glob, changedFiles, allowed, frozen, violations, from);
  }

  lemma AllReportsDue(glob: Glob, files: seq<string>, allowed: seq<string>, frozen: seq<string>,
                      violations: seq<ScopeViolation>, from: seq<nat>)
    requires ReportsInOrder(glob, files, allowed, frozen, violations, from)
    ensures forall v :: v in violations <==> v.path in files && IsDue(glob, v.path, allowed, frozen, v.violationType)
  {
    forall v
      ensures v in violations <==> v.path in files && IsDue(glob, v.path, allowed, frozen, v.violationType)
    {
      ReportIsDue(glob, files, allowed, frozen, violations, from, v);
    }
  }

  /** A canonical entry without patterns, perhaps with a trailing slash. */
  ghost predicate IsPlain(entry: string) {
    exists base :: Canonical(base) && !HasGlob(base) && (entry == base || entry == base + "/")
  }

  lemma PlainMatchIsCovered(glob: Glob, entries: seq<string>, path: string)
    requires '\\' !in path && forall e :: e in entries ==> IsPlain(e)
    ensures MatchesAny(glob, path, entries) ==> CoveredBy(glob, Elements(entries), path)
  {
    if MatchesAny(glob, path, entries) {
      var k :| 0 <= k < |entries| && GuardMatches(glob, path, entries[k]);
      assert entries[k] in entries;
      var base :| Canonical(base) && !HasGlob(base) && (entries[k] == base || entries[k] == base + "/");
      EnforcerExtendsGuard(glob, base, path);
      assert entries[k] in Elements(entries) && Covers(glob, Normalized(entries[k]), path);
    }
  }

  /**
   * With plain scope entries the two components never contradict each other in the wrong direction: what
   * the guard lets pass the enforcer does not report as out of scope, and a file the guard calls frozen
   * makes the enforcer reject the change.
   */
  lemma GuardAgreesWithEnforcer(lib: Library, changed: seq<string>, allowed: seq<string>, frozen: seq<string>,
                              path: string, failOnNoChanges: bool)
    requires path in changed && !IsExcluded(path) && '\\' !in path
    requires (forall e :: e in allowed ==> IsPlain(e)) && (forall e :: e in frozen ==> IsPlain(e))
    ensures Objection(lib.glob, path, allowed, frozen) == None ==> CoveredBy(lib.glob, Elements(allowed), path)
    ensures Objection(lib.glob, path, allowed, frozen) == Some(FrozenScope) ==>
      Verdict(lib, Elements(changed), Elements(allowed), Elements(frozen), failOnNoChanges) != None
  {
    PlainMatchIsCovered(lib.glob, allowed, path);
    PlainMatchIsCovered(lib.glob, frozen, path);
    assert path in Kept(Elements(changed));
  }
}
