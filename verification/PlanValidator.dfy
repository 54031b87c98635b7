/** Validation of a plan: names, dependency references, wave order, cycles and scope conflicts. */
module PlanValidator {
  import opened Sequences
  import opened Graphs
  import opened CycleFinder
  import opened KahnSort
  import opened ScopeConflicts
  import Text

  datatype DepItem = Ref(name: string) | NotAString

  /**
   * A dependency field: one comma-separated text, a list, or a value of another type. A missing field is an
   * empty list.
   */
  datatype DependsOn = Listing(text: string) | Items(items: seq<DepItem>) | OtherType

  datatype ScopeField = Single(path: string) | Many(paths: seq<string>)

  /** A packet dictionary of a plan. A missing id, packet id or title is the empty string. */
  datatype PlanPacket = PlanPacket(id: string, packetId: string, title: string, dependsOn: DependsOn,
                                   scope: Option<ScopeField>, specScope: Option<ScopeField>,
                                   waveIndex: Option<int>, hasConflictKeys: bool)

  datatype PlanError =
    | MissingName
    | DuplicateName(name: Name)
    | InvalidDependsOn(id: Name)
    | NonStringDependency(id: Name)
    | MissingDependency(id: Name, dependency: Name)
    | WaveOrderInvalid(id: Name, wave: int, dependency: Name, dependencyWave: int)
    | CycleDetected(cycle: seq<Name>)
    | ScopeConflict(conflict: Conflict)

  datatype ValidationResult = ValidationResult(valid: bool, orderedPackets: seq<Name>, conflicts: seq<Conflict>,
                                               cycles: seq<seq<Name>>, errors: seq<PlanError>)

  /** The name a packet is known by in the graph. */
  function Pid(p: PlanPacket): Name {
    if p.id != "" then p.id else if p.packetId != "" then p.packetId else p.title
  }

  predicate HasName(p: PlanPacket, name: Name) {
    name == Pid(p) || (p.title != "" && name == p.title)
  }

  function ScopeOf(p: PlanPacket): seq<string> {
    var field := if p.scope.Some? then p.scope else p.specScope;
    match field
    case None => []
    case Some(Single(path)) => [path]
    case Some(Many(paths)) => paths
  }

  /** The non-empty trimmed pieces of a comma-separated text. */
  function TrimmedPieces(pieces: seq<string>): seq<string> {
    if pieces == [] then []
    else (if Text.Strip(pieces[0]) != [] then [Text.Strip(pieces[0])] else []) + TrimmedPieces(pieces[1..])
  }

  /** The trimmed strings of a list, other values dropped. */
  function TrimmedRefs(items: seq<DepItem>): seq<string> {
    if items == [] then []
    else (if items[0].Ref? then [Text.Strip(items[0].name)] else []) + TrimmedRefs(items[1..])
  }

  function DepNames(d: DependsOn): seq<string> {
    match d
    case Listing(text) => TrimmedPieces(Text.Split(text, ','))
    case Items(items) => TrimmedRefs(items)
    case OtherType => []
  }

  predicate DepsReadable(d: DependsOn) {
    match d
    case Listing(_) => true
    case Items(items) => NotAString !in items
    case OtherType => false
  }

  // ----- What a valid plan is

  /** Every packet has a name and no name belongs to two packets. */
  ghost predicate NamesOk(ps: seq<PlanPacket>) {
    && (forall k :: 0 <= k < |ps| ==> Pid(ps[k]) != "")
    && (forall i, j, x :: 0 <= i < j < |ps| && HasName(ps[i], x) ==> !HasName(ps[j], x))
  }

  /** The id of the first packet known by `name`, or the name itself. */
  ghost function Resolve(ps: seq<PlanPacket>, name: Name): Name {
    if ps == [] then name
    else if HasName(ps[0], name) then Pid(ps[0])
    else Resolve(ps[1..], name)
  }

  ghost function ResolveAll(ps: seq<PlanPacket>, names: seq<Name>): seq<Name> {
    seq(|names|, k requires 0 <= k < |names| => Resolve(ps, names[k]))
  }

  /** The dependency graph of a plan: ids in plan order, references resolved. */
  ghost predicate IsPlanGraph(ps: seq<PlanPacket>, g: Graph) {
    && g.Valid()
    && |g.keys| == |ps|
    && forall k :: 0 <= k < |ps| ==>
         g.keys[k] == Pid(ps[k]) && g.Get(Pid(ps[k])) == ResolveAll(ps, DepNames(ps[k].dependsOn))
  }

  /** A dependency with a known wave is in a strictly earlier wave than its dependent. */
  ghost predicate WavesOk(ps: seq<PlanPacket>, g: Graph) {
    forall i, j | 0 <= i < |ps| && 0 <= j < |ps| && Edge(g, Pid(ps[i]), Pid(ps[j])) ::
      ps[i].waveIndex.Some? && ps[j].waveIndex.Some? ==> ps[j].waveIndex.value < ps[i].waveIndex.value
  }

  /** Packets that share a significant file are ordered by dependency. */
  ghost predicate ScopesOk(ps: seq<PlanPacket>, g: Graph) {
    forall i, j :: 0 <= i < j < |ps| && SharesFile(ScopeOf(ps[i]), ScopeOf(ps[j])) ==>
      Ordered(Some(g), Pid(ps[i]), Pid(ps[j]))
  }

  /** What the first four phases check: names, dependency fields, references and waves. */
  ghost predicate ReferencesOk(ps: seq<PlanPacket>, strict: bool, g: Graph) {
    && NamesOk(ps)
    && (forall k :: 0 <= k < |ps| ==> DepsReadable(ps[k].dependsOn))
    && IsPlanGraph(ps, g)
    && g.Closed()
    && (strict ==> WavesOk(ps, g))
  }

  /** The declarative reading of "this plan is valid", with `g` its dependency graph. */
  ghost predicate PlanOk(ps: seq<PlanPacket>, strict: bool, g: Graph) {
    && ReferencesOk(ps, strict, g)
    && Acyclic(g)
    && ScopesOk(ps, g)
  }

  // ----- What the fields of a plan mean, in terms of the fields alone

  /** The id is the first of id, packet id and title that is not empty; the title is a name besides. */
  lemma NamesByField(p: PlanPacket, x: Name)
    requires x != ""
    ensures HasName(p, x) <==>
      || x == p.title
      || x == p.id
      || (p.id == "" && x == p.packetId)
    ensures Pid(p) == "" <==> p.id == "" && p.packetId == "" && p.title == ""
    ensures p.id != "" ==> Pid(p) == p.id
    ensures p.id == "" && p.packetId != "" ==> Pid(p) == p.packetId
    ensures p.id == "" && p.packetId == "" ==> Pid(p) == p.title
  {
  }

  predicate FieldLists(field: ScopeField, file: string) {
    field == Single(file) || (field.Many? && file in field.paths)
  }

  /** The scope of a packet is its own scope field, or the one of its specification if it has none. */
  lemma ScopeByField(p: PlanPacket, file: string)
    ensures file in ScopeOf(p) <==>
      || (p.scope.Some? && FieldLists(p.scope.value, file))
      || (p.scope.None? && p.specScope.Some? && FieldLists(p.specScope.value, file))
  {
  }

  /** `t` is a name of the packet with id `target`, or of no packet and then stands for itself. */
  ghost predicate NamesPacket(ps: seq<PlanPacket>, t: Name, target: Name) {
    || (exists j :: 0 <= j < |ps| && HasName(ps[j], t) && target == Pid(ps[j]))
    || (target == t && forall j :: 0 <= j < |ps| ==> !HasName(ps[j], t))
  }

  /** The raw reference, without white space around it, leads to `target`. */
  ghost predicate Refers(ps: seq<PlanPacket>, raw: string, target: Name) {
    exists t :: Text.IsStripped(raw, t) && NamesPacket(ps, t, target)
  }

  ghost function RefPositions(items: seq<DepItem>): set<nat> {
    set i | 0 <= i < |items| && items[i].Ref?
  }

  ghost function TextPositions(pieces: seq<string>): set<nat> {
    set i | 0 <= i < |pieces| && !Text.AllSpace(pieces[i])
  }

  ghost predicate ReadsItems(ps: seq<PlanPacket>, items: seq<DepItem>, deps: seq<Name>, from: seq<nat>) {
    && Lists(from, |items|, RefPositions(items))
    && |deps| == |from|
    && forall k :: 0 <= k < |from| ==>
         from[k] < |items| && items[from[k]].Ref? && Refers(ps, items[from[k]].name, deps[k])
  }

  ghost predicate ReadsPieces(ps: seq<PlanPacket>, pieces: seq<string>, deps: seq<Name>, from: seq<nat>) {
    && Lists(from, |pieces|, TextPositions(pieces))
    && |deps| == |from|
    && forall k :: 0 <= k < |from| ==> from[k] < |pieces| && Refers(ps, pieces[from[k]], deps[k])
  }

  /** The pieces of the text between its commas. */
  ghost predicate ArePieces(text: string, pieces: seq<string>) {
    pieces != [] && Text.Join(pieces, ',') == text && forall p :: p in pieces ==> ',' !in p
  }

  /**
   * `deps` is what the field says: one entry for every reference, in order, that leads to the packet the
   * reference names. References are the strings of a list or the pieces of a text that are not blank.
   */
  ghost predicate DepsRead(ps: seq<PlanPacket>, d: DependsOn, deps: seq<Name>) {
    match d
    case Listing(text) => exists pieces, from :: ArePieces(text, pieces) && ReadsPieces(ps, pieces, deps, from)
    case Items(items) => exists from :: ReadsItems(ps, items, deps, from)
    case OtherType => deps == []
  }

  /** `names` are the stripped references at the positions `from`. */
  ghost predicate RefsAt(items: seq<DepItem>, from: seq<nat>, names: seq<string>) {
    && |names| == |from|
    && forall k :: 0 <= k < |from| ==>
         from[k] < |items| && items[from[k]].Ref? && names[k] == Text.Strip(items[from[k]].name)
  }

  lemma RefsAtHead(items: seq<DepItem>, rest: seq<nat>, names: seq<string>)
    requires items != [] && RefsAt(items[1..], rest, names)
    ensures RefsAt(items, Shifted(rest), names)
    ensures items[0].Ref? ==> RefsAt(items, [0] + Shifted(rest), [Text.Strip(items[0].name)] + names)
  {
    forall k | 0 <= k < |rest|
      ensures rest[k] + 1 < |items| && items[rest[k] + 1].Ref? && names[k] == Text.Strip(items[rest[k] + 1].name)
    {
      assert items[1..][rest[k]] == items[rest[k] + 1];
    }
    if items[0].Ref? {
      RefsAtFirst(items, Shifted(rest), names);
    }
  }

  lemma RefsAtFirst(items: seq<DepItem>, from: seq<nat>, names: seq<string>)
    requires items != [] && items[0].Ref? && RefsAt(items, from, names)
    ensures RefsAt(items, [0] + from, [Text.Strip(items[0].name)] + names)
  {
  }

  lemma {:induction false} RefsFrom(items: seq<DepItem>) returns (from: seq<nat>)
    ensures Lists(from, |items|, RefPositions(items)) && RefsAt(items, from, TrimmedRefs(items))
  {
    from := [];
    if items != [] {
      var tail, first := items[1..], items[0].Ref?;
      var rest := RefsFrom(tail);
      ListsHead(rest, |tail|, RefPositions(tail), RefPositions(items), first);
      RefsAtHead(items, rest, TrimmedRefs(tail));
      assert [] + Shifted(rest) == Shifted(rest) && [] + TrimmedRefs(tail) == TrimmedRefs(tail);
      from := (if first then [0] else []) + Shifted(rest);
    }
  }

  lemma StripBlank(s: string)
    ensures Text.Strip(s) == [] <==> Text.AllSpace(s)
  {
    Text.StripStrips(s);
    var left, right :| Text.IsPadded(s, left, Text.Strip(s), right);
    if Text.Strip(s) != [] {
      assert s[|left|] == Text.Strip(s)[0];
    }
  }

  /** `names` are the stripped pieces at the positions `from`. */
  ghost predicate PiecesAt(pieces: seq<string>, from: seq<nat>, names: seq<string>) {
    && |names| == |from|
    && forall k :: 0 <= k < |from| ==> from[k] < |pieces| && names[k] == Text.Strip(pieces[from[k]])
  }

  lemma PiecesAtTail(pieces: seq<string>, rest: seq<nat>, names: seq<string>)
    requires pieces != [] && PiecesAt(pieces[1..], rest, names)
    ensures PiecesAt(pieces, Shifted(rest), names)
  {
    forall k | 0 <= k < |rest| ensures rest[k] + 1 < |pieces| && names[k] == Text.Strip(pieces[rest[k] + 1]) {
      assert pieces[1..][rest[k]] == pieces[rest[k] + 1];
    }
  }

  lemma PiecesAtFirst(pieces: seq<string>, from: seq<nat>, names: seq<string>)
    requires pieces != [] && PiecesAt(pieces, from, names)
    ensures PiecesAt(pieces, [0] + from, [Text.Strip(pieces[0])] + names)
  {
  }

  lemma {:induction false} PiecesFrom(pieces: seq<string>) returns (from: seq<nat>)
    ensures Lists(from, |pieces|, TextPositions(pieces)) && PiecesAt(pieces, from, TrimmedPieces(pieces))
  {
    from := [];
    if pieces != [] {
      var tail, first := pieces[1..], !Text.AllSpace(pieces[0]);
      var rest := PiecesFrom(tail);
      StripBlank(pieces[0]);
      ListsHead(rest, |tail|, TextPositions(tail), TextPositions(pieces), first);
      PiecesAtTail(pieces, rest, TrimmedPieces(tail));
      PiecesAtFirst(pieces, Shifted(rest), TrimmedPieces(tail));
      assert [] + Shifted(rest) == Shifted(rest) && [] + TrimmedPieces(tail) == TrimmedPieces(tail);
      from := (if first then [0] else []) + Shifted(rest);
    }
  }

  lemma ResolveRefers(ps: seq<PlanPacket>, raw: string)
    requires NamesOk(ps)
    ensures Refers(ps, raw, Resolve(ps, Text.Strip(raw)))
  {
    var t := Text.Strip(raw);
    Text.StripStrips(raw);
    if j :| 0 <= j < |ps| && HasName(ps[j], t) {
      ResolveNamed(ps, t, j);
    } else {
      ResolveUnknown(ps, t);
    }
    assert NamesPacket(ps, t, Resolve(ps, t));
  }

  lemma DepsAreRead(ps: seq<PlanPacket>, d: DependsOn)
    requires NamesOk(ps)
    ensures DepsRead(ps, d, ResolveAll(ps, DepNames(d)))
  {
    var names := DepNames(d);
    var deps := ResolveAll(ps, names);
    match d
    case Listing(text) =>
      var pieces := Text.Split(text, ',');
      Text.JoinSplit(text, ',');
      var from := PiecesFrom(pieces);
      forall k | 0 <= k < |from| ensures Refers(ps, pieces[from[k]], deps[k]) {
        ResolveRefers(ps, pieces[from[k]]);
      }
      assert ArePieces(text, pieces) && ReadsPieces(ps, pieces, deps, from);
    case Items(items) =>
      var from := RefsFrom(items);
      forall k | 0 <= k < |from| ensures Refers(ps, items[from[k]].name, deps[k]) {
        ResolveRefers(ps, items[from[k]].name);
      }
      assert ReadsItems(ps, items, deps, from);
    case OtherType =>
  }

  /** The graph of a plan says exactly what the dependency fields say. */
  ghost predicate GraphReads(ps: seq<PlanPacket>, g: Graph) {
    forall i :: 0 <= i < |ps| ==> DepsRead(ps, ps[i].dependsOn, g.Get(Pid(ps[i])))
  }

  lemma PlanGraphReads(ps: seq<PlanPacket>, g: Graph)
    requires NamesOk(ps) && IsPlanGraph(ps, g)
    ensures GraphReads(ps, g)
  {
    forall i | 0 <= i < |ps| ensures DepsRead(ps, ps[i].dependsOn, g.Get(Pid(ps[i]))) {
      DepsAreRead(ps, ps[i].dependsOn);
    }
  }

  /** The raw reference names packet j of the plan, and packet i depends on that one in the graph. */
  ghost predicate LeadsTo(ps: seq<PlanPacket>, g: Graph, i: nat, raw: string, j: nat)
    requires i < |ps| && j < |ps|
  {
    IsNamedBy(ps[j], raw) && Edge(g, Pid(ps[i]), Pid(ps[j]))
  }

  /** The raw reference, without white space around it, is a name of the packet. */
  ghost predicate IsNamedBy(p: PlanPacket, raw: string) {
    exists t :: Text.IsStripped(raw, t) && HasName(p, t)
  }

  lemma ReferenceLeads(ps: seq<PlanPacket>, g: Graph, i: nat, raw: string, target: Name)
    requires IsPlanGraph(ps, g) && g.Closed() && i < |ps| && target in g.Get(Pid(ps[i])) && Refers(ps, raw, target)
    ensures LeadsSomewhere(ps, g, i, raw)
  {
    var t :| Text.IsStripped(raw, t) && NamesPacket(ps, t, target);
    assert target in g.keys;
    var m :| 0 <= m < |ps| && g.keys[m] == target;
    assert HasName(ps[m], target);
    var j :| 0 <= j < |ps| && HasName(ps[j], t) && target == Pid(ps[j]);
    assert IsNamedBy(ps[j], raw);
    assert LeadsTo(ps, g, i, raw, j);
  }

  /** The raw reference of packet i leads to some packet of the plan. */
  ghost predicate LeadsSomewhere(ps: seq<PlanPacket>, g: Graph, i: nat, raw: string)
    requires i < |ps|
  {
    exists j :: 0 <= j < |ps| && LeadsTo(ps, g, i, raw, j)
  }

  /** Every reference of packet i is a text and leads to a packet of the plan. */
  ghost predicate AllLead(ps: seq<PlanPacket>, g: Graph, i: nat)
    requires i < |ps|
  {
    match ps[i].dependsOn
    case Listing(text) => exists pieces :: ArePieces(text, pieces) && PiecesLead(ps, g, i, pieces)
    case Items(items) => forall m :: 0 <= m < |items| ==> items[m].Ref? && LeadsSomewhere(ps, g, i, items[m].name)
    case OtherType => false
  }

  ghost predicate PiecesLead(ps: seq<PlanPacket>, g: Graph, i: nat, pieces: seq<string>)
    requires i < |ps|
  {
    forall m :: 0 <= m < |pieces| && !Text.AllSpace(pieces[m]) ==> LeadsSomewhere(ps, g, i, pieces[m])
  }

  /** In a valid plan every reference of every packet names a packet of the plan, and the graph has the edge. */
  lemma ValidReferencesLead(ps: seq<PlanPacket>, strict: bool, g: Graph, i: nat)
    requires PlanOk(ps, strict, g) && i < |ps|
    ensures AllLead(ps, g, i)
  {
    var deps := g.Get(Pid(ps[i]));
    PlanGraphReads(ps, g);
    assert DepsReadable(ps[i].dependsOn) && DepsRead(ps, ps[i].dependsOn, deps);
    match ps[i].dependsOn
    case Items(items) =>
      forall m | 0 <= m < |items| ensures items[m].Ref? && LeadsSomewhere(ps, g, i, items[m].name) {
        var raw, target := ItemIsRead(ps, items, deps, m);
        ReferenceLeads(ps, g, i, raw, target);
      }
    case Listing(text) =>
      var pieces, from :| ArePieces(text, pieces) && ReadsPieces(ps, pieces, deps, from);
      forall m | 0 <= m < |pieces| && !Text.AllSpace(pieces[m]) ensures LeadsSomewhere(ps, g, i, pieces[m]) {
        var target := PieceIsRead(ps, pieces, deps, from, m);
        ReferenceLeads(ps, g, i, pieces[m], target);
      }
  }

  lemma ItemIsRead(ps: seq<PlanPacket>, items: seq<DepItem>, deps: seq<Name>, m: nat)
    returns (raw: string, target: Name)
    requires DepsReadable(Items(items)) && DepsRead(ps, Items(items), deps) && m < |items|
    ensures items[m] == Ref(raw) && target in deps && Refers(ps, raw, target)
  {
    assert items[m] in items;
    var from :| ReadsItems(ps, items, deps, from);
    assert m in from;
    var k :| 0 <= k < |from| && from[k] == m;
    raw, target := items[m].name, deps[k];
  }

  lemma PieceIsRead(ps: seq<PlanPacket>, pieces: seq<string>, deps: seq<Name>, from: seq<nat>, m: nat)
    returns (target: Name)
    requires ReadsPieces(ps, pieces, deps, from) && m < |pieces| && !Text.AllSpace(pieces[m])
    ensures target in deps && Refers(ps, pieces[m], target)
  {
    assert m in from;
    var k :| 0 <= k < |from| && from[k] == m;
    target := deps[k];
  }

  /** Two packets of a valid plan that both list a file are ordered, unless it is a package marker. */
  lemma SharedFileOrders(ps: seq<PlanPacket>, strict: bool, g: Graph, i: nat, j: nat, file: string)
    requires PlanOk(ps, strict, g) && i < |ps| && j < |ps| && i != j
    requires file in ScopeOf(ps[i]) && file in ScopeOf(ps[j]) && !exists front :: file == front + "__init__.py"
    ensures Depends(g, Pid(ps[i]), Pid(ps[j])) || Depends(g, Pid(ps[j]), Pid(ps[i]))
  {
    Text.EndsWithExact(file, "__init__.py");
    assert SharesFile(ScopeOf(ps[i]), ScopeOf(ps[j])) && SharesFile(ScopeOf(ps[j]), ScopeOf(ps[i]));
  }

  // ----- Registration of names

  /** The dictionaries the first pass fills. */
  datatype Registry = Registry(ids: seq<Name>, aliases: map<Name, Name>, rawDeps: map<Name, DependsOn>,
                               scopes: map<Name, seq<string>>, waves: map<Name, int>) {
    ghost predicate Valid() {
      && Distinct(ids)
      && forall n :: n in ids <==> n in rawDeps && n in scopes
    }
  }

  /** The registry holds exactly the packets of `ps`. */
  ghost predicate Registered(ps: seq<PlanPacket>, reg: Registry) {
    && reg.Valid() && |reg.ids| == |ps|
    && (forall k :: 0 <= k < |ps| ==>
          var pid := Pid(ps[k]);
          && reg.ids[k] == pid && pid in reg.rawDeps && pid in reg.scopes
          && reg.rawDeps[pid] == ps[k].dependsOn && reg.scopes[pid] == ScopeOf(ps[k])
          && (if ps[k].waveIndex.Some? then pid in reg.waves && reg.waves[pid] == ps[k].waveIndex.value
              else pid !in reg.waves))
    && AliasesOf(ps, reg.aliases)
    && forall n :: n in reg.waves ==> n in reg.ids
  }

  /** The alias table sends exactly the names of `ps` to the packets that carry them. */
  ghost predicate AliasesOf(ps: seq<PlanPacket>, aliases: map<Name, Name>) {
    && (forall k, x :: 0 <= k < |ps| && HasName(ps[k], x) ==> x in aliases && aliases[x] == Pid(ps[k]))
    && (forall x :: x in aliases ==> exists k :: 0 <= k < |ps| && HasName(ps[k], x))
  }

  function Register(reg: Registry, p: PlanPacket): Registry {
    var pid := Pid(p);
    var named := reg.aliases[pid := pid];
    reg.(ids := reg.ids + [pid],
         aliases := if p.title != "" then named[p.title := pid] else named,
         rawDeps := reg.rawDeps[pid := p.dependsOn],
         scopes := reg.scopes[pid := ScopeOf(p)],
         waves := if p.waveIndex.Some? then reg.waves[pid := p.waveIndex.value] else reg.waves)
  }

  /** The test of the first pass: the packet's id or title already belongs to another packet. */
  function Clash(reg: Registry, p: PlanPacket): (r: Option<PlanError>)
    ensures r.Some? ==> r.value.MissingName? || r.value.DuplicateName?
  {
    var pid := Pid(p);
    if pid == "" then Some(MissingName)
    else if pid in reg.ids then Some(DuplicateName(pid))
    else if pid in reg.aliases && reg.aliases[pid] != pid then Some(DuplicateName(pid))
    else if p.title != "" && p.title in reg.aliases && reg.aliases[p.title] != pid then Some(DuplicateName(p.title))
    else None
  }

  /** While no error was found, the test finds a clash exactly when one of the names is taken or missing. */
  lemma ClashExact(ps: seq<PlanPacket>, reg: Registry, p: PlanPacket)
    requires NamesOk(ps) && Registered(ps, reg)
    ensures Clash(reg, p).None? <==> NamesOk(ps + [p])
  {
    var qs := ps + [p];
    var pid := Pid(p);
    if Clash(reg, p).None? {
      forall i, j, x | 0 <= i < j < |qs| && HasName(qs[i], x) ensures !HasName(qs[j], x) {
        assert j == |ps| ==> qs[j] == p;
      }
    } else if NamesOk(qs) {
      NameIsFree(ps, p, pid);
      assert qs[|ps|] == p;
      forall k | 0 <= k < |ps| ensures reg.ids[k] != pid {
        assert HasName(ps[k], Pid(ps[k]));
      }
      if p.title != "" {
        NameIsFree(ps, p, p.title);
      }
    }
  }

  lemma NameIsFree(ps: seq<PlanPacket>, p: PlanPacket, x: Name)
    requires NamesOk(ps + [p]) && HasName(p, x)
    ensures forall k :: 0 <= k < |ps| ==> !HasName(ps[k], x)
  {
    var qs := ps + [p];
    assert qs[|ps|] == p;
    forall k | 0 <= k < |ps| ensures !HasName(ps[k], x) {
      assert qs[k] == ps[k];
    }
  }

  lemma RegisterKeepsRegistered(ps: seq<PlanPacket>, reg: Registry, p: PlanPacket)
    requires NamesOk(ps + [p]) && Registered(ps, reg)
    ensures Registered(ps + [p], Register(reg, p))
  {
    var qs, after := ps + [p], Register(reg, p);
    NameIsFree(ps, p, Pid(p));
    forall k | 0 <= k < |ps| ensures reg.ids[k] != Pid(p) {
      assert HasName(ps[k], Pid(ps[k]));
    }
    DistinctExtend(reg.ids, Pid(p));
    AliasesExtend(ps, reg.aliases, p);
    forall k | 0 <= k < |qs| ensures qs[k] == if k < |ps| then ps[k] else p {
    }
  }

  lemma AliasesExtend(ps: seq<PlanPacket>, aliases: map<Name, Name>, p: PlanPacket)
    requires NamesOk(ps + [p]) && AliasesOf(ps, aliases)
    ensures
      var named := aliases[Pid(p) := Pid(p)];
      AliasesOf(ps + [p], if p.title != "" then named[p.title := Pid(p)] else named)
  {
    var qs := ps + [p];
    var named := aliases[Pid(p) := Pid(p)];
    var after := if p.title != "" then named[p.title := Pid(p)] else named;
    forall k, x | 0 <= k < |qs| && HasName(qs[k], x) ensures x in after && after[x] == Pid(qs[k]) {
      if k < |ps| {
        assert qs[k] == ps[k] && qs[|ps|] == p;
        assert !HasName(p, x);
      }
    }
    forall x | x in after ensures exists k :: 0 <= k < |qs| && HasName(qs[k], x) {
      if HasName(p, x) {
        assert HasName(qs[|ps|], x);
      } else {
        var k :| 0 <= k < |ps| && HasName(ps[k], x);
        assert HasName(qs[k], x);
      }
    }
  }

  lemma NamesOkPrefix(ps: seq<PlanPacket>, p: PlanPacket)
    requires NamesOk(ps + [p])
    ensures NamesOk(ps)
  {
    var qs := ps + [p];
    forall k | 0 <= k < |ps| ensures Pid(ps[k]) != "" {
      assert qs[k] == ps[k];
    }
    forall i, j, x | 0 <= i < j < |ps| && HasName(ps[i], x) ensures !HasName(ps[j], x) {
      assert qs[i] == ps[i] && qs[j] == ps[j];
    }
  }

  method RegisterPackets(packets: seq<PlanPacket>) returns (reg: Registry, errors: seq<PlanError>)
    ensures reg.Valid()
    ensures errors == [] <==> NamesOk(packets)
    ensures errors == [] ==> Registered(packets, reg)
    ensures forall e :: e in errors ==> e.MissingName? || e.DuplicateName?
  {
    reg := Registry([], map[], map[], map[], map[]);
    errors := [];
    for i := 0 to |packets|
      invariant reg.Valid()
      invariant errors == [] <==> NamesOk(packets[..i])
      invariant errors == [] ==> Registered(packets[..i], reg)
      invariant forall e :: e in errors ==> e.MissingName? || e.DuplicateName?
    {
      var p := packets[i];
      assert packets[..i + 1] == packets[..i] + [p];
      if NamesOk(packets[..i]) {
        ClashExact(packets[..i], reg, p);
      } else if NamesOk(packets[..i + 1]) {
        NamesOkPrefix(packets[..i], p);
      }
      var clash := Clash(reg, p);
      if clash.Some? {
        errors := errors + [clash.value];
      } else {
        if NamesOk(packets[..i + 1]) {
          RegisterKeepsRegistered(packets[..i], reg, p);
        }
        DistinctExtend(reg.ids, Pid(p));
        reg := Register(reg, p);
      }
    }
    assert packets[..|packets|] == packets;
  }

  // ----- Resolution of dependencies

  function LookUpAll(aliases: map<Name, Name>, names: seq<Name>): seq<Name> {
    seq(|names|, k requires 0 <= k < |names| => if names[k] in aliases then aliases[names[k]] else names[k])
  }

  lemma {:induction false} ResolveNamed(ps: seq<PlanPacket>, name: Name, k: nat)
    requires NamesOk(ps) && k < |ps| && HasName(ps[k], name)
    ensures Resolve(ps, name) == Pid(ps[k])
  {
    if k > 0 {
      NamesOkTail(ps);
      assert !HasName(ps[0], name);
      ResolveNamed(ps[1..], name, k - 1);
    }
  }

  lemma NamesOkTail(ps: seq<PlanPacket>)
    requires NamesOk(ps) && ps != []
    ensures NamesOk(ps[1..])
  {
    var qs := ps[1..];
    forall k | 0 <= k < |qs| ensures Pid(qs[k]) != "" {
      assert qs[k] == ps[k + 1];
    }
    forall i, j, x | 0 <= i < j < |qs| && HasName(qs[i], x) ensures !HasName(qs[j], x) {
      assert qs[i] == ps[i + 1] && qs[j] == ps[j + 1];
    }
  }

  lemma {:induction false} ResolveUnknown(ps: seq<PlanPacket>, name: Name)
    requires forall k :: 0 <= k < |ps| ==> !HasName(ps[k], name)
    ensures Resolve(ps, name) == name
  {
    if ps != [] {
      forall k | 0 <= k < |ps[1..]| ensures !HasName(ps[1..][k], name) {
        assert ps[1..][k] == ps[k + 1];
      }
      ResolveUnknown(ps[1..], name);
    }
  }

  /** The alias table resolves every name to the packet that carries it. */
  lemma AliasesResolve(ps: seq<PlanPacket>, reg: Registry, names: seq<Name>)
    requires NamesOk(ps) && Registered(ps, reg)
    ensures LookUpAll(reg.aliases, names) == ResolveAll(ps, names)
  {
    forall x ensures Resolve(ps, x) == if x in reg.aliases then reg.aliases[x] else x {
      if x in reg.aliases {
        var k :| 0 <= k < |ps| && HasName(ps[k], x);
        ResolveNamed(ps, x, k);
      } else {
        ResolveUnknown(ps, x);
      }
    }
  }

  /** The error is about a dependency field that is no text or list, or a list with values that are no text. */
  ghost predicate IsUnreadable(reg: Registry, e: PlanError)
    requires reg.Valid()
  {
    || (e.InvalidDependsOn? && e.id in reg.ids && reg.rawDeps[e.id].OtherType?)
    || (e.NonStringDependency? && e.id in reg.ids && reg.rawDeps[e.id].Items? && NotAString in reg.rawDeps[e.id].items)
  }

  /** Resolves every reference by the alias table and reports exactly the unreadable fields. */
  method ResolveDependencies(reg: Registry) returns (g: Graph, errors: seq<PlanError>)
    requires reg.Valid()
    ensures g.Valid() && g.keys == reg.ids
    ensures forall n :: n in reg.ids ==> g.Get(n) == LookUpAll(reg.aliases, DepNames(reg.rawDeps[n]))
    ensures forall e :: e in errors <==> IsUnreadable(reg, e)
  {
    var deps: map<Name, seq<Name>> := map[];
    errors := [];
    for i := 0 to |reg.ids|
      invariant forall n :: n in deps <==> n in reg.ids[..i]
      invariant forall n :: n in reg.ids[..i] ==> deps[n] == LookUpAll(reg.aliases, DepNames(reg.rawDeps[n]))
      invariant forall e :: e in errors <==> IsUnreadable(reg, e) && e.id in reg.ids[..i]
    {
      var id := reg.ids[i];
      assert reg.ids[..i + 1] == reg.ids[..i] + [id];
      var raw := reg.rawDeps[id];
      if raw.OtherType? {
        errors := errors + [InvalidDependsOn(id)];
      } else if raw.Items? && NotAString in raw.items {
        errors := errors + [NonStringDependency(id)];
      }
      deps := deps[id := LookUpAll(reg.aliases, DepNames(raw))];
    }
    assert reg.ids[..|reg.ids|] == reg.ids;
    g := Graph(reg.ids, deps);
  }

  // ----- Checks on the resolved graph

  /** The error is about a dependency of a key that is not a key itself. */
  ghost predicate IsMissing(g: Graph, e: PlanError) {
    e.MissingDependency? && e.id in g.deps && e.dependency in g.deps[e.id] && e.dependency !in g.deps
  }

  /** Reports exactly the dependencies that are not keys. */
  method MissingDependencies(g: Graph) returns (errors: seq<PlanError>)
    requires g.Valid()
    ensures forall e :: e in errors <==> IsMissing(g, e)
  {
    errors := [];
    for i := 0 to |g.keys|
      invariant forall e :: e in errors <==> IsMissing(g, e) && e.id in g.keys[..i]
    {
      var id := g.keys[i];
      assert g.keys[..i + 1] == g.keys[..i] + [id];
      var deps := g.deps[id];
      for j := 0 to |deps|
        invariant forall e :: e in errors <==>
          IsMissing(g, e) && (e.id in g.keys[..i] || (e.id == id && e.dependency in deps[..j]))
      {
        assert deps[..j + 1] == deps[..j] + [deps[j]];
        if deps[j] !in g.deps {
          errors := errors + [MissingDependency(id, deps[j])];
        }
      }
      assert deps[..|deps|] == deps;
    }
    assert g.keys[..|g.keys|] == g.keys;
  }

  /** The edge does not go back in time, as far as the waves are known. */
  predicate WaveStepOk(waves: map<Name, int>, n: Name, d: Name) {
    n in waves && d in waves ==> waves[d] < waves[n]
  }

  /** The error is about an edge that goes back in time, and tells both waves. */
  ghost predicate IsWaveError(g: Graph, waves: map<Name, int>, e: PlanError) {
    && e.WaveOrderInvalid? && e.id in g.deps && e.dependency in g.deps[e.id] && !WaveStepOk(waves, e.id, e.dependency)
    && e == WaveOrderInvalid(e.id, waves[e.id], e.dependency, waves[e.dependency])
  }

  /** Reports exactly the edges that go back in time. */
  method WaveOrderErrors(g: Graph, waves: map<Name, int>) returns (errors: seq<PlanError>)
    requires g.Valid()
    ensures forall e :: e in errors <==> IsWaveError(g, waves, e)
  {
    errors := [];
    for i := 0 to |g.keys|
      invariant forall e :: e in errors <==> IsWaveError(g, waves, e) && e.id in g.keys[..i]
    {
      var id := g.keys[i];
      assert g.keys[..i + 1] == g.keys[..i] + [id];
      if id !in waves {
        continue;
      }
      var deps := g.deps[id];
      for j := 0 to |deps|
        invariant forall e :: e in errors <==>
          IsWaveError(g, waves, e) && (e.id in g.keys[..i] || (e.id == id && e.dependency in deps[..j]))
      {
        assert deps[..j + 1] == deps[..j] + [deps[j]];
        assert WaveStepOk(waves, id, deps[j]) <==> !(deps[j] in waves && waves[deps[j]] >= waves[id]);
        if deps[j] in waves && waves[deps[j]] >= waves[id] {
          errors := errors + [WaveOrderInvalid(id, waves[id], deps[j], waves[deps[j]])];
        }
      }
      assert deps[..|deps|] == deps;
    }
    assert g.keys[..|g.keys|] == g.keys;
  }

  // ----- The validator

  function CycleErrors(cycles: seq<seq<Name>>): seq<PlanError> {
    seq(|cycles|, k requires 0 <= k < |cycles| => CycleDetected(cycles[k]))
  }

  function ConflictErrors(conflicts: seq<Conflict>): seq<PlanError> {
    seq(|conflicts|, k requires 0 <= k < |conflicts| => ScopeConflict(conflicts[k]))
  }

  /** Wave order is checked as asked for; when nothing is asked, exactly when some packet has conflict keys. */
  lemma StrictByDefault(ps: seq<PlanPacket>, asked: bool)
    ensures IsStrict(ps, Some(asked)) == asked
    ensures IsStrict(ps, None) <==> exists p :: p in ps && p.hasConflictKeys
  {
    if p :| p in ps && p.hasConflictKeys {
      var k :| 0 <= k < |ps| && ps[k] == p;
    }
  }

  /** Wave order is checked when asked for, or by default when some packet carries conflict keys. */
  predicate IsStrict(packets: seq<PlanPacket>, strictWaveOrder: Option<bool>) {
    if strictWaveOrder.Some? then strictWaveOrder.value
    else exists k :: 0 <= k < |packets| && packets[k].hasConflictKeys
  }

  /** `c` reports packets i and j of the plan: they share significant files and neither depends on the other. */
  ghost predicate PlanConflictAt(ps: seq<PlanPacket>, g: Graph, i: nat, j: nat, c: Conflict) {
    && i < j < |ps|
    && c == Conflict(Pid(ps[i]), Pid(ps[j]), Overlap(ScopeOf(ps[i]), ScopeOf(ps[j])))
    && SharesFile(ScopeOf(ps[i]), ScopeOf(ps[j]))
    && !Ordered(Some(g), Pid(ps[i]), Pid(ps[j]))
  }

  /** The errors hold one entry for every missing dependency, cycle and conflict, and no others of these kinds. */
  ghost predicate ErrorsTell(g: Graph, cycles: seq<seq<Name>>, conflicts: seq<Conflict>, errors: seq<PlanError>) {
    && (forall e: PlanError :: e.MissingDependency? ==> (e in errors <==> IsMissing(g, e)))
    && (forall c :: CycleDetected(c) in errors <==> c in cycles)
    && (forall c :: ScopeConflict(c) in errors <==> c in conflicts)
  }

  predicate OfLaterPhase(e: PlanError) {
    e.CycleDetected? || e.ScopeConflict?
  }

  /** The phases before the graph algorithms: they build the graph and report what is wrong with the references. */
  method CheckReferences(packets: seq<PlanPacket>, strict: bool)
    returns (reg: Registry, g: Graph, errors: seq<PlanError>)
    ensures reg.Valid() && g.Valid() && g.keys == reg.ids
    ensures NamesOk(packets) ==> Registered(packets, reg) && IsPlanGraph(packets, g)
    ensures errors == [] <==> ReferencesOk(packets, strict, g)
    ensures forall e :: e in errors ==> !OfLaterPhase(e)
    ensures forall e: PlanError :: e.MissingDependency? ==> (e in errors <==> IsMissing(g, e))
  {
    reg, errors := RegisterPackets(packets);
    ghost var early := errors;
    var unreadable, missing;
    g, unreadable := ResolveDependencies(reg);
    errors := errors + unreadable;
    missing := MissingDependencies(g);
    errors := errors + missing;
    var wave := [];
    if strict {
      wave := WaveOrderErrors(g, reg.waves);
    }
    errors := errors + wave;
    ReferencesDecide(packets, strict, reg, g, early, unreadable, missing, wave);
  }

  lemma ReferencesDecide(ps: seq<PlanPacket>, strict: bool, reg: Registry, g: Graph, early: seq<PlanError>,
                         unreadable: seq<PlanError>, missing: seq<PlanError>, wave: seq<PlanError>)
    requires reg.Valid() && g.Valid() && g.keys == reg.ids
    requires (early == [] <==> NamesOk(ps)) && (NamesOk(ps) ==> Registered(ps, reg))
    requires forall n :: n in reg.ids ==> g.Get(n) == LookUpAll(reg.aliases, DepNames(reg.rawDeps[n]))
    requires forall e :: e in unreadable <==> IsUnreadable(reg, e)
    requires forall e :: e in missing <==> IsMissing(g, e)
    requires if strict then forall e :: e in wave <==> IsWaveError(g, reg.waves, e) else wave == []
    ensures NamesOk(ps) ==> IsPlanGraph(ps, g)
    ensures early + unreadable + missing + wave == [] <==> ReferencesOk(ps, strict, g)
  {
    NoMissing(g, missing);
    if strict {
      NoWaveErrors(g, reg.waves, wave);
    }
    if NamesOk(ps) {
      RegisteredGraph(ps, reg, g, unreadable);
      RegisteredWaves(ps, reg, g);
    }
  }

  /** Adding the cycles and conflicts to the earlier errors keeps the error list exact. */
  lemma PhasesTell(g: Graph, cycles: seq<seq<Name>>, conflicts: seq<Conflict>, early: seq<PlanError>)
    requires forall e :: e in early ==> !OfLaterPhase(e)
    requires forall e: PlanError :: e.MissingDependency? ==> (e in early <==> IsMissing(g, e))
    ensures ErrorsTell(g, cycles, conflicts, early + CycleErrors(cycles) + ConflictErrors(conflicts))
  {
    var errors := early + CycleErrors(cycles) + ConflictErrors(conflicts);
    forall e ensures e in errors <==> e in early || e in CycleErrors(cycles) || e in ConflictErrors(conflicts) {
    }
    forall c ensures CycleDetected(c) in CycleErrors(cycles) <==> c in cycles {
      if c in cycles {
        var k :| 0 <= k < |cycles| && cycles[k] == c;
        assert CycleErrors(cycles)[k] == CycleDetected(c);
      }
    }
    forall c ensures ScopeConflict(c) in ConflictErrors(conflicts) <==> c in conflicts {
      if c in conflicts {
        var k :| 0 <= k < |conflicts| && conflicts[k] == c;
        assert ConflictErrors(conflicts)[k] == ScopeConflict(c);
      }
    }
  }

  /** With sound references, no cycle and no conflict the plan is valid, and the other way round. */
  lemma PhasesDecide(ps: seq<PlanPacket>, strict: bool, reg: Registry, g: Graph, conflicts: seq<Conflict>)
    requires reg.Valid() && g.keys == reg.ids
    requires NamesOk(ps) ==> Registered(ps, reg) && IsPlanGraph(ps, g)
    requires forall c :: c in conflicts <==> exists i, j :: ConflictAt(reg.ids, reg.scopes, Some(g), i, j, c)
    ensures NamesOk(ps) ==> forall c :: c in conflicts <==> exists i, j :: PlanConflictAt(ps, g, i, j, c)
    ensures PlanOk(ps, strict, g) <==> ReferencesOk(ps, strict, g) && Acyclic(g) && conflicts == []
    ensures forall g' :: PlanOk(ps, strict, g') ==> g' == g
  {
    if NamesOk(ps) {
      RegisteredConflicts(ps, reg, g, conflicts);
    }
    forall g' | PlanOk(ps, strict, g') ensures g' == g {
      PlanGraphUnique(ps, g, g');
    }
  }

  /**
   * Accepts exactly the plans that are valid in the declarative sense, and then orders all packets with
   * every dependency strictly before its dependents. On other plans the errors name every missing
   * dependency, cycle and conflict.
   */
  method ValidateDag(packets: seq<PlanPacket>, strictWaveOrder: Option<bool>)
    returns (result: ValidationResult, ghost graph: Graph)
    ensures result.valid <==> result.errors == []
    ensures result.valid <==> PlanOk(packets, IsStrict(packets, strictWaveOrder), graph)
    ensures result.valid <==> exists g :: PlanOk(packets, IsStrict(packets, strictWaveOrder), g)
    ensures result.valid ==> result.cycles == [] && result.conflicts == [] && Listed(graph, result.orderedPackets)
    ensures result.valid ==> forall i :: 0 <= i < |packets| ==> AllLead(packets, graph, i)
    ensures ErrorsTell(graph, result.cycles, result.conflicts, result.errors)
    ensures NamesOk(packets) ==>
      IsPlanGraph(packets, graph) && GraphReads(packets, graph)
      && forall c :: c in result.conflicts <==> exists i, j :: PlanConflictAt(packets, graph, i, j, c)
    ensures InPairOrder(graph.keys, result.conflicts)
    ensures forall c :: c in result.cycles ==> IsSimpleCycle(graph, c)
    ensures result.cycles == [] <==> Acyclic(graph)
    ensures result.cycles != [] ==> result.orderedPackets == []
    ensures result.cycles == [] ==> multiset(result.orderedPackets) == multiset(graph.keys)
  {
    var strict := IsStrict(packets, strictWaveOrder);
    ghost var named := NamesOk(packets);
    var reg, g, early := CheckReferences(packets, strict);
    var errors := early;
    var cycles := DetectCycles(g);
    var ordered := [];
    if cycles == [] {
      ordered := TopologicalSort(g);
    } else {
      errors := errors + CycleErrors(cycles);
    }
    assert errors == early + CycleErrors(cycles);
    var conflicts := DetectScopeConflicts(reg.ids, reg.scopes, Some(g));
    errors := errors + ConflictErrors(conflicts);
    result := ValidationResult(errors == [], ordered, conflicts, cycles, errors);
    graph := g;
    PhasesTell(g, cycles, conflicts, early);
    PhasesDecide(packets, strict, reg, g, conflicts);
    if named {
      PlanGraphReads(packets, g);
    }
    if result.valid {
      ghost var k: nat :| KahnOrder(g, ordered, k);
      KahnOrderOfAcyclic(g, ordered, k);
      forall i | 0 <= i < |packets| ensures AllLead(packets, g, i) {
        ValidReferencesLead(packets, strict, g, i);
      }
    }
  }

  lemma NoMissing(g: Graph, errors: seq<PlanError>)
    requires forall e :: e in errors <==> IsMissing(g, e)
    ensures errors == [] <==> g.Closed()
  {
    forall n, d | n in g.deps && d in g.deps[n] && d !in g.deps ensures MissingDependency(n, d) in errors {
      assert IsMissing(g, MissingDependency(n, d));
    }
    if errors != [] {
      assert errors[0] in errors;
    }
  }

  lemma NoWaveErrors(g: Graph, waves: map<Name, int>, errors: seq<PlanError>)
    requires forall e :: e in errors <==> IsWaveError(g, waves, e)
    ensures errors == [] <==> forall n, d :: n in g.deps && d in g.deps[n] ==> WaveStepOk(waves, n, d)
  {
    forall n, d | n in g.deps && d in g.deps[n] && !WaveStepOk(waves, n, d) ensures errors != [] {
      assert IsWaveError(g, waves, WaveOrderInvalid(n, waves[n], d, waves[d]));
    }
    if errors != [] {
      assert errors[0] in errors;
    }
  }

  lemma NoUnreadable(reg: Registry, errors: seq<PlanError>)
    requires reg.Valid() && forall e :: e in errors <==> IsUnreadable(reg, e)
    ensures errors == [] <==> forall n :: n in reg.ids ==> DepsReadable(reg.rawDeps[n])
  {
    forall n | n in reg.ids && !DepsReadable(reg.rawDeps[n]) ensures errors != [] {
      assert IsUnreadable(reg, if reg.rawDeps[n].OtherType? then InvalidDependsOn(n) else NonStringDependency(n));
    }
    if errors != [] {
      assert errors[0] in errors;
    }
  }

  lemma RegisteredGraph(ps: seq<PlanPacket>, reg: Registry, g: Graph, unreadable: seq<PlanError>)
    requires NamesOk(ps) && Registered(ps, reg) && g.Valid() && g.keys == reg.ids
    requires forall n :: n in reg.ids ==> g.Get(n) == LookUpAll(reg.aliases, DepNames(reg.rawDeps[n]))
    requires forall e :: e in unreadable <==> IsUnreadable(reg, e)
    ensures IsPlanGraph(ps, g)
    ensures unreadable == [] <==> forall k :: 0 <= k < |ps| ==> DepsReadable(ps[k].dependsOn)
  {
    NoUnreadable(reg, unreadable);
    forall k | 0 <= k < |ps| ensures g.Get(Pid(ps[k])) == ResolveAll(ps, DepNames(ps[k].dependsOn)) {
      assert reg.ids[k] in reg.ids;
      AliasesResolve(ps, reg, DepNames(ps[k].dependsOn));
    }
    if forall n :: n in reg.ids ==> DepsReadable(reg.rawDeps[n]) {
      forall k | 0 <= k < |ps| ensures DepsReadable(ps[k].dependsOn) {
        assert reg.ids[k] in reg.ids;
      }
    }
  }

  lemma RegisteredWaves(ps: seq<PlanPacket>, reg: Registry, g: Graph)
    requires Registered(ps, reg) && IsPlanGraph(ps, g) && g.keys == reg.ids
    ensures g.Closed() ==>
      (WavesOk(ps, g) <==> forall n, d :: n in g.deps && d in g.deps[n] ==> WaveStepOk(reg.waves, n, d))
  {
    if g.Closed() && WavesOk(ps, g) {
      forall n, d | n in g.deps && d in g.deps[n] ensures WaveStepOk(reg.waves, n, d) {
        assert n in g.keys && d in g.keys;
        var i :| 0 <= i < |ps| && g.keys[i] == n;
        var j :| 0 <= j < |ps| && g.keys[j] == d;
        assert Edge(g, Pid(ps[i]), Pid(ps[j]));
      }
    }
    if forall n, d :: n in g.deps && d in g.deps[n] ==> WaveStepOk(reg.waves, n, d) {
      forall i, j | 0 <= i < |ps| && 0 <= j < |ps| && Edge(g, Pid(ps[i]), Pid(ps[j]))
        && ps[i].waveIndex.Some? && ps[j].waveIndex.Some?
        ensures ps[j].waveIndex.value < ps[i].waveIndex.value
      {
        assert g.keys[i] in g.keys;
        assert WaveStepOk(reg.waves, Pid(ps[i]), Pid(ps[j]));
      }
    }
  }

  lemma RegisteredConflicts(ps: seq<PlanPacket>, reg: Registry, g: Graph, conflicts: seq<Conflict>)
    requires Registered(ps, reg)
    requires forall c :: c in conflicts <==> exists i, j :: ConflictAt(reg.ids, reg.scopes, Some(g), i, j, c)
    ensures forall c :: c in conflicts <==> exists i, j :: PlanConflictAt(ps, g, i, j, c)
    ensures conflicts == [] <==> ScopesOk(ps, g)
  {
    forall i, j, c ensures ConflictAt(reg.ids, reg.scopes, Some(g), i, j, c) <==> PlanConflictAt(ps, g, i, j, c) {
    }
    if conflicts == [] {
      forall i, j | 0 <= i < j < |ps| && SharesFile(ScopeOf(ps[i]), ScopeOf(ps[j]))
        ensures Ordered(Some(g), Pid(ps[i]), Pid(ps[j]))
      {
        var c := Conflict(reg.ids[i], reg.ids[j], Overlap(reg.scopes[reg.ids[i]], reg.scopes[reg.ids[j]]));
        assert c !in conflicts;
        assert !ConflictAt(reg.ids, reg.scopes, Some(g), i, j, c);
      }
    } else {
      assert conflicts[0] in conflicts;
    }
  }

  lemma PlanGraphUnique(ps: seq<PlanPacket>, g: Graph, g': Graph)
    requires NamesOk(ps) && IsPlanGraph(ps, g) && IsPlanGraph(ps, g')
    ensures g == g'
  {
    assert g.keys == g'.keys;
    forall n | n in g.deps ensures g.deps[n] == g'.deps[n] {
      var k :| 0 <= k < |ps| && g.keys[k] == n;
      assert g.Get(Pid(ps[k])) == g'.Get(Pid(ps[k]));
    }
    assert g.deps.Keys == g'.deps.Keys;
  }

  // ----- Consequences of validity

  /** When every packet has a wave and waves increase along edges, the wave numbers alone rule out cycles. */
  lemma WaveOrderIsAcyclic(ps: seq<PlanPacket>, g: Graph)
    requires IsPlanGraph(ps, g) && WavesOk(ps, g)
    requires forall k :: 0 <= k < |ps| ==> ps[k].waveIndex.Some?
    ensures Acyclic(g)
  {
    forall n ensures !Depends(g, n, n) {
      if Depends(g, n, n) {
        CyclicIsKey(g, n);
        var i :| 0 <= i < |ps| && g.keys[i] == n;
        DependencyInEarlierWave(ps, g, i, i);
      }
    }
  }

  /** Transitive dependencies of a packet are in strictly earlier waves. */
  lemma DependencyInEarlierWave(ps: seq<PlanPacket>, g: Graph, i: nat, j: nat)
    requires IsPlanGraph(ps, g) && WavesOk(ps, g)
    requires forall k :: 0 <= k < |ps| ==> ps[k].waveIndex.Some?
    requires i < |ps| && j < |ps| && Depends(g, Pid(ps[i]), Pid(ps[j]))
    ensures ps[j].waveIndex.value < ps[i].waveIndex.value
  {
    var p :| IsPath(g, p, Pid(ps[i]), Pid(ps[j]));
    PathLowersWave(ps, g, p, i, j);
  }

  lemma {:induction false} PathLowersWave(ps: seq<PlanPacket>, g: Graph, p: seq<Name>, i: nat, j: nat)
    requires IsPlanGraph(ps, g) && WavesOk(ps, g)
    requires forall k :: 0 <= k < |ps| ==> ps[k].waveIndex.Some?
    requires i < |ps| && j < |ps| && IsPath(g, p, Pid(ps[i]), Pid(ps[j]))
    ensures ps[j].waveIndex.value < ps[i].waveIndex.value
    decreases |p|
  {
    if |p| == 2 {
      assert LinkAt(g, p, 0);
    } else {
      PathTail(g, p, Pid(ps[i]), Pid(ps[j]));
      assert p[1] in g.keys;
      var next :| 0 <= next < |ps| && g.keys[next] == p[1];
      PathLowersWave(ps, g, p[1..], next, j);
    }
  }

  /** In a valid strict plan with all waves given, packets of one wave that are not the same share no file. */
  lemma SameWaveSharesNothing(ps: seq<PlanPacket>, g: Graph, i: nat, j: nat)
    requires PlanOk(ps, true, g) && forall k :: 0 <= k < |ps| ==> ps[k].waveIndex.Some?
    requires i < |ps| && j < |ps| && i != j && ps[i].waveIndex == ps[j].waveIndex
    ensures !SharesFile(ScopeOf(ps[i]), ScopeOf(ps[j]))
  {
    if SharesFile(ScopeOf(ps[i]), ScopeOf(ps[j])) {
      assert SharesFile(ScopeOf(ps[j]), ScopeOf(ps[i]));
      if Depends(g, Pid(ps[i]), Pid(ps[j])) {
        DependencyInEarlierWave(ps, g, i, j);
      } else {
        DependencyInEarlierWave(ps, g, j, i);
      }
    }
  }
}
