/** The installer itself: six section loops over a storage object, accumulating the report. */
module BundleInstall {
  import opened Wrappers
  import opened Json
  import opened Entities
  import opened Storage
  import opened Names
  import opened WorkflowMapper
  import opened BundleSteps
  import opened BundleTheorems

  /** How a section ends: done, stopped by a collision in error mode, or failed by a storage error. */
  datatype Flow = Continue | Stop | Raise(error: WireError)

  class Installer {
    const storage: SqliteStorage
    const mode: ConflictMode
    var installed: seq<InstalledItem>
    var skipped: seq<SkippedItem>
    var errors: seq<ErrorItem>
    var specRename: seq<(string, string)>
    var nodeRename: seq<(string, string)>
    ghost var rows: seq<Row>

    /** The report lists and rename maps are what the rows so far amount to. */
    ghost predicate Valid()
      reads this
    {
      && installed == InstalledRows(rows) && skipped == SkippedRows(rows) && errors == ErrorRows(rows)
      && specRename == Renames(rows, KSpec) && nodeRename == Renames(rows, KNode)
    }

    ghost function Progress(): State
      reads this, storage
    {
      State(storage.Tables(), rows)
    }

    constructor (storage: SqliteStorage, mode: ConflictMode)
      ensures this.storage == storage && this.mode == mode
      ensures Valid() && rows == []
    {
      this.storage, this.mode := storage, mode;
      installed, skipped, errors, specRename, nodeRename, rows := [], [], [], [], [], [];
    }

    /** The section ended the way the specification says, with the same tables and rows. */
    ghost predicate Ended(r: RunResult, flow: Flow)
      reads this, storage
    {
      match r
      case Completed(s) => flow == Continue && Valid() && Progress() == s
      case Aborted(s) => flow == Stop && Valid() && Progress() == s
      case Failed(db, x) => flow == Raise(x) && storage.Tables() == db
    }

    /** One entry was dispatched the way the specification says. */
    ghost predicate Dispatched(r: StepResult, flow: Flow)
      reads this, storage
    {
      match r
      case Next(s) => flow == Continue && Valid() && Progress() == s
      case Abort(s) => flow == Stop && Valid() && Progress() == s
      case Fail(db, x) => flow == Raise(x) && storage.Tables() == db
    }

    // ---- Report rows ----

    method PushInstalled(kind: Kind, original: string, final: string, ref: RowRef)
      requires Valid()
      modifies this
      ensures Valid() && rows == old(rows) + [Installed(InstalledItem(kind, original, final, ref))]
    {
      hide InstalledRows, SkippedRows, ErrorRows, Renames;
      var row := Installed(InstalledItem(kind, original, final, ref));
      if final != original {
        if kind == KSpec {
          specRename := specRename + [(original, final)];
        } else if kind == KNode {
          nodeRename := nodeRename + [(original, final)];
        }
      }
      installed := installed + [row.item];
      RowsSnoc(rows, row);
      rows := rows + [row];
    }

    method PushSkipped(kind: Kind, name: string)
      requires Valid()
      modifies this
      ensures Valid() && rows == old(rows) + [Skipped(SkippedItem(kind, name))]
    {
      var row := Skipped(SkippedItem(kind, name));
      skipped := skipped + [row.skip];
      RowsSnoc(rows, row);
      rows := rows + [row];
    }

    method PushError(kind: Kind, name: string, error: Failure)
      requires Valid()
      modifies this
      ensures Valid() && rows == old(rows) + [Errored(ErrorItem(kind, name, error))]
    {
      var row := Errored(ErrorItem(kind, name, error));
      errors := errors + [row.error];
      RowsSnoc(rows, row);
      rows := rows + [row];
    }

    static lemma RowsSnoc(rows: seq<Row>, row: Row)
      ensures InstalledRows(rows + [row]) == if row.Installed? then InstalledRows(rows) + [row.item] else InstalledRows(rows)
      ensures SkippedRows(rows + [row]) == if row.Skipped? then SkippedRows(rows) + [row.skip] else SkippedRows(rows)
      ensures ErrorRows(rows + [row]) == if row.Errored? then ErrorRows(rows) + [row.error] else ErrorRows(rows)
      ensures forall k :: Renames(rows + [row], k) ==
                          if row.Installed? && row.item.kind == k && row.item.final != row.item.original
                          then Renames(rows, k) + [(row.item.original, row.item.final)] else Renames(rows, k)
    {
      InstalledSnoc(rows, row);
      assert (rows + [row])[..|rows|] == rows;
    }

    // ---- Name resolution ----

    /** Probe the name, then in increment mode `name-1`, `name-2`, ... until one is free. */
    method ResolveName(ns: Namespace, desired: string) returns (r: Result<Resolution, WireError>)
      modifies storage
      ensures (r, storage.Tables()) == Resolve(storage.env, old(storage.Tables()), ns, desired, mode)
    {
      ghost var db := storage.Tables();
      var taken := storage.NameExists(ns, desired);
      ProbeReadsNames(storage.env, db, ns, desired);
      if taken.Err? {
        return Err(taken.error);
      }
      if !taken.value {
        return Ok(Use(desired));
      }
      if mode == Skip {
        return Ok(SkipIt);
      }
      if mode == Error {
        return Ok(AbortIt);
      }
      var n := 1;
      ghost var first := storage.Tables();
      ghost var names := db.Names(ns);
      while true
        invariant n >= 1 && storage.Tables().Names(ns) == names
        invariant forall i: nat :: i < n ==> Candidate(desired, i) in names
        invariant Search(storage.env, storage.Tables(), ns, desired, n) == Search(storage.env, first, ns, desired, 1)
        decreases |names| + 1 - n
      {
        CandidatesRunOut(names, desired, n);
        ghost var here := storage.Tables();
        var candidate := desired + "-" + Decimal(n);
        taken := storage.NameExists(ns, candidate);
        ProbeReadsNames(storage.env, here, ns, candidate);
        if taken.Err? {
          return Err(taken.error);
        }
        if !taken.value {
          return Ok(Use(candidate));
        }
        n := n + 1;
      }
    }

    // ---- One entry of each section ----

    /** Report what became of a write. */
    method PushWrite(kind: Kind, original: string, final: string, w: Result<RowRef, WireError>)
      requires Valid()
      modifies this
      ensures Valid()
      ensures rows == old(rows) + [match w
                                   case Ok(ref) => Installed(InstalledItem(kind, original, final, ref))
                                   case Err(x) => Errored(ErrorItem(kind, original, Rejected(x)))]
    {
      match w {
        case Ok(ref) => PushInstalled(kind, original, final, ref);
        case Err(x) => PushError(kind, original, Rejected(x));
      }
    }

    /** What a name that did not resolve to a use leads to. */
    method PushUnused(kind: Kind, name: string, r: Result<Resolution, WireError>) returns (flow: Flow)
      requires Valid() && (r.Ok? ==> !r.value.Use?)
      modifies this
      ensures match r
              case Err(x) => flow == Raise(x)
              case Ok(SkipIt) => flow == Continue && Valid() && rows == old(rows) + [Skipped(SkippedItem(kind, name))]
              case Ok(AbortIt) => flow == Stop && Valid() && rows == old(rows) + [Errored(ErrorItem(kind, name, NameExists))]
    {
      match r {
        case Err(x) => return Raise(x);
        case Ok(SkipIt) =>
          PushSkipped(kind, name);
          return Continue;
        case Ok(AbortIt) =>
          PushError(kind, name, NameExists);
          return Stop;
      }
    }

    method DispatchSpec(e: Spec) returns (flow: Flow)
      requires Valid()
      modifies this, storage
      ensures Dispatched(Step(storage.env, mode, e, old(Progress())), flow)
    {
      if e.body.Err? {
        PushError(KSpec, e.name, Malformed(e.body.error));
        return Continue;
      }
      var r := ResolveName(Specs, e.name);
      if r.Err? || !r.value.Use? {
        flow := PushUnused(KSpec, e.name, r);
        return;
      }
      var id := storage.RegisterSpec(r.value.name, e.body.value);
      PushWrite(KSpec, e.name, r.value.name, match id case Ok(u) => Ok(UlidRef(u)) case Err(x) => Err(x));
      return Continue;
    }

    method DispatchProjection(e: Projection) returns (flow: Flow)
      requires Valid()
      modifies this, storage
      ensures Dispatched(Step(storage.env, mode, e, old(Progress())), flow)
    {
      var specRef := FindRename(specRename, e.specRef);
      var r := ResolveName(Projections, e.name);
      if r.Err? || !r.value.Use? {
        flow := PushUnused(KProjection, e.name, r);
        return;
      }
      var built := BuildProjection(r.value.name, specRef, e.template, e.targetForm);
      if built.Err? {
        PushError(KProjection, e.name, Rejected(built.error));
        return Continue;
      }
      var (ref, template, form) := built.value;
      var id := storage.RegisterProjection(r.value.name, ref, template, form);
      PushWrite(KProjection, e.name, r.value.name, match id case Ok(u) => Ok(UlidRef(u)) case Err(x) => Err(x));
      return Continue;
    }

    /** Insert a node row under a minted id. */
    method AddMinted(name: string, kind: string, metadata: Json) returns (r: Result<RowRef, WireError>)
      modifies storage
      ensures (r, storage.Tables()) == InsertMinted(storage.env, old(storage.Tables()), name, kind, metadata)
    {
      var id := storage.Mint();
      var done := storage.AddNode(Node(id, name, kind, metadata));
      r := match done case Ok(_) => Ok(UlidRef(id)) case Err(x) => Err(x);
    }

    method DispatchNode(e: NodeDecl) returns (flow: Flow)
      requires Valid()
      modifies this, storage
      ensures Dispatched(Step(storage.env, mode, e, old(Progress())), flow)
    {
      var r := ResolveName(Nodes, e.name);
      if r.Err? || !r.value.Use? {
        flow := PushUnused(KNode, e.name, r);
        return;
      }
      var w := AddMinted(r.value.name, e.nodeType, OrObject(e.metadata));
      PushWrite(KNode, e.name, r.value.name, w);
      return Continue;
    }

    /** Edges have no name to resolve: a missing or ambiguous endpoint is an error row. */
    method DispatchEdge(e: EdgeDecl) returns (flow: Flow)
      requires Valid()
      modifies this, storage
      ensures Dispatched(Step(storage.env, mode, e, old(Progress())), flow)
    {
      var src := FindRename(nodeRename, e.fromName);
      var tgt := FindRename(nodeRename, e.toName);
      var name := e.fromName + "->" + e.toName;
      var a := storage.LookupNodeIdByName(src);
      if a.Err? || a.value == None {
        PushError(KEdge, name, Rejected(if a.Err? then a.error else NotFound(src)));
        return Continue;
      }
      var b := storage.LookupNodeIdByName(tgt);
      if b.Err? || b.value == None {
        PushError(KEdge, name, Rejected(if b.Err? then b.error else NotFound(tgt)));
        return Continue;
      }
      var id := storage.Mint();
      var done := storage.AddEdge(Edge(id, a.value.value, b.value.value, e.edgeType, OrObject(e.metadata)));
      PushWrite(KEdge, name, src + "->" + tgt, match done case Ok(_) => Ok(UlidRef(id)) case Err(x) => Err(x));
      return Continue;
    }

    method DispatchWiring(e: Wiring) returns (flow: Flow)
      requires Valid()
      modifies this, storage
      ensures Dispatched(Step(storage.env, mode, e, old(Progress())), flow)
    {
      var composed := e.personaId + "." + e.slot;
      var r := ResolveName(Nodes, composed);
      if r.Err? || !r.value.Use? {
        flow := PushUnused(KWiring, composed, r);
        return;
      }
      var meta := BuildWiringMetadata(e);
      var w := AddMinted(r.value.name, "outline_node", meta);
      PushWrite(KWiring, composed, r.value.name, w);
      return Continue;
    }

    method DispatchWorkflow(e: WorkflowDecl) returns (flow: Flow)
      requires Valid()
      modifies this, storage
      ensures Dispatched(Step(storage.env, mode, e, old(Progress())), flow)
    {
      if e.trigger.Err? {
        PushError(KWorkflow, e.id, Malformed(e.trigger.error));
        return Continue;
      }
      if e.action.Err? {
        PushError(KWorkflow, e.id, Malformed(e.action.error));
        return Continue;
      }
      var r := ResolveName(Nodes, e.id);
      if r.Err? || !r.value.Use? {
        flow := PushUnused(KWorkflow, e.id, r);
        return;
      }
      var built := BuildWorkflow(RegisterInput(r.value.name, e.persona, e.trigger.value, e.action.value, e.enabled));
      if built.Err? {
        PushError(KWorkflow, e.id, Rejected(built.error));
        return Continue;
      }
      var node := WorkflowToNode(built.value, storage.env.seed);
      var done := storage.AddNode(node);
      PushWrite(KWorkflow, e.id, r.value.name, match done case Ok(_) => Ok(NameRef(built.value.id)) case Err(x) => Err(x));
      return Continue;
    }

    // ---- The six sections ----

    method InstallSpecs(entries: seq<Spec>) returns (flow: Flow)
      requires Valid()
      modifies this, storage
      ensures Ended(Run(storage.env, mode, entries, old(Progress())), flow)
    {
      hide Step;
      for i := 0 to |entries|
        invariant Valid()
        invariant Run(storage.env, mode, entries[i..], Progress()) == Run(storage.env, mode, entries, old(Progress()))
      {
        flow := DispatchSpec(entries[i]);
        if flow != Continue {
          return;
        }
      }
      return Continue;
    }

    method InstallProjections(entries: seq<Projection>) returns (flow: Flow)
      requires Valid()
      modifies this, storage
      ensures Ended(Run(storage.env, mode, entries, old(Progress())), flow)
    {
      hide Step;
      for i := 0 to |entries|
        invariant Valid()
        invariant Run(storage.env, mode, entries[i..], Progress()) == Run(storage.env, mode, entries, old(Progress()))
      {
        flow := DispatchProjection(entries[i]);
        if flow != Continue {
          return;
        }
      }
      return Continue;
    }

    method InstallNodes(entries: seq<NodeDecl>) returns (flow: Flow)
      requires Valid()
      modifies this, storage
      ensures Ended(Run(storage.env, mode, entries, old(Progress())), flow)
    {
      hide Step;
      for i := 0 to |entries|
        invariant Valid()
        invariant Run(storage.env, mode, entries[i..], Progress()) == Run(storage.env, mode, entries, old(Progress()))
      {
        flow := DispatchNode(entries[i]);
        if flow != Continue {
          return;
        }
      }
      return Continue;
    }

    method InstallEdges(entries: seq<EdgeDecl>) returns (flow: Flow)
      requires Valid()
      modifies this, storage
      ensures Ended(Run(storage.env, mode, entries, old(Progress())), flow)
    {
      hide Step;
      for i := 0 to |entries|
        invariant Valid()
        invariant Run(storage.env, mode, entries[i..], Progress()) == Run(storage.env, mode, entries, old(Progress()))
      {
        flow := DispatchEdge(entries[i]);
        if flow != Continue {
          return;
        }
      }
      return Continue;
    }

    method InstallWirings(entries: seq<Wiring>) returns (flow: Flow)
      requires Valid()
      modifies this, storage
      ensures Ended(Run(storage.env, mode, entries, old(Progress())), flow)
    {
      hide Step;
      for i := 0 to |entries|
        invariant Valid()
        invariant Run(storage.env, mode, entries[i..], Progress()) == Run(storage.env, mode, entries, old(Progress()))
      {
        flow := DispatchWiring(entries[i]);
        if flow != Continue {
          return;
        }
      }
      return Continue;
    }

    method InstallWorkflows(entries: seq<WorkflowDecl>) returns (flow: Flow)
      requires Valid()
      modifies this, storage
      ensures Ended(Run(storage.env, mode, entries, old(Progress())), flow)
    {
      hide Step;
      for i := 0 to |entries|
        invariant Valid()
        invariant Run(storage.env, mode, entries[i..], Progress()) == Run(storage.env, mode, entries, old(Progress()))
      {
        flow := DispatchWorkflow(entries[i]);
        if flow != Continue {
          return;
        }
      }
      return Continue;
    }

    /** All sections in order, up to the first that does not end well. */
    method InstallAll(m: Manifest) returns (flow: Flow)
      requires Valid()
      modifies this, storage
      ensures Ended(Run(storage.env, mode, m.Entries(), old(Progress())), flow)
    {
      hide Run, Step;
      ghost var s0 := Progress();
      RunSections(storage.env, mode, m, s0);
      flow := InstallSpecs(m.specs);
      if flow != Continue {
        return;
      }
      flow := InstallProjections(m.projections);
      if flow != Continue {
        return;
      }
      flow := InstallNodes(m.nodes);
      if flow != Continue {
        return;
      }
      flow := InstallEdges(m.edges);
      if flow != Continue {
        return;
      }
      flow := InstallWirings(m.wirings);
      if flow != Continue {
        return;
      }
      flow := InstallWorkflows(m.workflows);
    }
  }

  /** What follows a run that completed. */
  ghost function Then(env: Env, mode: ConflictMode, r: RunResult, es: seq<Entry>): RunResult {
    match r
    case Completed(s) => Run(env, mode, es, s)
    case _ => r
  }

  lemma {:induction false} RunAppend(env: Env, mode: ConflictMode, a: seq<Entry>, b: seq<Entry>, s: State)
    ensures Run(env, mode, a + b, s) == Then(env, mode, Run(env, mode, a, s), b)
  {
    hide Step;
    if a == [] {
      assert a + b == b;
    } else {
      assert (a + b)[1..] == a[1..] + b;
      match Step(env, mode, a[0], s) {
        case Next(t) => RunAppend(env, mode, a[1..], b, t);
        case _ =>
      }
    }
  }

  lemma RunSections(env: Env, mode: ConflictMode, m: Manifest, s: State)
    ensures var r1 := Run(env, mode, m.specs, s);
            var r2 := Then(env, mode, r1, m.projections);
            var r3 := Then(env, mode, r2, m.nodes);
            var r4 := Then(env, mode, r3, m.edges);
            var r5 := Then(env, mode, r4, m.wirings);
            Run(env, mode, m.Entries(), s) == Then(env, mode, r5, m.workflows)
  {
    hide Step, Run;
    var e1: seq<Entry> := m.specs;
    var e2 := e1 + m.projections;
    var e3 := e2 + m.nodes;
    var e4 := e3 + m.edges;
    var e5 := e4 + m.wirings;
    RunAppend(env, mode, e1, m.projections, s);
    RunAppend(env, mode, e2, m.nodes, s);
    RunAppend(env, mode, e3, m.edges, s);
    RunAppend(env, mode, e4, m.wirings, s);
    RunAppend(env, mode, e5, m.workflows, s);
  }

  /** The rename map is searched from the front. */
  method FindRename(renames: seq<(string, string)>, original: string) returns (name: string)
    ensures name == LookupRename(renames, original)
  {
    for i := 0 to |renames|
      invariant LookupRename(renames[i..], original) == LookupRename(renames, original)
    {
      if renames[i].0 == original {
        return renames[i].1;
      }
    }
    return original;
  }

  method BuildWiringMetadata(e: Wiring) returns (metadata: Json)
    ensures metadata == WiringMetadata(e)
  {
    var meta: map<string, Json> := map[];
    meta := meta["persona" := JString(e.personaId)];
    meta := meta["axis" := JString(e.slot)];
    meta := meta["source_uri" := JString(e.sourceUri)];
    ghost var keys := meta;
    if e.projectionRef.Some? {
      meta := meta["projection_ref" := JString(e.projectionRef.value)];
    }
    if e.maintenanceExempt.Some? {
      meta := meta["maintenance_exempt" := JBool(e.maintenanceExempt.value)];
    }
    if e.auth.Some? {
      meta := meta["auth" := JString(e.auth.value)];
    }
    assert meta == keys + OptionsOf(e);
    if e.metadata.JObject? {
      meta := meta + e.metadata.fields;
    }
    return JObject(meta);
  }

  /** Install a bundle: dispatch every section, then log the report, also after a collision. */
  method InstallBundle(m: Manifest, bundleId: Ulid, mode: ConflictMode, storage: SqliteStorage) returns (r: Result<Report, WireError>)
    modifies storage
    ensures (r, storage.Tables()) == Install(storage.env, mode, m, bundleId, old(storage.Tables()))
  {
    hide Run, Step;
    var installId := storage.Mint();
    var installer := new Installer(storage, mode);
    var flow := installer.InstallAll(m);
    if flow.Raise? {
      return Err(flow.error);
    }
    var report := Report(installId, bundleId, mode, installer.installed, installer.skipped, installer.errors);
    var logged := storage.AppendBundleInstall(LogRow(installId, report));
    r := match logged case Ok(_) => Ok(report) case Err(x) => Err(x);
  }
}
