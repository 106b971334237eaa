/** What installing a bundle computes, entry by entry in manifest section order. */
module BundleSteps {
  import opened Wrappers
  import opened Json
  import opened Entities
  import opened Storage
  import opened Names
  import opened Chars
  import opened WorkflowMapper

  // ---- Manifest ----

  /** A manifest entry. Spec bodies and workflow payloads come decoded, or with the decoder's complaint. */
  datatype Entry =
    | SpecEntry(name: string, body: Result<string, string>)
    | ProjectionEntry(name: string, specRef: string, template: string, targetForm: string)
    | NodeEntry(name: string, nodeType: string, metadata: Json)
    | EdgeEntry(fromName: string, toName: string, edgeType: string, metadata: Json)
    | WiringEntry(personaId: string, slot: string, sourceUri: string, projectionRef: Option<string>,
                  maintenanceExempt: Option<bool>, auth: Option<string>, metadata: Json)
    | WorkflowEntry(id: string, persona: Option<string>, trigger: Result<Json, string>,
                    action: Result<Json, string>, enabled: Option<bool>)
  {
    function Kind(): Kind {
      match this
      case SpecEntry(_, _) => KSpec
      case ProjectionEntry(_, _, _, _) => KProjection
      case NodeEntry(_, _, _) => KNode
      case EdgeEntry(_, _, _, _) => KEdge
      case WiringEntry(_, _, _, _, _, _, _) => KWiring
      case WorkflowEntry(_, _, _, _, _) => KWorkflow
    }

    /** The name an entry asks for, and the one its report row carries. */
    function Name(): string {
      match this
      case SpecEntry(name, _) => name
      case ProjectionEntry(name, _, _, _) => name
      case NodeEntry(name, _, _) => name
      case EdgeEntry(from, to, _, _) => from + "->" + to
      case WiringEntry(persona, slot, _, _, _, _, _) => persona + "." + slot
      case WorkflowEntry(id, _, _, _, _) => id
    }
  }

  type Spec = e: Entry | e.SpecEntry? witness SpecEntry("", Err(""))
  type Projection = e: Entry | e.ProjectionEntry? witness ProjectionEntry("", "", "", "")
  type NodeDecl = e: Entry | e.NodeEntry? witness NodeEntry("", "", JNull)
  type EdgeDecl = e: Entry | e.EdgeEntry? witness EdgeEntry("", "", "", JNull)
  type Wiring = e: Entry | e.WiringEntry? witness WiringEntry("", "", "", None, None, None, JNull)
  type WorkflowDecl = e: Entry | e.WorkflowEntry? witness WorkflowEntry("", None, Err(""), Err(""), None)

  datatype Manifest = Manifest(
    specs: seq<Spec>, projections: seq<Projection>, nodes: seq<NodeDecl>,
    edges: seq<EdgeDecl>, wirings: seq<Wiring>, workflows: seq<WorkflowDecl>)
  {
    /** All entries, in the order the installer dispatches them. */
    function Entries(): seq<Entry> {
      specs + projections + nodes + edges + wirings + workflows
    }
  }

  /** The namespace an entry's name lives in: wirings and workflows are nodes too. */
  function NamespaceOf(k: Kind): Namespace {
    match k
    case KSpec => Specs
    case KProjection => Projections
    case _ => Nodes
  }

  // ---- Progress ----

  /** The report row an entry ends in. */
  datatype Row = Installed(item: InstalledItem) | Skipped(skip: SkippedItem) | Errored(error: ErrorItem)
  {
    function Kind(): Kind {
      match this
      case Installed(i) => i.kind
      case Skipped(s) => s.kind
      case Errored(e) => e.kind
    }

    function Name(): string {
      match this
      case Installed(i) => i.original
      case Skipped(s) => s.name
      case Errored(e) => e.name
    }
  }

  datatype State = State(db: Db, rows: seq<Row>)

  function InstalledRows(rows: seq<Row>): seq<InstalledItem> {
    if rows == [] then []
    else InstalledRows(rows[..|rows| - 1]) + (match rows[|rows| - 1] case Installed(i) => [i] case _ => [])
  }

  function SkippedRows(rows: seq<Row>): seq<SkippedItem> {
    if rows == [] then []
    else SkippedRows(rows[..|rows| - 1]) + (match rows[|rows| - 1] case Skipped(s) => [s] case _ => [])
  }

  function ErrorRows(rows: seq<Row>): seq<ErrorItem> {
    if rows == [] then []
    else ErrorRows(rows[..|rows| - 1]) + (match rows[|rows| - 1] case Errored(e) => [e] case _ => [])
  }

  /** The rename map one kind of row contributes: installed under another name than asked for. */
  function Renames(rows: seq<Row>, k: Kind): seq<(string, string)> {
    if rows == [] then []
    else
      Renames(rows[..|rows| - 1], k) +
      match rows[|rows| - 1]
      case Installed(i) => if i.kind == k && i.final != i.original then [(i.original, i.final)] else []
      case _ => []
  }

  /** The first rename of a name, or the name itself. */
  function LookupRename(renames: seq<(string, string)>, original: string): string {
    if renames == [] then original
    else if renames[0].0 == original then renames[0].1
    else LookupRename(renames[1..], original)
  }

  // ---- Name resolution ----

  datatype Resolution = Use(name: string) | SkipIt | AbortIt

  /** Probe candidates `n`, `n + 1`, ... until one is free or a probe fails. */
  function Search(env: Env, db: Db, ns: Namespace, desired: string, n: nat): (Result<Resolution, WireError>, Db)
    requires forall i: nat :: i < n ==> Candidate(desired, i) in db.Names(ns)
    decreases |db.Names(ns)| + 1 - n
  {
    CandidatesRunOut(db.Names(ns), desired, n);
    var (r, d) := Exists(env, db, ns, Candidate(desired, n));
    match r
    case Err(e) => (Err(e), d)
    case Ok(taken) =>
      if !taken then (Ok(Use(Candidate(desired, n))), d)
      else
        ProbeReadsNames(env, db, ns, Candidate(desired, n));
        Search(env, d, ns, desired, n + 1)
  }

  function Resolve(env: Env, db: Db, ns: Namespace, desired: string, mode: ConflictMode)
    : (Result<Resolution, WireError>, Db)
  {
    var (r, d) := Exists(env, db, ns, desired);
    match r
    case Err(e) => (Err(e), d)
    case Ok(taken) =>
      if !taken then (Ok(Use(desired)), d)
      else
        match mode
        case Skip => (Ok(SkipIt), d)
        case Error => (Ok(AbortIt), d)
        case Increment =>
          ProbeReadsNames(env, db, ns, desired);
          Search(env, d, ns, desired, 1)
  }

  /** A probe that answers answers about the stored names, and changes no row. */
  lemma ProbeReadsNames(env: Env, db: Db, ns: Namespace, name: string)
    ensures var (r, d) := Exists(env, db, ns, name);
            && db.SameRows(d) && d.Names(ns) == db.Names(ns)
            && (r.Ok? ==> (r.value <==> name in db.Names(ns)))
            && (r == Ok(true) ==> StoredOnce(db, ns, name))
  {
    MatchesNone(db.nodes, name);
  }

  // ---- One entry ----

  /** What keeps an entry from being dispatched at all. */
  function Precheck(e: Entry): Option<string> {
    match e
    case SpecEntry(_, Err(what)) => Some(what)
    case WorkflowEntry(_, _, Err(what), _, _) => Some(what)
    case WorkflowEntry(_, _, _, Err(what), _) => Some(what)
    case _ => None
  }

  /** The projection a declaration stands for, with its references already rewritten. */
  function BuildProjection(name: string, specRef: string, template: string, targetForm: string)
    : Result<(string, string, string), WireError>
  {
    var form := LowerAscii(targetForm);
    if form != "prompt" && form != "markdown" && form != "json" && form != "ascii" then Err(InvalidTargetForm(form))
    else if name == "" then Err(InvalidProjection("name"))
    else if specRef == "" then Err(InvalidProjection("spec_ref"))
    else if template == "" then Err(InvalidProjection("template"))
    else Ok((specRef, template, form))
  }

  function OrObject(metadata: Json): Json {
    if metadata.JNull? then JObject(map[]) else metadata
  }

  /** The optional fields a wiring entry sets. */
  function OptionsOf(e: Wiring): (r: map<string, Json>)
    ensures r.Keys <= {"projection_ref", "maintenance_exempt", "auth"}
  {
    (if e.projectionRef.Some? then map["projection_ref" := JString(e.projectionRef.value)] else map[])
    + (if e.maintenanceExempt.Some? then map["maintenance_exempt" := JBool(e.maintenanceExempt.value)] else map[])
    + (if e.auth.Some? then map["auth" := JString(e.auth.value)] else map[])
  }

  /** What a wiring entry's own metadata object adds to the declared fields. */
  function OverridesOf(e: Wiring): map<string, Json> {
    if e.metadata.JObject? then e.metadata.fields else map[]
  }

  /** Wiring metadata: the declared fields, then whatever the entry's own object overrides. */
  function WiringMetadata(e: Wiring): Json {
    JObject(
      map["persona" := JString(e.personaId), "axis" := JString(e.slot), "source_uri" := JString(e.sourceUri)]
      + OptionsOf(e) + OverridesOf(e))
  }

  function InputOf(e: WorkflowDecl, id: string): RegisterInput
    requires Precheck(e) == None
  {
    RegisterInput(id, e.persona, e.trigger.value, e.action.value, e.enabled)
  }

  /** Insert a node row with a minted id. */
  function InsertMinted(env: Env, db: Db, name: string, kind: string, metadata: Json): (Result<RowRef, WireError>, Db) {
    var id := env.mint(db.tick);
    var (r, d) := InsertNode(env, db.Tick(), Entities.Node(id, name, kind, metadata));
    (match r case Ok(_) => Ok(UlidRef(id)) case Err(x) => Err(x), d)
  }

  /** Store a named entry under its final name. */
  function Write(env: Env, db: Db, e: Entry, final: string, renames: seq<(string, string)>): (Result<RowRef, WireError>, Db)
    requires Precheck(e) == None && !e.EdgeEntry?
  {
    match e
    case SpecEntry(_, body) =>
      var (r, d) := UpsertSpec(env, db, final, body.value);
      (match r case Ok(id) => Ok(UlidRef(id)) case Err(x) => Err(x), d)
    case ProjectionEntry(_, specRef, template, targetForm) =>
      (match BuildProjection(final, LookupRename(renames, specRef), template, targetForm)
       case Err(x) => (Err(x), db)
       case Ok((ref, t, form)) =>
         var (r, d) := UpsertProjection(env, db, final, ref, t, form);
         (match r case Ok(id) => Ok(UlidRef(id)) case Err(x) => Err(x), d))
    case NodeEntry(_, nodeType, metadata) => InsertMinted(env, db, final, nodeType, OrObject(metadata))
    case WiringEntry(_, _, _, _, _, _, _) => InsertMinted(env, db, final, "outline_node", WiringMetadata(e))
    case WorkflowEntry(_, _, _, _, _) =>
      match WorkflowOf(InputOf(e, final))
      case Err(x) => (Err(x), db)
      case Ok(w) =>
        var (r, d) := InsertNode(env, db, NodeOf(w, env.seed));
        (match r case Ok(_) => Ok(NameRef(w.id)) case Err(x) => Err(x), d)
  }

  datatype StepResult = Next(s: State) | Abort(s: State) | Fail(db: Db, error: WireError)

  function Record(s: State, db: Db, row: Row): State {
    State(db, s.rows + [row])
  }

  function StepNamed(env: Env, mode: ConflictMode, e: Entry, s: State): StepResult
    requires Precheck(e) == None && !e.EdgeEntry?
  {
    var (r, d) := Resolve(env, s.db, NamespaceOf(e.Kind()), e.Name(), mode);
    match r
    case Err(x) => Fail(d, x)
    case Ok(SkipIt) => Next(Record(s, d, Skipped(SkippedItem(e.Kind(), e.Name()))))
    case Ok(AbortIt) => Abort(Record(s, d, Errored(ErrorItem(e.Kind(), e.Name(), NameExists))))
    case Ok(Use(final)) =>
      var (w, d') := Write(env, d, e, final, Renames(s.rows, KSpec));
      match w
      case Ok(ref) => Next(Record(s, d', Installed(InstalledItem(e.Kind(), e.Name(), final, ref))))
      case Err(x) => Next(Record(s, d', Errored(ErrorItem(e.Kind(), e.Name(), Rejected(x)))))
  }

  /** Look both endpoints up, in order, failing on the first that is missing or ambiguous. */
  function Endpoints(env: Env, db: Db, src: string, tgt: string): (Result<(Ulid, Ulid), WireError>, Db) {
    var (a, d) := Lookup(env, db, src);
    match a
    case Err(x) => (Err(x), d)
    case Ok(None) => (Err(NotFound(src)), d)
    case Ok(Some(srcId)) =>
      var (b, d') := Lookup(env, d, tgt);
      match b
      case Err(x) => (Err(x), d')
      case Ok(None) => (Err(NotFound(tgt)), d')
      case Ok(Some(tgtId)) => (Ok((srcId, tgtId)), d')
  }

  function StepEdge(env: Env, e: EdgeDecl, s: State): State {
    var renames := Renames(s.rows, KNode);
    var src, tgt := LookupRename(renames, e.fromName), LookupRename(renames, e.toName);
    var (ends, d) := Endpoints(env, s.db, src, tgt);
    match ends
    case Err(x) => Record(s, d, Errored(ErrorItem(KEdge, e.Name(), Rejected(x))))
    case Ok((srcId, tgtId)) =>
      var id := env.mint(d.tick);
      var (r, d') := InsertEdge(env, d.Tick(), Edge(id, srcId, tgtId, e.edgeType, OrObject(e.metadata)));
      match r
      case Ok(_) => Record(s, d', Installed(InstalledItem(KEdge, e.Name(), src + "->" + tgt, UlidRef(id))))
      case Err(x) => Record(s, d', Errored(ErrorItem(KEdge, e.Name(), Rejected(x))))
  }

  function Step(env: Env, mode: ConflictMode, e: Entry, s: State): StepResult {
    match Precheck(e)
    case Some(what) => Next(Record(s, s.db, Errored(ErrorItem(e.Kind(), e.Name(), Malformed(what)))))
    case None => if e.EdgeEntry? then Next(StepEdge(env, e, s)) else StepNamed(env, mode, e, s)
  }

  // ---- A whole run ----

  datatype RunResult = Completed(s: State) | Aborted(s: State) | Failed(db: Db, error: WireError)

  function Run(env: Env, mode: ConflictMode, es: seq<Entry>, s: State): RunResult {
    if es == [] then Completed(s)
    else
      match Step(env, mode, es[0], s)
      case Next(t) => Run(env, mode, es[1..], t)
      case Abort(t) => Aborted(t)
      case Fail(db, x) => Failed(db, x)
  }

  function ReportOf(id: Ulid, bundleId: Ulid, mode: ConflictMode, rows: seq<Row>): Report {
    Report(id, bundleId, mode, InstalledRows(rows), SkippedRows(rows), ErrorRows(rows))
  }

  function Finalize(env: Env, db: Db, report: Report): (Result<Report, WireError>, Db) {
    var (r, d) := AppendInstall(env, db, LogRow(report.installId, report));
    (match r case Ok(_) => Ok(report) case Err(x) => Err(x), d)
  }

  function Start(db: Db): State {
    State(db.Tick(), [])
  }

  /** `install_bundle` on a parsed manifest: the answer and the tables afterwards. */
  function Install(env: Env, mode: ConflictMode, m: Manifest, bundleId: Ulid, db: Db): (Result<Report, WireError>, Db) {
    var id := env.mint(db.tick);
    match Run(env, mode, m.Entries(), Start(db))
    case Failed(d, x) => (Err(x), d)
    case Aborted(s) => Finalize(env, s.db, ReportOf(id, bundleId, mode, s.rows))
    case Completed(s) => Finalize(env, s.db, ReportOf(id, bundleId, mode, s.rows))
  }
}
