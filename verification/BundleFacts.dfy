/** What one step does to the tables, and how runs unfold into steps. */
module BundleFacts {
  import opened Wrappers
  import opened Entities
  import opened Storage
  import opened Names
  import opened Chars
  import opened WorkflowMapper
  import opened BundleSteps

  // ---- Growth: rows are only ever added, under names no row of the namespace had ----

  ghost predicate Grows(db: Db, db': Db) {
    && (forall n :: n in db.specs ==> n in db'.specs && db'.specs[n] == db.specs[n])
    && (forall n :: n in db.projections ==> n in db'.projections && db'.projections[n] == db.projections[n])
    && db.nodes <= db'.nodes
    && db.edges <= db'.edges
    && db.log == db'.log && db.types == db'.types && db.bundles == db'.bundles
    && (forall n :: n in db.Names(Nodes) ==> Matches(db'.nodes, n) == Matches(db.nodes, n))
  }

  lemma GrowsTransitive(a: Db, b: Db, c: Db)
    requires Grows(a, b) && Grows(b, c)
    ensures Grows(a, c)
  {
    assert c.nodes[..|a.nodes|] == b.nodes[..|a.nodes|] == a.nodes;
    forall n | n in a.Names(Nodes) ensures Matches(c.nodes, n) == Matches(a.nodes, n) {
      NamesGrow(a, b, Nodes);
    }
  }

  lemma NamesGrow(a: Db, b: Db, ns: Namespace)
    requires Grows(a, b)
    ensures a.Names(ns) <= b.Names(ns)
  {
    if ns == Nodes {
      forall n | n in a.Names(Nodes) ensures n in b.Names(Nodes) {
        var i :| 0 <= i < |a.nodes| && a.nodes[i].name == n;
        assert b.nodes[i].name == n;
      }
    }
  }

  lemma SameRowsGrows(a: Db, b: Db)
    requires a.SameRows(b)
    ensures Grows(a, b)
  {}

  // ---- Name resolution ----

  /** `final` is the first free candidate for `desired`, and no later than the number of stored names. */
  ghost predicate FirstFree(names: set<string>, desired: string, final: string) {
    exists n: nat ::
      && final == Candidate(desired, n)
      && final !in names
      && (forall i: nat :: i < n ==> Candidate(desired, i) in names)
      && n <= |names|
  }

  /** The suffix search finds the first free candidate, or a probe failed. */
  lemma {:induction false} SearchFindsFirstFree(env: Env, db: Db, ns: Namespace, desired: string, n: nat)
    requires forall i: nat :: i < n ==> Candidate(desired, i) in db.Names(ns)
    ensures var (r, d) := Search(env, db, ns, desired, n);
            && db.SameRows(d)
            && (r.Ok? ==> r.value.Use? && FirstFree(db.Names(ns), desired, r.value.name))
    decreases |db.Names(ns)| + 1 - n
  {
    CandidatesRunOut(db.Names(ns), desired, n);
    var c := Candidate(desired, n);
    ProbeReadsNames(env, db, ns, c);
    hide Exists, Candidate, Db.Names;
    var (r, d) := Exists(env, db, ns, c);
    if r == Ok(true) {
      SearchFindsFirstFree(env, d, ns, desired, n + 1);
    }
  }

  /** What each mode answers; an answer is never about a fault. */
  lemma ResolveFacts(env: Env, db: Db, ns: Namespace, desired: string, mode: ConflictMode)
    ensures var (r, d) := Resolve(env, db, ns, desired, mode);
            && db.SameRows(d)
            && (r.Ok? ==>
                  match r.value
                  case Use(final) =>
                    && FirstFree(db.Names(ns), desired, final)
                    && (final == desired <==> desired !in db.Names(ns))
                    && (final != desired ==> mode == Increment)
                  case SkipIt => mode == Skip && desired in db.Names(ns) && StoredOnce(db, ns, desired)
                  case AbortIt => mode == Error && desired in db.Names(ns))
  {
    ProbeReadsNames(env, db, ns, desired);
    var (r, d) := Exists(env, db, ns, desired);
    if r.Ok? && !r.value {
      assert Candidate(desired, 0) == desired;
      assert FirstFree(db.Names(ns), desired, desired);
    } else if r.Ok? && mode == Increment {
      assert forall i: nat :: i < 1 ==> Candidate(desired, i) == desired;
      SearchFindsFirstFree(env, d, ns, desired, 1);
    }
  }

  // ---- Writing ----

  /** The node row a node, wiring or workflow entry declares, up to its id. */
  ghost predicate Declares(env: Env, e: Entry, node: Node)
    requires Precheck(e) == None
  {
    match e
    case NodeEntry(_, nodeType, metadata) =>
      node.kind == nodeType && NormalizeMetadata(env, OrObject(metadata)) == Ok(node.metadata)
    case WiringEntry(_, _, _, _, _, _, _) => node.kind == "outline_node" && node.metadata == WiringMetadata(e)
    case WorkflowEntry(_, _, _, _, _) =>
      WorkflowOf(InputOf(e, node.name)).Ok? && node == NodeOf(WorkflowOf(InputOf(e, node.name)).value, env.seed)
    case _ => false
  }

  /** The report names a node row by its id, or by its name for a workflow. */
  ghost predicate Refers(k: Kind, ref: RowRef, node: Node) {
    ref == if k == KWorkflow then NameRef(node.name) else UlidRef(node.id)
  }

  /** Exactly one row is added, under the final name, holding what the entry declares. */
  ghost predicate Wrote(env: Env, e: Entry, renames: seq<(string, string)>, final: string, ref: RowRef, db: Db, db': Db)
    requires Precheck(e) == None
  {
    match e
    case SpecEntry(_, body) =>
      ref.UlidRef? && !SpecIdTaken(db, final, ref.id) && db.(specs := db.specs[final := SpecRow(ref.id, body.value)]).SameRows(db')
    case ProjectionEntry(_, specRef, template, targetForm) =>
      && ref.UlidRef? && !ProjectionIdTaken(db, final, ref.id)
      && db.(projections := db.projections[final :=
             ProjectionRow(ref.id, LookupRename(renames, specRef), template, LowerAscii(targetForm))]).SameRows(db')
    case EdgeEntry(_, _, _, _) => false
    case _ =>
      && |db'.nodes| == |db.nodes| + 1
      && var node := db'.nodes[|db.nodes|];
      && node.name == final
      && Refers(e.Kind(), ref, node)
      && Declares(env, e, node)
      && !NodeIdTaken(db, node.id) && node.kind in db.types
      && db.(nodes := db.nodes + [node]).SameRows(db')
  }

  /** A write adds exactly the row it should, or changes nothing. */
  ghost predicate Written(env: Env, db: Db, e: Entry, final: string, renames: seq<(string, string)>)
    requires Precheck(e) == None && !e.EdgeEntry?
  {
    var (w, d) := Write(env, db, e, final, renames);
    match w
    case Ok(ref) => Wrote(env, e, renames, final, ref, db, d)
    case Err(_) => db.SameRows(d)
  }

  lemma WriteKeyedFacts(env: Env, db: Db, e: Entry, final: string, renames: seq<(string, string)>)
    requires Precheck(e) == None && (e.SpecEntry? || e.ProjectionEntry?)
    requires final !in db.Names(NamespaceOf(e.Kind()))
    ensures Written(env, db, e, final, renames)
  {
    hide LookupRename, LowerAscii;
  }

  lemma WriteNodeFacts(env: Env, db: Db, e: Entry, final: string, renames: seq<(string, string)>)
    requires Precheck(e) == None && e.NodeEntry?
    requires final !in db.Names(NamespaceOf(e.Kind()))
    ensures Written(env, db, e, final, renames)
  {
    hide OrObject, Matches;
  }

  lemma WriteWiringFacts(env: Env, db: Db, e: Entry, final: string, renames: seq<(string, string)>)
    requires Precheck(e) == None && e.WiringEntry?
    requires final !in db.Names(NamespaceOf(e.Kind()))
    ensures Written(env, db, e, final, renames)
  {
    hide OptionsOf, OverridesOf, Matches;
  }

  lemma WriteWorkflowFacts(env: Env, db: Db, e: Entry, final: string, renames: seq<(string, string)>)
    requires Precheck(e) == None && e.WorkflowEntry?
    requires final !in db.Names(NamespaceOf(e.Kind()))
    ensures Written(env, db, e, final, renames)
  {
    hide WorkflowOf, Matches;
  }

  lemma WriteFacts(env: Env, db: Db, e: Entry, final: string, renames: seq<(string, string)>)
    requires Precheck(e) == None && !e.EdgeEntry?
    requires final !in db.Names(NamespaceOf(e.Kind()))
    ensures Written(env, db, e, final, renames)
  {
    hide Write, Wrote, Written;
    match e
    case SpecEntry(_, _) => WriteKeyedFacts(env, db, e, final, renames);
    case ProjectionEntry(_, _, _, _) => WriteKeyedFacts(env, db, e, final, renames);
    case NodeEntry(_, _, _) => WriteNodeFacts(env, db, e, final, renames);
    case WiringEntry(_, _, _, _, _, _, _) => WriteWiringFacts(env, db, e, final, renames);
    case WorkflowEntry(_, _, _, _, _) => WriteWorkflowFacts(env, db, e, final, renames);
  }

  lemma WroteGrows(env: Env, e: Entry, renames: seq<(string, string)>, final: string, ref: RowRef, db: Db, db': Db)
    requires Precheck(e) == None && Wrote(env, e, renames, final, ref, db, db')
    requires final !in db.Names(NamespaceOf(e.Kind()))
    ensures Grows(db, db')
    ensures db'.Names(NamespaceOf(e.Kind())) == db.Names(NamespaceOf(e.Kind())) + {final}
    ensures forall ns :: ns != NamespaceOf(e.Kind()) ==> db'.Names(ns) == db.Names(ns)
    ensures NamespaceOf(e.Kind()) == Nodes ==> Matches(db'.nodes, final) == [db'.nodes[|db.nodes|]]
  {
    hide Matches, Declares, NodeNames, LookupRename;
    if NamespaceOf(e.Kind()) == Nodes {
      NodeAppended(db.nodes, db'.nodes[|db.nodes|]);
    }
  }

  lemma NodeAppended(nodes: seq<Node>, node: Node)
    requires node.name !in NodeNames(nodes)
    ensures forall n :: n != node.name ==> Matches(nodes + [node], n) == Matches(nodes, n)
    ensures Matches(nodes + [node], node.name) == [node]
    ensures NodeNames(nodes + [node]) == NodeNames(nodes) + {node.name}
  {
    forall n ensures Matches(nodes + [node], n) == Matches(nodes, n) + (if n == node.name then [node] else []) {
      MatchesAppend(nodes, [node], n);
      assert Matches([node][1..], n) == [];
    }
    MatchesNone(nodes, node.name);
    NodeNamesAppend(nodes, node);
  }

  // ---- Storage calls only count up ----

  lemma {:induction false} SearchTicks(env: Env, db: Db, ns: Namespace, desired: string, n: nat)
    requires forall i: nat :: i < n ==> Candidate(desired, i) in db.Names(ns)
    ensures Search(env, db, ns, desired, n).1.tick > db.tick
    decreases |db.Names(ns)| + 1 - n
  {
    CandidatesRunOut(db.Names(ns), desired, n);
    ProbeReadsNames(env, db, ns, Candidate(desired, n));
    var (r, d) := Exists(env, db, ns, Candidate(desired, n));
    if r == Ok(true) {
      hide Candidate, Db.Names;
      SearchTicks(env, d, ns, desired, n + 1);
    }
  }

  lemma ResolveTicks(env: Env, db: Db, ns: Namespace, desired: string, mode: ConflictMode)
    ensures Resolve(env, db, ns, desired, mode).1.tick > db.tick
  {
    hide Matches, NodeNames;
    ProbeReadsNames(env, db, ns, desired);
    var (r, d) := Exists(env, db, ns, desired);
    if r == Ok(true) && mode == Increment {
      assert forall i: nat :: i < 1 ==> Candidate(desired, i) == desired;
      SearchTicks(env, d, ns, desired, 1);
    }
  }

  lemma WriteTicks(env: Env, db: Db, e: Entry, final: string, renames: seq<(string, string)>)
    requires Precheck(e) == None && !e.EdgeEntry?
    ensures Write(env, db, e, final, renames).1.tick >= db.tick
  {
    hide OrObject, WiringMetadata, WorkflowOf, LookupRename;
  }

  /** The tables a step ends in, whether it goes on, stops or fails. */
  function DbOf(r: StepResult): Db {
    match r
    case Next(t) => t.db
    case Abort(t) => t.db
    case Fail(db, _) => db
  }

  lemma StepTicks(env: Env, mode: ConflictMode, e: Entry, s: State)
    ensures DbOf(Step(env, mode, e, s)).tick >= s.db.tick
  {
    hide Resolve, Write, Renames, LookupRename, Matches, OrObject;
    if Precheck(e) == None && !e.EdgeEntry? {
      ResolveTicks(env, s.db, NamespaceOf(e.Kind()), e.Name(), mode);
      var (r, d) := Resolve(env, s.db, NamespaceOf(e.Kind()), e.Name(), mode);
      if r.Ok? && r.value.Use? {
        WriteTicks(env, d, e, r.value.name, Renames(s.rows, KSpec));
      }
    }
  }

  // ---- One step ----

  /** An installed edge joins the unique rows its rewritten endpoint names resolve to. */
  ghost predicate WroteEdge(e: EdgeDecl, renames: seq<(string, string)>, item: InstalledItem, db: Db, db': Db) {
    var src, tgt := LookupRename(renames, e.fromName), LookupRename(renames, e.toName);
    && item.ref.UlidRef?
    && item.final == src + "->" + tgt
    && |Matches(db.nodes, src)| == 1 && |Matches(db.nodes, tgt)| == 1
    && !EdgeIdTaken(db, item.ref.id) && e.edgeType in db.types
    && db.(edges := db.edges + [Edge(item.ref.id, Matches(db.nodes, src)[0].id, Matches(db.nodes, tgt)[0].id,
                                     e.edgeType, OrObject(e.metadata))]).SameRows(db')
  }

  /** What the row of a step says about the tables before and after it. */
  ghost predicate RowFacts(env: Env, mode: ConflictMode, e: Entry, s: State, row: Row, db': Db) {
    && row.Kind() == e.Kind() && row.Name() == e.Name()
    && match row
       case Skipped(_) => s.db.SameRows(db') && mode == Skip && !e.EdgeEntry? && Precheck(e) == None
                          && e.Name() in s.db.Names(NamespaceOf(e.Kind())) && StoredOnce(s.db, NamespaceOf(e.Kind()), e.Name())
       case Errored(x) =>
         && s.db.SameRows(db') && x.error != NameExists
         && (x.error.Malformed? <==> Precheck(e).Some?)
         && (!e.EdgeEntry? && Precheck(e) == None && mode != Increment ==> e.Name() !in s.db.Names(NamespaceOf(e.Kind())))
       case Installed(item) =>
         && Precheck(e) == None
         && if e.EdgeEntry? then WroteEdge(e, Renames(s.rows, KNode), item, s.db, db')
            else
              && Wrote(env, e, Renames(s.rows, KSpec), item.final, item.ref, s.db, db')
              && FirstFree(s.db.Names(NamespaceOf(e.Kind())), e.Name(), item.final)
              && (item.final == e.Name() <==> e.Name() !in s.db.Names(NamespaceOf(e.Kind())))
              && (item.final != e.Name() ==> mode == Increment)
  }

  /** A step ends in one row; the tables grow by exactly what that row reports. */
  ghost predicate Stepped(env: Env, mode: ConflictMode, e: Entry, s: State, t: State) {
    && |t.rows| == |s.rows| + 1 && t.rows[..|s.rows|] == s.rows
    && Grows(s.db, t.db)
    && RowFacts(env, mode, e, s, t.rows[|s.rows|], t.db)
  }

  /** An abort reports the collision and writes nothing; it only happens in error mode. */
  ghost predicate Collided(mode: ConflictMode, e: Entry, s: State, t: State) {
    && mode == Error && !e.EdgeEntry? && Precheck(e) == None && e.Name() in s.db.Names(NamespaceOf(e.Kind()))
    && t.rows == s.rows + [Errored(ErrorItem(e.Kind(), e.Name(), NameExists))]
    && s.db.SameRows(t.db)
  }

  /** Probing changes no row, so a write seen from after the probes is a write seen from before them. */
  lemma WroteFrom(env: Env, e: Entry, renames: seq<(string, string)>, final: string, ref: RowRef, db: Db, d: Db, db': Db)
    requires Precheck(e) == None && db.SameRows(d) && Wrote(env, e, renames, final, ref, d, db')
    ensures Wrote(env, e, renames, final, ref, db, db')
  {}

  /** The step of an entry whose name resolved to `final` after probes that led from `s.db` to `d`. */
  lemma UseFacts(env: Env, mode: ConflictMode, e: Entry, s: State, d: Db, final: string)
    requires Precheck(e) == None && !e.EdgeEntry? && s.db.SameRows(d)
    requires var names := s.db.Names(NamespaceOf(e.Kind()));
             && FirstFree(names, e.Name(), final)
             && (final == e.Name() <==> e.Name() !in names)
             && (final != e.Name() ==> mode == Increment)
    ensures var (w, d') := Write(env, d, e, final, Renames(s.rows, KSpec));
            match w
            case Ok(ref) => Stepped(env, mode, e, s, Record(s, d', Installed(InstalledItem(e.Kind(), e.Name(), final, ref))))
            case Err(x) => Stepped(env, mode, e, s, Record(s, d', Errored(ErrorItem(e.Kind(), e.Name(), Rejected(x)))))
  {
    hide Write, Wrote, FirstFree, Grows, Renames;
    var renames := Renames(s.rows, KSpec);
    SameRowsGrows(s.db, d);
    FirstFreeIsFree(s.db.Names(NamespaceOf(e.Kind())), e.Name(), final);
    WriteFacts(env, d, e, final, renames);
    var (w, d') := Write(env, d, e, final, renames);
    if w.Ok? {
      WroteGrows(env, e, renames, final, w.value, d, d');
      WroteFrom(env, e, renames, final, w.value, s.db, d, d');
      GrowsTransitive(s.db, d, d');
    } else {
      SameRowsGrows(s.db, d');
    }
  }

  lemma StepNamedFacts(env: Env, mode: ConflictMode, e: Entry, s: State)
    requires Precheck(e) == None && !e.EdgeEntry?
    ensures match StepNamed(env, mode, e, s)
            case Next(t) => Stepped(env, mode, e, s, t)
            case Abort(t) => Collided(mode, e, s, t)
            case Fail(d, _) => s.db.SameRows(d)
  {
    hide Resolve, Write, Wrote, FirstFree, Grows, Renames;
    ResolveFacts(env, s.db, NamespaceOf(e.Kind()), e.Name(), mode);
    var (r, d) := Resolve(env, s.db, NamespaceOf(e.Kind()), e.Name(), mode);
    if r.Ok? && r.value.Use? {
      hide RowFacts;
      UseFacts(env, mode, e, s, d, r.value.name);
    } else {
      SameRowsGrows(s.db, d);
    }
  }

  lemma FirstFreeIsFree(names: set<string>, desired: string, final: string)
    requires FirstFree(names, desired, final)
    ensures final !in names
  {}

  lemma StepEdgeFacts(env: Env, mode: ConflictMode, e: EdgeDecl, s: State)
    ensures Stepped(env, mode, e, s, StepEdge(env, e, s))
  {
    hide Renames, LookupRename, Matches, OrObject;
  }

  lemma StepFacts(env: Env, mode: ConflictMode, e: Entry, s: State)
    ensures match Step(env, mode, e, s)
            case Next(t) => Stepped(env, mode, e, s, t)
            case Abort(t) => Collided(mode, e, s, t)
            case Fail(d, _) => s.db.SameRows(d)
  {
    hide StepNamed, StepEdge, Renames, Wrote, WroteEdge, FirstFree;
    if Precheck(e).Some? {
      SameRowsGrows(s.db, s.db);
    } else if e.EdgeEntry? {
      StepEdgeFacts(env, mode, e, s);
    } else {
      hide RowFacts, Grows;
      StepNamedFacts(env, mode, e, s);
    }
  }

  // ---- Runs as chains of steps ----

  /** A chain of states, one step apart, starting with no report rows. */
  ghost predicate Chain(env: Env, mode: ConflictMode, es: seq<Entry>, h: seq<State>) {
    && 1 <= |h| <= |es| + 1
    && h[0].rows == []
    && forall i :: 0 <= i < |h| - 1 ==> Step(env, mode, es[i], h[i]) == Next(h[i + 1])
  }

  /** The states a run passes through before it completes, aborts or fails. */
  ghost function History(env: Env, mode: ConflictMode, es: seq<Entry>, s: State): (h: seq<State>)
    ensures |h| >= 1 && h[0] == s
  {
    if es == [] then [s]
    else
      match Step(env, mode, es[0], s)
      case Next(t) => [s] + History(env, mode, es[1..], t)
      case _ => [s]
  }

  /** Every run is its chain of steps, ending where the manifest or the run ends. */
  lemma {:induction false} RunUnfolds(env: Env, mode: ConflictMode, es: seq<Entry>, s: State)
    ensures var h := History(env, mode, es, s);
            && 1 <= |h| <= |es| + 1
            && (forall i :: 0 <= i < |h| - 1 ==> Step(env, mode, es[i], h[i]) == Next(h[i + 1]))
            && match Run(env, mode, es, s)
               case Completed(t) => |h| == |es| + 1 && h[|es|] == t
               case Aborted(t) => |h| <= |es| && Step(env, mode, es[|h| - 1], h[|h| - 1]) == Abort(t)
               case Failed(d, x) => |h| <= |es| && Step(env, mode, es[|h| - 1], h[|h| - 1]) == Fail(d, x)
  {
    hide Step;
    if es != [] {
      var r := Step(env, mode, es[0], s);
      if r.Next? {
        RunUnfolds(env, mode, es[1..], r.s);
        var h, h' := History(env, mode, es, s), History(env, mode, es[1..], r.s);
        assert h == [s] + h';
        forall i | 0 <= i < |h| - 1 ensures Step(env, mode, es[i], h[i]) == Next(h[i + 1]) {
          if i > 0 {
            assert es[i] == es[1..][i - 1] && h[i] == h'[i - 1] && h[i + 1] == h'[i];
          }
        }
      }
    }
  }

  /** Earlier states of a chain are prefixes of later ones, rows and tables alike. */
  lemma {:induction false} ChainGrows(env: Env, mode: ConflictMode, es: seq<Entry>, h: seq<State>, i: nat, j: nat)
    requires Chain(env, mode, es, h) && i <= j < |h|
    ensures |h| <= |es| + 1 && |h[i].rows| == i && |h[j].rows| == j
    ensures h[j].rows[..i] == h[i].rows
    ensures Grows(h[i].db, h[j].db)
    decreases j
  {
    hide Step;
    if i < j {
      ChainGrows(env, mode, es, h, i, j - 1);
      StepFacts(env, mode, es[j - 1], h[j - 1]);
      GrowsTransitive(h[i].db, h[j - 1].db, h[j].db);
      assert h[j].rows[..i] == h[j].rows[..j - 1][..i];
    } else if j > 0 {
      ChainGrows(env, mode, es, h, j - 1, j - 1);
      StepFacts(env, mode, es[j - 1], h[j - 1]);
    }
  }

  /** Step `i` of a chain, seen from any later state. */
  lemma ChainStep(env: Env, mode: ConflictMode, es: seq<Entry>, h: seq<State>, i: nat, j: nat)
    requires Chain(env, mode, es, h) && i < j < |h|
    ensures |h| <= |es| + 1 && |h[i].rows| == i && |h[j].rows| == j
    ensures Stepped(env, mode, es[i], h[i], h[i + 1])
    ensures h[j].rows[i] == h[i + 1].rows[i] && h[j].rows[..i] == h[i].rows
    ensures Grows(h[i].db, h[i + 1].db) && Grows(h[i + 1].db, h[j].db)
    ensures RowFacts(env, mode, es[i], h[i], h[j].rows[i], h[i + 1].db)
  {
    hide Step;
    ChainGrows(env, mode, es, h, i, j);
    ChainGrows(env, mode, es, h, i + 1, j);
    StepFacts(env, mode, es[i], h[i]);
    assert h[j].rows[i] == h[j].rows[..i + 1][i];
  }
}
