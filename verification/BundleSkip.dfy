/** Reinstalling a bundle in skip mode changes nothing but the edges, which no mode gates. */
module BundleSkip {
  import opened Wrappers
  import opened Entities
  import opened Storage
  import opened BundleSteps
  import opened BundleFacts
  import opened BundleTheorems
  import opened BundleReferences
  import opened BundleRuns

  ghost predicate NoErrors(rows: seq<Row>) {
    forall i :: 0 <= i < |rows| ==> !rows[i].Errored?
  }

  lemma NoErrorsBefore(rows: seq<Row>, j: int)
    requires NoErrors(rows) && j < |rows|
    ensures j >= 0 ==> NoErrors(rows[..j]) && !rows[j].Errored?
  {}

  lemma {:induction false} NoErrorRows(rows: seq<Row>)
    requires ErrorRows(rows) == []
    ensures NoErrors(rows)
  {
    if rows != [] {
      NoErrorRows(rows[..|rows| - 1]);
    }
  }

  /** Outside increment mode nothing is renamed, so references stay as written. */
  lemma {:induction false} NoRenames(rows: seq<Row>, name: string)
    requires forall i :: 0 <= i < |rows| && rows[i].Installed? && rows[i].item.kind == KNode ==> rows[i].item.final == rows[i].item.original
    ensures LookupRename(Renames(rows, KNode), name) == name
  {
    if rows != [] {
      NoRenames(rows[..|rows| - 1], name);
      LookupAppend(Renames(rows[..|rows| - 1], KNode), [], name);
    }
  }

  // ---- The first install leaves every name taken ----

  lemma SkipRunTakesNames(env: Env, es: seq<Entry>, h: seq<State>, i: nat)
    requires Chain(env, Skip, es, h) && |h| == |es| + 1 && |h[|es|].rows| == |es| && NoErrors(h[|es|].rows)
    requires i < |es| && !es[i].EdgeEntry?
    ensures Precheck(es[i]) == None && es[i].Name() in h[|es|].db.Names(NamespaceOf(es[i].Kind()))
    ensures StoredOnce(h[|es|].db, NamespaceOf(es[i].Kind()), es[i].Name())
  {
    hide Step, Matches, Declares, FirstFree, Chain;
    var e := es[i];
    var ns := NamespaceOf(e.Kind());
    ChainStep(env, Skip, es, h, i, |es|);
    var row := h[|es|].rows[i];
    if row.Installed? {
      WroteGrows(env, e, Renames(h[i].rows, KSpec), row.item.final, row.item.ref, h[i].db, h[i + 1].db);
    }
    StoredOnceGrows(h[i + 1].db, h[|es|].db, ns, e.Name());
  }

  lemma StoredOnceGrows(a: Db, b: Db, ns: Namespace, name: string)
    requires Grows(a, b) && StoredOnce(a, ns, name)
    ensures StoredOnce(b, ns, name) && name in b.Names(ns)
  {
    MatchesNone(a.nodes, name);
    NamesGrow(a, b, ns);
  }

  // ---- The second install skips them all ----

  /** Every named entry is well-formed and its name is taken. */
  ghost predicate AllTaken(es: seq<Entry>, db: Db) {
    forall i :: 0 <= i < |es| && !es[i].EdgeEntry? ==>
                  Precheck(es[i]) == None && es[i].Name() in db.Names(NamespaceOf(es[i].Kind()))
  }

  /** All tables but the edges hold the same rows. */
  ghost predicate SameButEdges(a: Db, b: Db) {
    a.specs == b.specs && a.projections == b.projections && a.nodes == b.nodes
  }

  lemma {:induction false} TakenNamesAreSkipped(env: Env, es: seq<Entry>, h: seq<State>, j: nat)
    requires Chain(env, Skip, es, h) && j < |h| && AllTaken(es, h[0].db)
    ensures |h[j].rows| == j && SameButEdges(h[0].db, h[j].db)
    ensures forall i :: 0 <= i < j && !es[i].EdgeEntry? ==> h[j].rows[i] == Skipped(SkippedItem(es[i].Kind(), es[i].Name()))
  {
    hide Step, Chain, Grows, Wrote, FirstFree, Matches;
    if j == 0 {
      ChainGrows(env, Skip, es, h, 0, 0);
    } else {
      TakenNamesAreSkipped(env, es, h, j - 1);
      ChainStep(env, Skip, es, h, j - 1, j);
      assert es[j - 1].EdgeEntry? || es[j - 1].Name() in h[j - 1].db.Names(NamespaceOf(es[j - 1].Kind()));
      assert forall i :: 0 <= i < j - 1 ==> h[j].rows[i] == h[j - 1].rows[i];
    }
  }

  // ---- Edges ----

  function EdgeOffset(m: Manifest): nat {
    |m.specs| + |m.projections| + |m.nodes|
  }

  /** Edges inserted once `j` entries are done: one per edge entry. */
  function EdgesDone(m: Manifest, j: nat): nat {
    if j <= EdgeOffset(m) then 0
    else if j <= EdgeOffset(m) + |m.edges| then j - EdgeOffset(m)
    else |m.edges|
  }

  /** A step that does not err inserts an edge exactly when its entry is one. */
  lemma StepEdgeCount(env: Env, mode: ConflictMode, e: Entry, s: State, t: State)
    requires Stepped(env, mode, e, s, t) && !t.rows[|s.rows|].Errored?
    ensures |t.db.edges| == |s.db.edges| + if e.EdgeEntry? then 1 else 0
  {
    hide FirstFree, Declares, Matches, LookupRename, Renames, Grows;
  }

  lemma {:induction false} EdgePositions(env: Env, mode: ConflictMode, m: Manifest, h: seq<State>, j: nat)
    requires Chain(env, mode, m.Entries(), h) && j < |h| && |h[j].rows| == j && NoErrors(h[j].rows)
    ensures |h[j].db.edges| == |h[0].db.edges| + EdgesDone(m, j)
  {
    hide *;
    NoErrorsBefore(h[j].rows, j - 1);
    if j > 0 {
      var es := m.Entries();
      ChainStep(env, mode, es, h, j - 1, j);
      EdgePositions(env, mode, m, h, j - 1);
      StepEdgeCount(env, mode, es[j - 1], h[j - 1], h[j]);
      EdgesDoneStep(m, j - 1);
    } else {
      EdgesDoneNone(m);
    }
  }

  lemma EdgesDoneNone(m: Manifest)
    ensures EdgesDone(m, 0) == 0
  {}

  lemma EdgesDoneStep(m: Manifest, i: nat)
    requires i < |m.Entries()|
    ensures EdgesDone(m, i + 1) == EdgesDone(m, i) + if m.Entries()[i].EdgeEntry? then 1 else 0
  {
    EdgesInPlace(m, i);
  }

  lemma EdgesInPlace(m: Manifest, i: nat)
    requires i < |m.Entries()|
    ensures m.Entries()[i].EdgeEntry? <==> EdgeOffset(m) <= i < EdgeOffset(m) + |m.edges|
  {
    EntryPositions(m);
    if EdgeOffset(m) <= i < EdgeOffset(m) + |m.edges| {
      assert m.Entries()[EdgeOffset(m) + (i - EdgeOffset(m))] == m.edges[i - EdgeOffset(m)];
    }
  }

  /** Edge entry `i` comes after the first `i` edges. */
  lemma EdgeAt(m: Manifest, i: nat)
    requires i < |m.edges|
    ensures EdgeOffset(m) + i < |m.Entries()| && m.Entries()[EdgeOffset(m) + i] == m.edges[i]
    ensures EdgesDone(m, EdgeOffset(m) + i) == i
  {
    EntryPositions(m);
  }

  lemma EdgeInstalled(env: Env, mode: ConflictMode, e: EdgeDecl, s: State, t: State)
    requires Stepped(env, mode, e, s, t) && !t.rows[|s.rows|].Errored?
    ensures t.rows[|s.rows|].Installed?
  {
    hide WroteEdge, Grows;
  }

  /** Up to its id, the edge an edge entry stands for among some node rows. */
  ghost predicate Joins(e: EdgeDecl, nodes: seq<Node>, edge: Edge) {
    && |Matches(nodes, e.fromName)| == 1 && |Matches(nodes, e.toName)| == 1
    && edge == Edge(edge.id, Matches(nodes, e.fromName)[0].id, Matches(nodes, e.toName)[0].id, e.edgeType, OrObject(e.metadata))
  }

  /** An installed edge whose names were not rewritten joins, now and ever after, the rows of its names. */
  lemma StepJoins(env: Env, mode: ConflictMode, e: EdgeDecl, s: State, t: State, later: Db)
    requires Stepped(env, mode, e, s, t) && t.rows[|s.rows|].Installed? && Grows(t.db, later)
    requires LookupRename(Renames(s.rows, KNode), e.fromName) == e.fromName
    requires LookupRename(Renames(s.rows, KNode), e.toName) == e.toName
    ensures |s.db.edges| < |later.edges| && Joins(e, later.nodes, later.edges[|s.db.edges|])
    ensures !EdgeIdTaken(s.db, later.edges[|s.db.edges|].id)
  {
    hide FirstFree, Declares, LookupRename, Renames, Matches;
    MatchesNone(t.db.nodes, e.fromName);
    MatchesNone(t.db.nodes, e.toName);
    assert t.db.nodes == s.db.nodes;
    assert later.edges[|s.db.edges|] == t.db.edges[|s.db.edges|];
  }

  /** In an error-free skip run, edge entry `i` is the `i`-th new edge row and joins the rows its names
      belong to at the end of the run. */
  lemma SkipRunEdge(env: Env, m: Manifest, h: seq<State>, i: nat)
    requires var n := |m.Entries()|;
             Chain(env, Skip, m.Entries(), h) && |h| == n + 1 && |h[n].rows| == n && NoErrors(h[n].rows)
    requires i < |m.edges|
    ensures var n := |m.Entries()|;
            && |h[n].db.edges| == |h[0].db.edges| + |m.edges|
            && Joins(m.edges[i], h[n].db.nodes, h[n].db.edges[|h[0].db.edges| + i])
            && !EdgeIdTaken(h[0].db, h[n].db.edges[|h[0].db.edges| + i].id)
  {
    hide *;
    var es, n, e := m.Entries(), |m.Entries()|, EdgeOffset(m) + i;
    EdgeAt(m, i);
    ChainStep(env, Skip, es, h, e, n);
    NoErrorsBefore(h[n].rows, e);
    EdgePositions(env, Skip, m, h, e);
    EdgePositions(env, Skip, m, h, n);
    AllEdgesDone(m);
    SkipNodesKeepNames(env, es, h, e);
    NoRenames(h[e].rows, m.edges[i].fromName);
    NoRenames(h[e].rows, m.edges[i].toName);
    EdgeInstalled(env, Skip, es[e], h[e], h[e + 1]);
    StepJoins(env, Skip, m.edges[i], h[e], h[e + 1], h[n].db);
    ChainGrows(env, Skip, es, h, 0, e);
    NewLaterNewBefore(h[0].db, h[e].db, h[n].db.edges[|h[0].db.edges| + i].id);
  }

  lemma NewLaterNewBefore(a: Db, b: Db, id: Ulid)
    requires Grows(a, b) && !EdgeIdTaken(b, id)
    ensures !EdgeIdTaken(a, id)
  {
    assert forall i :: 0 <= i < |a.edges| ==> a.edges[i] == b.edges[i];
  }

  lemma SkipNodesKeepNames(env: Env, es: seq<Entry>, h: seq<State>, j: nat)
    requires Chain(env, Skip, es, h) && j < |h|
    ensures |h[j].rows| == j
    ensures forall i :: 0 <= i < j && h[j].rows[i].Installed? && h[j].rows[i].item.kind == KNode ==>
              h[j].rows[i].item.final == h[j].rows[i].item.original
  {
    hide Step, Chain, FirstFree, Wrote, WroteEdge, Grows;
    ChainGrows(env, Skip, es, h, 0, j);
    forall i | 0 <= i < j && h[j].rows[i].Installed? && h[j].rows[i].item.kind == KNode
      ensures h[j].rows[i].item.final == h[j].rows[i].item.original
    {
      ChainStep(env, Skip, es, h, i, j);
    }
  }

  /** The chain of an install that returned a report without aborting. */
  lemma CompletedChain(env: Env, m: Manifest, bundleId: Ulid, db: Db) returns (h: seq<State>)
    requires Install(env, Skip, m, bundleId, db).0.Ok?
    ensures var (r, db') := Install(env, Skip, m, bundleId, db);
            var n := |m.Entries()|;
            && Chain(env, Skip, m.Entries(), h) && |h| == n + 1 && |h[n].rows| == n
            && h[0].db.SameRows(db) && h[n].rows == RunOf(env, Skip, m, db).s.rows
            && SameButEdges(h[n].db, db') && h[n].db.edges == db'.edges && h[n].db.types == db'.types
            && r.value.errors == ErrorRows(h[n].rows)
  {
    hide Run, Step, Manifest.Entries, RowAccounts;
    ReportAccountsForEveryEntry(env, Skip, m, bundleId, db);
    h := RunChain(env, Skip, m.Entries(), Start(db));
    assert RunOf(env, Skip, m, db).Completed?;
  }

  /** After a skip install without error rows, any skip install that returns a report skips every named
      entry and leaves specs, projections and nodes as they are, whatever calls fail; without error rows of
      its own it adds one more copy of each declared edge, equal to the first up to its id. */
  lemma SecondReport(env: Env, m: Manifest, first: Ulid, second: Ulid, db: Db)
    requires ErrorFree(Install(env, Skip, m, first, db).0)
    requires var db1 := Install(env, Skip, m, first, db).1; Install(env, Skip, m, second, db1).0.Ok?
    ensures var db1 := Install(env, Skip, m, first, db).1;
            var (r, db2) := Install(env, Skip, m, second, db1);
            var rows, es := RunOf(env, Skip, m, db1).s.rows, m.Entries();
            && |rows| == |es|
            && (forall i :: 0 <= i < |es| && !es[i].EdgeEntry? ==> rows[i] == Skipped(SkippedItem(es[i].Kind(), es[i].Name())))
            && SameButEdges(db1, db2)
            && |db1.edges| == |db.edges| + |m.edges|
            && (r.value.errors == [] ==>
                  && |db2.edges| == |db1.edges| + |m.edges|
                  && SameEdges(db1.edges[|db.edges|..], db2.edges[|db1.edges|..])
                  && forall i :: |db1.edges| <= i < |db2.edges| ==> !EdgeIdTaken(db1, db2.edges[i].id))
  {
    hide Install, Run, Step, Chain, Manifest.Entries, EdgesDone;
    var es := m.Entries();
    var n := |es|;
    var db1 := Install(env, Skip, m, first, db).1;
    var h := CompletedChain(env, m, first, db);
    var g := CompletedChain(env, m, second, db1);
    NoErrorRows(h[n].rows);
    assert AllTaken(es, g[0].db) by {
      forall i | 0 <= i < n && !es[i].EdgeEntry?
        ensures Precheck(es[i]) == None && es[i].Name() in g[0].db.Names(NamespaceOf(es[i].Kind()))
      {
        SkipRunTakesNames(env, es, h, i);
      }
    }
    TakenNamesAreSkipped(env, es, g, n);
    EdgePositions(env, Skip, m, h, n);
    AllEdgesDone(m);
    if ErrorRows(g[n].rows) == [] {
      NoErrorRows(g[n].rows);
      EdgePositions(env, Skip, m, g, n);
      var before, added := db1.edges[|db.edges|..], g[n].db.edges[|db1.edges|..];
      forall i | 0 <= i < |m.edges|
        ensures before[i].(id := added[i].id) == added[i] && !EdgeIdTaken(db1, g[n].db.edges[|db1.edges| + i].id)
      {
        SkipRunEdge(env, m, h, i);
        SkipRunEdge(env, m, g, i);
      }
    }
  }

  // ---- The second install goes through ----

  /** No edge row and no log row has an id that is still to be minted. */
  ghost predicate MintsAhead(env: Env, db: Db) {
    forall t: nat :: t >= db.tick ==> !EdgeIdTaken(db, env.mint(t)) && !InstallIdTaken(db, env.mint(t))
  }

  /** No storage call fails for outside reasons, every call mints another id, and those still to come are new
      to the store's edges and log. */
  ghost predicate Orderly(env: Env, db: Db) {
    && (forall t: nat :: !env.fault(t))
    && (forall t: nat, u: nat :: t != u ==> env.mint(t) != env.mint(u))
    && MintsAhead(env, db)
  }

  /** Order lasts: an edge step mints the id it uses, and no other step adds to edges or log. */
  lemma StepKeepsMints(env: Env, mode: ConflictMode, e: Entry, s: State)
    requires Orderly(env, s.db)
    ensures MintsAhead(env, DbOf(Step(env, mode, e, s)))
  {
    StepTicks(env, mode, e, s);
    StepFacts(env, mode, e, s);
    if e.EdgeEntry? && Precheck(e) == None {
      hide Renames, LookupRename, Matches, OrObject;
      var d := Endpoints(env, s.db, LookupRename(Renames(s.rows, KNode), e.fromName), LookupRename(Renames(s.rows, KNode), e.toName)).1;
      assert forall t: nat :: t > d.tick ==> env.mint(t) != env.mint(d.tick);
    } else {
      hide Step, Grows, FirstFree, Declares, Matches, LookupRename, Renames;
    }
  }

  lemma {:induction false} RunKeepsMints(env: Env, mode: ConflictMode, es: seq<Entry>, s: State)
    requires Orderly(env, s.db) && !Run(env, mode, es, s).Failed?
    ensures Orderly(env, Run(env, mode, es, s).s.db) && Run(env, mode, es, s).s.db.tick >= s.db.tick
    ensures Run(env, mode, es, s).s.db.log == s.db.log
  {
    hide Step, MintsAhead, Stepped, RowFacts;
    if es != [] {
      StepKeepsMints(env, mode, es[0], s);
      StepTicks(env, mode, es[0], s);
      StepFacts(env, mode, es[0], s);
      KeepsLog(env, mode, es[0], s);
      match Step(env, mode, es[0], s) {
        case Next(t) => RunKeepsMints(env, mode, es[1..], t);
        case _ =>
      }
    }
  }

  lemma KeepsLog(env: Env, mode: ConflictMode, e: Entry, s: State)
    ensures DbOf(Step(env, mode, e, s)).log == s.db.log
  {
    StepFacts(env, mode, e, s);
    hide Step, RowFacts;
  }

  /** An install that returns a report leaves an orderly store orderly: its own log row and edges have ids
      that were minted. */
  lemma InstallKeepsMints(env: Env, mode: ConflictMode, m: Manifest, bundleId: Ulid, db: Db)
    requires Orderly(env, db) && Install(env, mode, m, bundleId, db).0.Ok?
    ensures Orderly(env, Install(env, mode, m, bundleId, db).1)
    ensures Install(env, mode, m, bundleId, db).1.bundles == db.bundles
  {
    hide Run, Step, Manifest.Entries;
    RunKeepsMints(env, mode, m.Entries(), Start(db));
    InstallKeepsBundles(env, mode, m, bundleId, db);
    var db' := Install(env, mode, m, bundleId, db).1;
    assert db'.log[..|db.log|] == db.log && db'.log[|db.log|].installId == env.mint(db.tick);
  }

  lemma InstallKeepsBundles(env: Env, mode: ConflictMode, m: Manifest, bundleId: Ulid, db: Db)
    requires Install(env, mode, m, bundleId, db).0.Ok?
    ensures Install(env, mode, m, bundleId, db).1.bundles == db.bundles
  {
    InstallAddsExactlyItsReport(env, mode, m, bundleId, db);
    hide Install, NamesReported, SpecsReported, ProjectionsReported, NodesReported, EdgesReported, ItemsIn;
  }

  /** What a store has to hold for an entry to pass a skip run without an error row. */
  ghost predicate Replayable(db: Db, e: Entry) {
    && Precheck(e) == None
    && if e.EdgeEntry? then |Matches(db.nodes, e.fromName)| == 1 && |Matches(db.nodes, e.toName)| == 1 && e.edgeType in db.types
       else StoredOnce(db, NamespaceOf(e.Kind()), e.Name())
  }

  /** A run that has added nothing to `db` but edges, met no error, and still has new ids to mint. */
  ghost predicate Replaying(env: Env, db: Db, s: State) {
    && SameButEdges(db, s.db) && s.db.log == db.log && s.db.types == db.types && s.db.bundles == db.bundles
    && NoErrors(s.rows)
    && (forall i :: 0 <= i < |s.rows| && s.rows[i].Installed? ==> s.rows[i].item.kind != KNode)
    && s.db.tick >= db.tick
    && (forall t: nat :: t >= s.db.tick ==> !EdgeIdTaken(s.db, env.mint(t)))
  }

  lemma EdgeReplays(env: Env, db: Db, e: EdgeDecl, s: State)
    requires Orderly(env, db) && Replaying(env, db, s) && Replayable(db, e)
    ensures Replaying(env, db, StepEdge(env, e, s))
  {
    NoRenames(s.rows, e.fromName);
    NoRenames(s.rows, e.toName);
    MatchesStored(db.nodes, e.fromName);
    MatchesStored(db.nodes, e.toName);
    hide Renames, LookupRename, Matches, OrObject;
    var d := Endpoints(env, s.db, e.fromName, e.toName).1;
    assert forall t: nat :: t > d.tick ==> env.mint(t) != env.mint(d.tick);
  }

  lemma StepReplays(env: Env, db: Db, e: Entry, s: State)
    requires Orderly(env, db) && Replaying(env, db, s) && Replayable(db, e)
    ensures Step(env, Skip, e, s).Next? && Replaying(env, db, Step(env, Skip, e, s).s)
  {
    if e.EdgeEntry? {
      hide StepEdge;
      EdgeReplays(env, db, e, s);
    } else {
      hide Write, Matches, NodeNames, Renames;
    }
  }

  lemma {:induction false} RunReplays(env: Env, db: Db, es: seq<Entry>, s: State)
    requires Orderly(env, db) && Replaying(env, db, s) && forall i :: 0 <= i < |es| ==> Replayable(db, es[i])
    ensures Run(env, Skip, es, s).Completed? && Replaying(env, db, Run(env, Skip, es, s).s)
  {
    hide Step, Orderly, Replaying, Replayable;
    if es != [] {
      StepReplays(env, db, es[0], s);
      RunReplays(env, db, es[1..], Step(env, Skip, es[0], s).s);
    }
  }

  lemma {:induction false} NoErrorsReported(rows: seq<Row>)
    requires NoErrors(rows)
    ensures ErrorRows(rows) == []
  {
    if rows != [] {
      NoErrorsReported(rows[..|rows| - 1]);
    }
  }

  /** An install of entries that can all be replayed returns a report without errors. */
  lemma InstallReplays(env: Env, m: Manifest, bundleId: Ulid, db: Db)
    requires Orderly(env, db) && bundleId in db.bundles
    requires forall i :: 0 <= i < |m.Entries()| ==> Replayable(db, m.Entries()[i])
    ensures ErrorFree(Install(env, Skip, m, bundleId, db).0)
  {
    hide Run, Step, Manifest.Entries, Replayable;
    assert Replaying(env, db, Start(db));
    RunReplays(env, db, m.Entries(), Start(db));
    NoErrorsReported(RunOf(env, Skip, m, db).s.rows);
  }

  /** Skip reinstall. When no storage call fails and minted ids are new, a skip install without error rows is
      followed by a second one that goes through without error rows: it skips every named entry, leaves
      specs, projections and nodes as they are, and adds one more copy of each declared edge, equal to the
      first up to its id. */
  lemma SkipReinstall(env: Env, m: Manifest, first: Ulid, second: Ulid, db: Db)
    requires ErrorFree(Install(env, Skip, m, first, db).0)
    requires Orderly(env, db) && second in db.bundles
    ensures var db1 := Install(env, Skip, m, first, db).1; ErrorFree(Install(env, Skip, m, second, db1).0)
    ensures var db1 := Install(env, Skip, m, first, db).1;
            var db2 := Install(env, Skip, m, second, db1).1;
            var rows, es := RunOf(env, Skip, m, db1).s.rows, m.Entries();
            && |rows| == |es|
            && (forall i :: 0 <= i < |es| && !es[i].EdgeEntry? ==> rows[i] == Skipped(SkippedItem(es[i].Kind(), es[i].Name())))
            && SameButEdges(db1, db2)
            && |db1.edges| == |db.edges| + |m.edges|
            && |db2.edges| == |db1.edges| + |m.edges|
            && db1.edges <= db2.edges
            && SameEdges(db1.edges[|db.edges|..], db2.edges[|db1.edges|..])
            && forall i :: |db1.edges| <= i < |db2.edges| ==> !EdgeIdTaken(db1, db2.edges[i].id)
  {
    hide Install, Run, Step, Chain, Manifest.Entries, Orderly, SameEdges, EdgeIdTaken;
    var es := m.Entries();
    var db1 := Install(env, Skip, m, first, db).1;
    var h := CompletedChain(env, m, first, db);
    NoErrorRows(h[|es|].rows);
    InstallKeepsMints(env, Skip, m, first, db);
    forall i | 0 <= i < |es| ensures Replayable(db1, es[i]) {
      FirstRunReplayable(env, m, h, db1, i);
    }
    InstallReplays(env, m, second, db1);
    SecondReport(env, m, first, second, db);
    EarlierEdgesStay(env, m, second, db1);
  }

  lemma EarlierEdgesStay(env: Env, m: Manifest, bundleId: Ulid, db: Db)
    requires Install(env, Skip, m, bundleId, db).0.Ok?
    ensures db.edges <= Install(env, Skip, m, bundleId, db).1.edges
  {
    InstallAddsExactlyItsReport(env, Skip, m, bundleId, db);
    hide Install, NamesReported, SpecsReported, ProjectionsReported, NodesReported, EdgesReported, ItemsIn;
  }

  /** An error-free skip run leaves a store on which each of its entries can be replayed. */
  lemma FirstRunReplayable(env: Env, m: Manifest, h: seq<State>, db: Db, i: nat)
    requires var n := |m.Entries()|;
             && Chain(env, Skip, m.Entries(), h) && |h| == n + 1 && |h[n].rows| == n && NoErrors(h[n].rows)
             && SameButEdges(h[n].db, db) && h[n].db.types == db.types
    requires i < |m.Entries()|
    ensures Replayable(db, m.Entries()[i])
  {
    var es, n := m.Entries(), |m.Entries()|;
    hide Step, Chain, Manifest.Entries, Matches;
    if es[i].EdgeEntry? {
      EdgesInPlace(m, i);
      EdgeAt(m, i - EdgeOffset(m));
      SkipRunEdge(env, m, h, i - EdgeOffset(m));
      ChainStep(env, Skip, es, h, i, n);
      NoErrorsBefore(h[n].rows, i);
    } else {
      SkipRunTakesNames(env, es, h, i);
    }
  }

  /** The same edges in the same order, up to their ids. */
  ghost predicate SameEdges(a: seq<Edge>, b: seq<Edge>) {
    |a| == |b| && forall i :: 0 <= i < |a| ==> a[i].(id := b[i].id) == b[i]
  }

  lemma AllEdgesDone(m: Manifest)
    ensures EdgesDone(m, |m.Entries()|) == |m.edges|
  {}
}
