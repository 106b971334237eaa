/** What a bundle install promises: frame, accounting, and the meaning of references. */
module BundleTheorems {
  import opened Wrappers
  import opened Entities
  import opened Storage
  import opened BundleSteps
  import opened BundleFacts

  ghost function RunOf(env: Env, mode: ConflictMode, m: Manifest, db: Db): RunResult {
    Run(env, mode, m.Entries(), Start(db))
  }

  /** The state a run that returns a report ends in. */
  ghost function Final(env: Env, mode: ConflictMode, m: Manifest, db: Db): State
    requires !RunOf(env, mode, m, db).Failed?
  {
    RunOf(env, mode, m, db).s
  }

  // ---- Exact frame ----

  datatype Table = SpecTable | ProjectionTable | NodeTable | EdgeTable

  function TableOf(k: Kind): Table {
    match k
    case KSpec => SpecTable
    case KProjection => ProjectionTable
    case KEdge => EdgeTable
    case _ => NodeTable
  }

  /** The installed items of one table, in report order. */
  function ItemsIn(items: seq<InstalledItem>, t: Table): seq<InstalledItem> {
    if items == [] then []
    else
      var last := items[|items| - 1];
      ItemsIn(items[..|items| - 1], t) + (if TableOf(last.kind) == t then [last] else [])
  }

  lemma ItemsInSnoc(items: seq<InstalledItem>, item: InstalledItem, t: Table)
    ensures ItemsIn(items + [item], t) == if TableOf(item.kind) == t then ItemsIn(items, t) + [item] else ItemsIn(items, t)
  {
    assert (items + [item])[..|items|] == items;
  }

  ghost predicate FinalsDistinct(items: seq<InstalledItem>) {
    forall i, j :: 0 <= i < j < |items| ==> items[i].final != items[j].final
  }

  ghost function Finals(items: seq<InstalledItem>): set<string> {
    set i | 0 <= i < |items| :: items[i].final
  }

  ghost predicate NodesReported(added: seq<Node>, items: seq<InstalledItem>) {
    && |added| == |items|
    && forall i :: 0 <= i < |items| ==> added[i].name == items[i].final && Refers(items[i].kind, items[i].ref, added[i])
  }

  ghost predicate EdgesReported(added: seq<Edge>, items: seq<InstalledItem>) {
    && |added| == |items|
    && forall i :: 0 <= i < |items| ==> UlidRef(added[i].id) == items[i].ref
  }

  /** A keyed table gained the items' final names, pairwise distinct and all new. */
  ghost predicate NamesReported(names: set<string>, names': set<string>, items: seq<InstalledItem>) {
    && FinalsDistinct(items)
    && Finals(items) !! names
    && names' == names + Finals(items)
  }

  ghost predicate SpecsReported(specs: map<string, SpecRow>, items: seq<InstalledItem>) {
    forall i :: 0 <= i < |items| ==> items[i].final in specs && items[i].ref == UlidRef(specs[items[i].final].id)
  }

  ghost predicate ProjectionsReported(projections: map<string, ProjectionRow>, items: seq<InstalledItem>) {
    forall i :: 0 <= i < |items| ==>
      items[i].final in projections && items[i].ref == UlidRef(projections[items[i].final].id)
  }

  /** The tables hold the rows they held before, plus exactly one new row per installed item:
      keyed tables under the items' pairwise distinct final names, node and edge rows in report order. */
  ghost predicate AddsExactly(db: Db, db': Db, items: seq<InstalledItem>) {
    && Grows(db, db')
    && NamesReported(db.specs.Keys, db'.specs.Keys, ItemsIn(items, SpecTable))
    && SpecsReported(db'.specs, ItemsIn(items, SpecTable))
    && NamesReported(db.projections.Keys, db'.projections.Keys, ItemsIn(items, ProjectionTable))
    && ProjectionsReported(db'.projections, ItemsIn(items, ProjectionTable))
    && NamesReported(NodeNames(db.nodes), NodeNames(db'.nodes), ItemsIn(items, NodeTable))
    && NodesReported(db'.nodes[|db.nodes|..], ItemsIn(items, NodeTable))
    && EdgesReported(db'.edges[|db.edges|..], ItemsIn(items, EdgeTable))
  }

  lemma NamesSnoc(names: set<string>, names': set<string>, names'': set<string>, items: seq<InstalledItem>, item: InstalledItem)
    requires NamesReported(names, names', items)
    requires item.final !in names' && names'' == names' + {item.final}
    ensures NamesReported(names, names'', items + [item])
  {
    var all := items + [item];
    assert Finals(all) == Finals(items) + {item.final} by {
      assert all[|items|].final == item.final;
      forall i | 0 <= i < |items| ensures all[i].final == items[i].final {}
    }
    assert forall i :: 0 <= i < |items| ==> items[i].final in Finals(items);
  }

  /** The table a step writes gains its item; the other tables and their items stay. */
  lemma ItemsAfter(items: seq<InstalledItem>, item: InstalledItem)
    ensures forall k ::
              ItemsIn(items + [item], k) == if TableOf(item.kind) == k then ItemsIn(items, k) + [item] else ItemsIn(items, k)
  {
    forall k ensures ItemsIn(items + [item], k) == if TableOf(item.kind) == k then ItemsIn(items, k) + [item] else ItemsIn(items, k) {
      ItemsInSnoc(items, item, k);
    }
  }

  lemma AddSpec(db: Db, s: Db, t: Db, row: SpecRow, items: seq<InstalledItem>, item: InstalledItem)
    requires AddsExactly(db, s, items) && Grows(s, t)
    requires t.specs == s.specs[item.final := row] && t.projections == s.projections && t.nodes == s.nodes && t.edges == s.edges
    requires item.kind == KSpec && item.ref == UlidRef(row.id) && item.final !in s.specs
    ensures AddsExactly(db, t, items + [item])
  {
    hide Grows, NamesReported, ProjectionsReported, NodesReported, EdgesReported, ItemsIn, NodeNames;
    GrowsTransitive(db, s, t);
    ItemsAfter(items, item);
    NamesSnoc(db.specs.Keys, s.specs.Keys, t.specs.Keys, ItemsIn(items, SpecTable), item);
  }

  lemma AddProjection(db: Db, s: Db, t: Db, row: ProjectionRow, items: seq<InstalledItem>, item: InstalledItem)
    requires AddsExactly(db, s, items) && Grows(s, t)
    requires t.projections == s.projections[item.final := row] && t.specs == s.specs && t.nodes == s.nodes && t.edges == s.edges
    requires item.kind == KProjection && item.ref == UlidRef(row.id) && item.final !in s.projections
    ensures AddsExactly(db, t, items + [item])
  {
    hide Grows, NamesReported, SpecsReported, NodesReported, EdgesReported, ItemsIn, NodeNames;
    GrowsTransitive(db, s, t);
    ItemsAfter(items, item);
    NamesSnoc(db.projections.Keys, s.projections.Keys, t.projections.Keys, ItemsIn(items, ProjectionTable), item);
  }

  lemma NodesSnoc(before: seq<Node>, nodes: seq<Node>, node: Node, items: seq<InstalledItem>, item: InstalledItem)
    requires before <= nodes && NodesReported(nodes[|before|..], items)
    requires node.name == item.final && Refers(item.kind, item.ref, node)
    ensures NodesReported((nodes + [node])[|before|..], items + [item])
  {
    assert (nodes + [node])[|before|..] == nodes[|before|..] + [node];
  }

  /** What a node write did to each table. */
  lemma NodeWritten(env: Env, e: Entry, renames: seq<(string, string)>, s: Db, t: Db, item: InstalledItem)
    requires item.kind == e.Kind() && (e.NodeEntry? || e.WiringEntry? || e.WorkflowEntry?) && Precheck(e) == None
    requires Wrote(env, e, renames, item.final, item.ref, s, t)
    ensures |t.nodes| == |s.nodes| + 1
    ensures var node := t.nodes[|s.nodes|];
            && t.nodes == s.nodes + [node] && t.specs == s.specs && t.projections == s.projections && t.edges == s.edges
            && node.name == item.final && Refers(item.kind, item.ref, node)
  {
    hide Declares, NodeIdTaken;
  }

  lemma AddNodeRow(db: Db, s: Db, t: Db, node: Node, items: seq<InstalledItem>, item: InstalledItem)
    requires AddsExactly(db, s, items) && Grows(s, t)
    requires t.nodes == s.nodes + [node] && t.specs == s.specs && t.projections == s.projections && t.edges == s.edges
    requires TableOf(item.kind) == NodeTable && node.name == item.final && Refers(item.kind, item.ref, node)
    requires item.final !in NodeNames(s.nodes)
    ensures AddsExactly(db, t, items + [item])
  {
    assert db.nodes <= s.nodes;
    hide NamesReported, NodesReported, SpecsReported, ProjectionsReported, EdgesReported, ItemsIn, NodeNames, Grows, Refers;
    GrowsTransitive(db, s, t);
    ItemsAfter(items, item);
    NodeNamesAppend(s.nodes, node);
    NamesSnoc(NodeNames(db.nodes), NodeNames(s.nodes), NodeNames(t.nodes), ItemsIn(items, NodeTable), item);
    NodesSnoc(db.nodes, s.nodes, node, ItemsIn(items, NodeTable), item);
  }

  lemma AddEdgeRow(e: EdgeDecl, renames: seq<(string, string)>, db: Db, s: Db, t: Db, items: seq<InstalledItem>, item: InstalledItem)
    requires AddsExactly(db, s, items)
    requires item.kind == KEdge && WroteEdge(e, renames, item, s, t) && Grows(s, t)
    ensures AddsExactly(db, t, items + [item])
  {
    hide LookupRename, NamesReported, SpecsReported, ProjectionsReported, NodesReported, EdgesReported, OrObject, ItemsIn, Matches;
    hide EdgeIdTaken, Grows, NodeNames;
    GrowsTransitive(db, s, t);
    ItemsAfter(items, item);
    EdgesSnoc(db, s, t.edges[|s.edges|], ItemsIn(items, EdgeTable), item);
  }

  lemma EdgesSnoc(db: Db, s: Db, edge: Edge, items: seq<InstalledItem>, item: InstalledItem)
    requires Grows(db, s) && EdgesReported(s.edges[|db.edges|..], items) && UlidRef(edge.id) == item.ref
    ensures |db.edges| <= |s.edges| && EdgesReported((s.edges + [edge])[|db.edges|..], items + [item])
  {
    assert (s.edges + [edge])[|db.edges|..] == s.edges[|db.edges|..] + [edge];
  }

  lemma AddOne(env: Env, mode: ConflictMode, e: Entry, db: Db, s: State, t: State, items: seq<InstalledItem>)
    requires AddsExactly(db, s.db, items) && Stepped(env, mode, e, s, t) && t.rows[|s.rows|].Installed?
    ensures AddsExactly(db, t.db, items + [t.rows[|s.rows|].item])
  {
    hide Step, AddsExactly, WroteEdge, Grows, FirstFree, Declares, Matches;
    var item := t.rows[|s.rows|].item;
    if e.EdgeEntry? {
      AddEdgeRow(e, Renames(s.rows, KNode), db, s.db, t.db, items, item);
    } else {
      FirstFreeIsFree(s.db.Names(NamespaceOf(e.Kind())), e.Name(), item.final);
      if e.SpecEntry? {
        AddSpec(db, s.db, t.db, t.db.specs[item.final], items, item);
      } else if e.ProjectionEntry? {
        AddProjection(db, s.db, t.db, t.db.projections[item.final], items, item);
      } else {
        NodeWritten(env, e, Renames(s.rows, KSpec), s.db, t.db, item);
        AddNodeRow(db, s.db, t.db, t.db.nodes[|s.db.nodes|], items, item);
      }
    }
  }

  lemma InstalledSnoc(rows: seq<Row>, row: Row)
    ensures InstalledRows(rows + [row]) == if row.Installed? then InstalledRows(rows) + [row.item] else InstalledRows(rows)
    ensures SkippedRows(rows + [row]) == if row.Skipped? then SkippedRows(rows) + [row.skip] else SkippedRows(rows)
    ensures ErrorRows(rows + [row]) == if row.Errored? then ErrorRows(rows) + [row.error] else ErrorRows(rows)
  {
    assert (rows + [row])[..|rows|] == rows;
  }

  lemma AddsSameRows(db: Db, s: Db, t: Db, items: seq<InstalledItem>)
    requires AddsExactly(db, s, items) && s.SameRows(t)
    ensures AddsExactly(db, t, items)
  {
    hide Grows, NamesReported, SpecsReported, ProjectionsReported, NodesReported, EdgesReported, ItemsIn, NodeNames;
    SameRowsGrows(s, t);
    GrowsTransitive(db, s, t);
  }

  /** What a step adds, its row reports. */
  lemma StepAdds(env: Env, mode: ConflictMode, e: Entry, db: Db, s: State, t: State)
    requires Stepped(env, mode, e, s, t) && AddsExactly(db, s.db, InstalledRows(s.rows))
    ensures AddsExactly(db, t.db, InstalledRows(t.rows))
  {
    hide AddsExactly, Grows, Wrote, WroteEdge, FirstFree, InstalledRows, SkippedRows, ErrorRows;
    var row := t.rows[|s.rows|];
    assert t.rows == s.rows + [row];
    InstalledSnoc(s.rows, row);
    if row.Installed? {
      AddOne(env, mode, e, db, s, t, InstalledRows(s.rows));
    } else {
      AddsSameRows(db, s.db, t.db, InstalledRows(s.rows));
    }
  }

  lemma AddsNothing(env: Env, mode: ConflictMode, es: seq<Entry>, h: seq<State>)
    requires Chain(env, mode, es, h)
    ensures AddsExactly(h[0].db, h[0].db, InstalledRows(h[0].rows))
  {
    hide Step, Grows;
    SameRowsGrows(h[0].db, h[0].db);
  }

  lemma {:induction false} ChainAdds(env: Env, mode: ConflictMode, es: seq<Entry>, h: seq<State>, j: nat)
    requires Chain(env, mode, es, h) && j < |h|
    ensures AddsExactly(h[0].db, h[j].db, InstalledRows(h[j].rows))
  {
    hide *;
    if j == 0 {
      AddsNothing(env, mode, es, h);
    } else {
      ChainAdds(env, mode, es, h, j - 1);
      ChainStep(env, mode, es, h, j - 1, j);
      StepAdds(env, mode, es[j - 1], h[0].db, h[j - 1], h[j]);
    }
  }

  /** A run that ends in a state has added exactly what that state's rows report. */
  lemma RunAdds(env: Env, mode: ConflictMode, es: seq<Entry>, s: State)
    requires s.rows == []
    ensures match Run(env, mode, es, s)
            case Failed(d, _) => Grows(s.db, d)
            case Aborted(t) => AddsExactly(s.db, t.db, InstalledRows(t.rows))
            case Completed(t) => AddsExactly(s.db, t.db, InstalledRows(t.rows))
  {
    hide Step, Run, AddsExactly, Grows;
    var h := History(env, mode, es, s);
    RunUnfolds(env, mode, es, s);
    ChainAdds(env, mode, es, h, |h| - 1);
    var last := h[|h| - 1];
    assert Grows(s.db, last.db) by {
      ChainGrows(env, mode, es, h, 0, |h| - 1);
    }
    match Run(env, mode, es, s) {
      case Completed(_) =>
      case Aborted(t) =>
        StepFacts(env, mode, es[|h| - 1], last);
        InstalledSnoc(last.rows, Errored(ErrorItem(es[|h| - 1].Kind(), es[|h| - 1].Name(), NameExists)));
        AddsSameRows(s.db, last.db, t.db, InstalledRows(t.rows));
      case Failed(d, _) =>
        StepFacts(env, mode, es[|h| - 1], last);
        SameRowsGrows(last.db, d);
        GrowsTransitive(s.db, last.db, d);
    }
  }

  /** No overwrite, exact frame: whatever the mode, an install that returns a report adds exactly the
      rows it reports and one log row; one that fails still overwrites nothing and logs nothing. */
  lemma InstallAddsExactlyItsReport(env: Env, mode: ConflictMode, m: Manifest, bundleId: Ulid, db: Db)
    ensures var (r, db') := Install(env, mode, m, bundleId, db);
            match r
            case Ok(report) =>
              && db'.log == db.log + [LogRow(report.installId, report)]
              && AddsExactly(db, db'.(log := db.log), report.installed)
            case Err(_) => Grows(db, db')
  {
    hide Step, Run, AddsExactly, Manifest.Entries;
    RunAdds(env, mode, m.Entries(), Start(db));
    match RunOf(env, mode, m, db) {
      case Failed(_, _) =>
      case Aborted(s) => AddsBesideLog(db, Start(db).db, s.db, Install(env, mode, m, bundleId, db).1, InstalledRows(s.rows));
      case Completed(s) => AddsBesideLog(db, Start(db).db, s.db, Install(env, mode, m, bundleId, db).1, InstalledRows(s.rows));
    }
    if Install(env, mode, m, bundleId, db).0.Err? {
      FailureGrows(env, mode, m, bundleId, db);
    }
  }

  /** Call counters and the log play no part in what was added. */
  lemma AddsBesideLog(db: Db, start: Db, s: Db, t: Db, items: seq<InstalledItem>)
    requires db.SameRows(start) && AddsExactly(start, s, items)
    requires s.specs == t.specs && s.projections == t.projections && s.nodes == t.nodes && s.edges == t.edges
    requires s.types == t.types && s.bundles == t.bundles
    ensures AddsExactly(db, t.(log := db.log), items) && s.log == db.log
  {
    hide NamesReported, SpecsReported, ProjectionsReported, NodesReported, EdgesReported, ItemsIn;
  }

  lemma FailureGrows(env: Env, mode: ConflictMode, m: Manifest, bundleId: Ulid, db: Db)
    requires Install(env, mode, m, bundleId, db).0.Err?
    ensures Grows(db, Install(env, mode, m, bundleId, db).1)
  {
    hide Step, Run, Manifest.Entries, ItemsIn, Finals;
    RunAdds(env, mode, m.Entries(), Start(db));
    hide NamesReported, SpecsReported, ProjectionsReported, NodesReported, EdgesReported, Matches, NodeNames;
  }

  // ---- Report accounting ----

  lemma {:induction false} ReportPartitionsRows(rows: seq<Row>)
    ensures |InstalledRows(rows)| + |SkippedRows(rows)| + |ErrorRows(rows)| == |rows|
  {
    if rows != [] {
      ReportPartitionsRows(rows[..|rows| - 1]);
    }
  }

  ghost predicate Increasing(at: seq<nat>) {
    forall j, k :: 0 <= j < k < |at| ==> at[j] < at[k]
  }

  lemma IncreasingSnoc(at: seq<nat>, i: nat)
    requires Increasing(at) && forall k :: 0 <= k < |at| ==> at[k] < i
    ensures Increasing(at + [i])
  {}

  lemma NothingReported()
    ensures InstalledRows([]) == [] && SkippedRows([]) == [] && ErrorRows([]) == [] && Increasing([])
  {}

  /** Each list of a report is the rows of its sort, all of them and in order. */
  lemma {:induction false} InstalledAre(rows: seq<Row>) returns (at: seq<nat>)
    ensures Increasing(at) && |at| == |InstalledRows(rows)|
    ensures forall k :: 0 <= k < |at| ==> at[k] < |rows| && rows[at[k]] == Installed(InstalledRows(rows)[k])
    ensures forall i :: 0 <= i < |rows| && rows[i].Installed? ==> i in at
  {
    hide InstalledRows, SkippedRows, ErrorRows, Increasing;
    if rows == [] {
      NothingReported();
      at := [];
    } else {
      var init, last := rows[..|rows| - 1], |rows| - 1;
      at := InstalledAre(init);
      assert rows == init + [rows[last]];
      InstalledSnoc(init, rows[last]);
      if rows[last].Installed? {
        IncreasingSnoc(at, last);
        at := at + [last];
      }
    }
  }

  lemma {:induction false} SkippedAre(rows: seq<Row>) returns (at: seq<nat>)
    ensures Increasing(at) && |at| == |SkippedRows(rows)|
    ensures forall k :: 0 <= k < |at| ==> at[k] < |rows| && rows[at[k]] == Skipped(SkippedRows(rows)[k])
    ensures forall i :: 0 <= i < |rows| && rows[i].Skipped? ==> i in at
  {
    hide InstalledRows, SkippedRows, ErrorRows, Increasing;
    if rows == [] {
      NothingReported();
      at := [];
    } else {
      var init, last := rows[..|rows| - 1], |rows| - 1;
      at := SkippedAre(init);
      assert rows == init + [rows[last]];
      InstalledSnoc(init, rows[last]);
      if rows[last].Skipped? {
        IncreasingSnoc(at, last);
        at := at + [last];
      }
    }
  }

  lemma {:induction false} ErrorsAre(rows: seq<Row>) returns (at: seq<nat>)
    ensures Increasing(at) && |at| == |ErrorRows(rows)|
    ensures forall k :: 0 <= k < |at| ==> at[k] < |rows| && rows[at[k]] == Errored(ErrorRows(rows)[k])
    ensures forall i :: 0 <= i < |rows| && rows[i].Errored? ==> i in at
  {
    hide InstalledRows, SkippedRows, ErrorRows, Increasing;
    if rows == [] {
      NothingReported();
      at := [];
    } else {
      var init, last := rows[..|rows| - 1], |rows| - 1;
      at := ErrorsAre(init);
      assert rows == init + [rows[last]];
      InstalledSnoc(init, rows[last]);
      if rows[last].Errored? {
        IncreasingSnoc(at, last);
        at := at + [last];
      }
    }
  }

  /** The report row an entry ends in carries its kind and name, and renames in increment mode only. */
  ghost predicate RowAccounts(mode: ConflictMode, e: Entry, row: Row) {
    && row.Kind() == e.Kind() && row.Name() == e.Name()
    && (row.Skipped? ==> mode == Skip && !e.EdgeEntry?)
    && (row.Installed? && !e.EdgeEntry? && mode != Increment ==> row.item.final == e.Name())
  }

  /** The report rows of a run against the manifest entries it went through. */
  ghost predicate Accounts(mode: ConflictMode, es: seq<Entry>, run: RunResult)
    requires !run.Failed?
  {
    var rows := run.s.rows;
    && |rows| <= |es|
    && (forall i :: 0 <= i < |rows| ==> RowAccounts(mode, es[i], rows[i]))
    && match run
       case Completed(_) => |rows| == |es| && forall i :: 0 <= i < |rows| ==> !Collision(rows[i])
       case Aborted(_) =>
         && mode == Error && |rows| >= 1 && Collision(rows[|rows| - 1])
         && forall i :: 0 <= i < |rows| - 1 ==> !Collision(rows[i])
  }

  lemma ChainAccounts(env: Env, mode: ConflictMode, es: seq<Entry>, h: seq<State>, i: nat)
    requires Chain(env, mode, es, h) && i < |h| - 1
    ensures |h[|h| - 1].rows| == |h| - 1
    ensures RowAccounts(mode, es[i], h[|h| - 1].rows[i]) && !Collision(h[|h| - 1].rows[i])
  {
    hide Chain, Step, Grows, Wrote, WroteEdge, FirstFree;
    ChainStep(env, mode, es, h, i, |h| - 1);
  }

  lemma RunAccounts(env: Env, mode: ConflictMode, es: seq<Entry>, s: State)
    requires s.rows == [] && !Run(env, mode, es, s).Failed?
    ensures Accounts(mode, es, Run(env, mode, es, s))
  {
    hide Step, Run, RowAccounts, Collision;
    var h := History(env, mode, es, s);
    RunUnfolds(env, mode, es, s);
    var run, last := Run(env, mode, es, s), h[|h| - 1];
    ChainGrows(env, mode, es, h, 0, |h| - 1);
    forall i | 0 <= i < |h| - 1 ensures RowAccounts(mode, es[i], last.rows[i]) && !Collision(last.rows[i]) {
      ChainAccounts(env, mode, es, h, i);
    }
    if run.Aborted? {
      AbortAccounts(env, mode, es[|h| - 1], last, run.s);
      forall i | 0 <= i < |last.rows| ensures run.s.rows[i] == last.rows[i] {}
    }
  }

  lemma AbortAccounts(env: Env, mode: ConflictMode, e: Entry, s: State, t: State)
    requires Step(env, mode, e, s) == Abort(t)
    ensures mode == Error && |t.rows| == |s.rows| + 1 && t.rows[..|s.rows|] == s.rows
    ensures RowAccounts(mode, e, t.rows[|s.rows|]) && Collision(t.rows[|s.rows|])
  {
    hide Step;
    StepFacts(env, mode, e, s);
  }

  /** One report row per entry, in section order; an abort happens in error mode only, ends the report
      with the collision, and leaves every later entry untouched. */
  lemma ReportAccountsForEveryEntry(env: Env, mode: ConflictMode, m: Manifest, bundleId: Ulid, db: Db)
    requires Install(env, mode, m, bundleId, db).0.Ok?
    ensures var report, run := Install(env, mode, m, bundleId, db).0.value, RunOf(env, mode, m, db);
            && !run.Failed?
            && Accounts(mode, m.Entries(), run)
            && report == ReportOf(env.mint(db.tick), bundleId, mode, run.s.rows)
            && report.installId == env.mint(db.tick) && report.bundleId == bundleId && report.mode == mode
            && |report.installed| + |report.skipped| + |report.errors| == |run.s.rows|
            && (run.Aborted? ==> report.errors != [] && Errored(report.errors[|report.errors| - 1]) == run.s.rows[|run.s.rows| - 1])
  {
    hide Step, Run;
    RunAccounts(env, mode, m.Entries(), Start(db));
    ReportPartitionsRows(RunOf(env, mode, m, db).s.rows);
  }

  ghost predicate Collision(row: Row) {
    row.Errored? && row.error.error == NameExists
  }
}
