/** The store's keys and foreign keys survive every install. */
module BundleKeys {
  import opened Entities
  import opened Storage
  import opened BundleSteps
  import opened BundleFacts
  import opened BundleTheorems

  // ---- Integrity ----

  /** Ids are unique in each table. */
  ghost predicate KeysUnique(db: Db) {
    && (forall a, b :: a in db.specs && b in db.specs && a != b ==> db.specs[a].id != db.specs[b].id)
    && (forall a, b :: a in db.projections && b in db.projections && a != b ==> db.projections[a].id != db.projections[b].id)
    && (forall i, j :: 0 <= i < j < |db.nodes| ==> db.nodes[i].id != db.nodes[j].id)
    && (forall i, j :: 0 <= i < j < |db.edges| ==> db.edges[i].id != db.edges[j].id)
    && (forall i, j :: 0 <= i < j < |db.log| ==> db.log[i].installId != db.log[j].installId)
  }

  ghost predicate HasNode(db: Db, id: Ulid) {
    exists i :: 0 <= i < |db.nodes| && db.nodes[i].id == id
  }

  /** Types are registered, edges join stored nodes, and log rows belong to stored bundles. */
  ghost predicate ForeignKeys(db: Db) {
    && (forall i :: 0 <= i < |db.nodes| ==> db.nodes[i].kind in db.types)
    && (forall i :: 0 <= i < |db.edges| ==> db.edges[i].kind in db.types && HasNode(db, db.edges[i].src) && HasNode(db, db.edges[i].tgt))
    && (forall i :: 0 <= i < |db.log| ==> db.log[i].report.bundleId in db.bundles)
  }

  ghost predicate Sound(db: Db) {
    KeysUnique(db) && ForeignKeys(db)
  }

  lemma SameRowsSound(a: Db, b: Db)
    requires a.SameRows(b) && Sound(a)
    ensures Sound(b)
  {
    assert forall id :: HasNode(a, id) <==> HasNode(b, id);
  }

  // ---- Steps ----

  lemma MoreNodesHave(a: Db, b: Db)
    requires a.nodes <= b.nodes
    ensures forall id :: HasNode(a, id) ==> HasNode(b, id)
  {
    forall id | HasNode(a, id) ensures HasNode(b, id) {
      var i :| 0 <= i < |a.nodes| && a.nodes[i].id == id;
      assert b.nodes[i].id == id;
    }
  }

  lemma NodeRowSound(a: Db, b: Db, node: Node)
    requires Sound(a) && a.(nodes := a.nodes + [node]).SameRows(b) && !NodeIdTaken(a, node.id) && node.kind in a.types
    ensures Sound(b)
  {
    MoreNodesHave(a, b);
    hide HasNode;
  }

  lemma EdgeRowSound(a: Db, b: Db, edge: Edge)
    requires Sound(a) && a.(edges := a.edges + [edge]).SameRows(b) && !EdgeIdTaken(a, edge.id) && edge.kind in a.types
    requires HasNode(a, edge.src) && HasNode(a, edge.tgt)
    ensures Sound(b)
  {
    MoreNodesHave(a, b);
    hide HasNode;
  }

  lemma SpecRowSound(a: Db, b: Db, name: string, row: SpecRow)
    requires Sound(a) && a.(specs := a.specs[name := row]).SameRows(b) && !SpecIdTaken(a, name, row.id)
    ensures Sound(b)
  {
    MoreNodesHave(a, b);
    hide HasNode;
  }

  lemma ProjectionRowSound(a: Db, b: Db, name: string, row: ProjectionRow)
    requires Sound(a) && a.(projections := a.projections[name := row]).SameRows(b) && !ProjectionIdTaken(a, name, row.id)
    ensures Sound(b)
  {
    MoreNodesHave(a, b);
    hide HasNode;
  }

  lemma MatchesHave(db: Db, name: string)
    requires |Matches(db.nodes, name)| == 1
    ensures HasNode(db, Matches(db.nodes, name)[0].id)
  {
    MatchesStored(db.nodes, name);
    assert Matches(db.nodes, name)[0] in db.nodes;
  }

  lemma StepSound(env: Env, mode: ConflictMode, e: Entry, s: State, t: State)
    requires Sound(s.db) && Stepped(env, mode, e, s, t)
    ensures Sound(t.db)
  {
    hide Sound, HasNode, Grows, FirstFree, Matches, Declares, Renames, LookupRename, NodeIdTaken, EdgeIdTaken, OrObject;
    hide SpecIdTaken, ProjectionIdTaken;
    var row := t.rows[|s.rows|];
    if !row.Installed? {
      SameRowsSound(s.db, t.db);
    } else if e.EdgeEntry? {
      var renames := Renames(s.rows, KNode);
      MatchesHave(s.db, LookupRename(renames, e.fromName));
      MatchesHave(s.db, LookupRename(renames, e.toName));
      EdgeRowSound(s.db, t.db, t.db.edges[|s.db.edges|]);
    } else if e.SpecEntry? {
      SpecRowSound(s.db, t.db, row.item.final, t.db.specs[row.item.final]);
    } else if e.ProjectionEntry? {
      ProjectionRowSound(s.db, t.db, row.item.final, t.db.projections[row.item.final]);
    } else {
      NodeRowSound(s.db, t.db, t.db.nodes[|s.db.nodes|]);
    }
  }

  // ---- Runs and installs ----

  lemma {:induction false} RunSound(env: Env, mode: ConflictMode, es: seq<Entry>, s: State)
    requires Sound(s.db)
    ensures match Run(env, mode, es, s)
            case Failed(d, _) => Sound(d)
            case Aborted(t) => Sound(t.db)
            case Completed(t) => Sound(t.db)
  {
    hide Step, Sound, Stepped;
    if es != [] {
      StepFacts(env, mode, es[0], s);
      match Step(env, mode, es[0], s) {
        case Next(t) =>
          StepSound(env, mode, es[0], s, t);
          RunSound(env, mode, es[1..], t);
        case Abort(t) => SameRowsSound(s.db, t.db);
        case Fail(d, _) => SameRowsSound(s.db, d);
      }
    }
  }

  lemma LogRowSound(env: Env, db: Db, report: Report)
    requires Sound(db)
    ensures Sound(Finalize(env, db, report).1)
  {
    MoreNodesHave(db, Finalize(env, db, report).1);
    hide HasNode;
  }

  /** Every install of every bundle, whatever its mode, its entries and the calls that fail, keeps ids unique in
      each table and leaves no row of an unregistered type, no edge without its nodes and no stray log row. */
  lemma InstallKeepsIntegrity(env: Env, mode: ConflictMode, m: Manifest, bundleId: Ulid, db: Db)
    requires Sound(db)
    ensures Sound(Install(env, mode, m, bundleId, db).1)
  {
    hide Run, Step, Finalize, Manifest.Entries, KeysUnique, ForeignKeys;
    SameRowsSound(db, Start(db).db);
    RunSound(env, mode, m.Entries(), Start(db));
    match RunOf(env, mode, m, db) {
      case Failed(_, _) =>
      case Aborted(s) => LogRowSound(env, s.db, ReportOf(env.mint(db.tick), bundleId, mode, s.rows));
      case Completed(s) => LogRowSound(env, s.db, ReportOf(env.mint(db.tick), bundleId, mode, s.rows));
    }
  }
}
