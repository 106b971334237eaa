/** Error mode: what an abort leaves behind. */
module BundleAborts {
  import opened Wrappers
  import opened Json
  import opened Entities
  import opened Storage
  import opened Chars
  import opened WorkflowMapper
  import opened BundleSteps
  import opened BundleFacts
  import opened BundleTheorems

  ghost predicate Fresh(db: Db, id: Ulid) {
    && !NodeIdTaken(db, id) && !EdgeIdTaken(db, id)
    && (forall n :: n in db.specs ==> db.specs[n].id != id)
    && (forall n :: n in db.projections ==> db.projections[n].id != id)
  }

  /** No storage call fails for outside reasons, and ids still to be minted are new to the store. */
  ghost predicate Calm(env: Env, db: Db) {
    && (forall t: nat :: !env.fault(t))
    && (forall t: nat :: t >= db.tick ==> Fresh(db, env.mint(t)))
  }

  /** A well-formed entry whose name the store holds. */
  predicate Clashes(db: Db, e: Entry) {
    !e.EdgeEntry? && Precheck(e) == None && StoredOnce(db, NamespaceOf(e.Kind()), e.Name())
  }

  /** Node metadata that can be stored: none, an object, or a string that parses to an object. */
  predicate StoresAsObject(env: Env, metadata: Json) {
    || metadata.JNull? || metadata.JObject?
    || (metadata.JString? && var parsed := env.parseJson(metadata.s); parsed.Some? && parsed.value.JObject?)
  }

  /** What keeps a well-formed named entry from being stored under a name, its spec reference rewritten. */
  predicate Unstorable(env: Env, db: Db, e: Entry, final: string, renames: seq<(string, string)>)
    requires Precheck(e) == None && !e.EdgeEntry?
  {
    match e
    case ProjectionEntry(_, specRef, template, targetForm) =>
      || final == "" || template == "" || LookupRename(renames, specRef) == ""
      || LowerAscii(targetForm) !in {"prompt", "markdown", "json", "ascii"}
    case NodeEntry(_, nodeType, metadata) => !StoresAsObject(env, metadata) || nodeType !in db.types
    case WiringEntry(_, _, _, _, _, _, _) => "outline_node" !in db.types
    case WorkflowEntry(_, _, _, _, _) =>
      WorkflowOf(InputOf(e, final)).Err? || NodeIdTaken(db, env.seed(final)) || WORKFLOW_TYPE !in db.types
    case SpecEntry(_, _) => false
  }

  /** An entry that ends in an error row without writing: malformed, an edge without unique endpoints or of
      an unregistered type, or an entry under a free name that cannot be stored. */
  predicate Passes(env: Env, db: Db, e: Entry) {
    if Precheck(e).Some? then true
    else if e.EdgeEntry? then
      |Matches(db.nodes, e.fromName)| != 1 || |Matches(db.nodes, e.toName)| != 1 || e.edgeType !in db.types
    else e.Name() !in db.Names(NamespaceOf(e.Kind())) && Unstorable(env, db, e, e.Name(), [])
  }

  /** Some entry clashes, and all in front of it pass. */
  ghost predicate ClashFirst(env: Env, db: Db, es: seq<Entry>) {
    exists k :: 0 <= k < |es| && Clashes(db, es[k]) && forall i :: 0 <= i < k ==> Passes(env, db, es[i])
  }

  lemma ClashFirstUnfolds(env: Env, db: Db, es: seq<Entry>)
    requires es != []
    ensures ClashFirst(env, db, es) <==> Clashes(db, es[0]) || (Passes(env, db, es[0]) && ClashFirst(env, db, es[1..]))
  {
    hide Clashes, Passes;
    if k :| 0 <= k < |es| && Clashes(db, es[k]) && forall i :: 0 <= i < k ==> Passes(env, db, es[i]) {
      if k > 0 {
        assert Clashes(db, es[1..][k - 1]) && forall i :: 0 <= i < k - 1 ==> Passes(env, db, es[1..][i]);
      }
    }
    if Passes(env, db, es[0]) && ClashFirst(env, db, es[1..]) {
      var k :| 0 <= k < |es[1..]| && Clashes(db, es[1..][k]) && forall i :: 0 <= i < k ==> Passes(env, db, es[1..][i]);
      assert Clashes(db, es[k + 1]);
      forall i | 0 <= i < k + 1 ensures Passes(env, db, es[i]) {
        assert i > 0 ==> es[i] == es[1..][i - 1];
      }
    }
  }

  ghost predicate NothingInstalled(rows: seq<Row>) {
    forall i :: 0 <= i < |rows| ==> !rows[i].Installed?
  }

  lemma {:induction false} NothingRenamed(rows: seq<Row>, k: Kind)
    requires NothingInstalled(rows)
    ensures Renames(rows, k) == []
  {
    if rows != [] {
      NothingRenamed(rows[..|rows| - 1], k);
    }
  }

  /** A run that has left the store as it was. */
  ghost predicate Untouched(db: Db, s: State) {
    s.db.SameRows(db) && s.db.tick >= db.tick && NothingInstalled(s.rows)
  }

  /** What a step does to a store that is still as it was. */
  ghost predicate StepsQuietly(env: Env, db: Db, e: Entry, r: StepResult) {
    match r
    case Abort(t) => Clashes(db, e) && t.db.SameRows(db)
    case Next(t) =>
      && !Clashes(db, e)
      && (t.db.SameRows(db) <==> Passes(env, db, e))
      && (Passes(env, db, e) ==> NothingInstalled(t.rows))
    case Fail(_, _) => !Clashes(db, e) && !Passes(env, db, e)
  }

  lemma WriteRejectedIff(env: Env, db: Db, d: Db, e: Entry, final: string, renames: seq<(string, string)>)
    requires Calm(env, db) && d.SameRows(db) && d.tick >= db.tick && Precheck(e) == None && !e.EdgeEntry?
    requires final !in db.Names(NamespaceOf(e.Kind()))
    ensures Write(env, d, e, final, renames).0.Err? <==> Unstorable(env, db, e, final, renames)
  {
    hide Matches, LowerAscii, WorkflowOf, LookupRename;
  }

  /** A write that succeeds changes the tables. */
  lemma WroteIsNew(env: Env, e: Entry, renames: seq<(string, string)>, final: string, ref: RowRef, db: Db, db': Db)
    requires Precheck(e) == None && Wrote(env, e, renames, final, ref, db, db') && final !in db.Names(NamespaceOf(e.Kind()))
    ensures !db'.SameRows(db)
  {
    hide Declares, LookupRename, Matches;
  }

  lemma CalmMeans(env: Env, db: Db)
    requires Calm(env, db)
    ensures forall t: nat :: !env.fault(t)
  {}

  lemma NamedStep(env: Env, db: Db, e: Entry, s: State)
    requires Calm(env, db) && Untouched(db, s) && Precheck(e) == None && !e.EdgeEntry?
    ensures StepsQuietly(env, db, e, StepNamed(env, Error, e, s))
  {
    hide Write, Matches, NodeNames, Renames, Unstorable, Wrote, Calm;
    assert forall t: nat :: !env.fault(t) by {
      CalmMeans(env, db);
    }
    var ns := NamespaceOf(e.Kind());
    ProbeReadsNames(env, s.db, ns, e.Name());
    MatchesNone(db.nodes, e.Name());
    NothingRenamed(s.rows, KSpec);
    var d := Exists(env, s.db, ns, e.Name()).1;
    if e.Name() !in db.Names(ns) {
      WriteRejectedIff(env, db, d, e, e.Name(), []);
      WriteFacts(env, d, e, e.Name(), []);
      var (w, d') := Write(env, d, e, e.Name(), []);
      if w.Ok? {
        WroteIsNew(env, e, [], e.Name(), w.value, d, d');
      }
    }
  }

  lemma EdgeStep(env: Env, db: Db, e: EdgeDecl, s: State)
    requires Calm(env, db) && Untouched(db, s)
    ensures StepsQuietly(env, db, e, Next(StepEdge(env, e, s)))
  {
    hide Renames, Matches, OrObject;
    NothingRenamed(s.rows, KNode);
    MatchesStored(db.nodes, e.fromName);
    MatchesStored(db.nodes, e.toName);
  }

  lemma QuietStep(env: Env, db: Db, e: Entry, s: State)
    requires Calm(env, db) && Untouched(db, s)
    ensures StepsQuietly(env, db, e, Step(env, Error, e, s))
  {
    hide StepNamed, StepEdge;
    if Precheck(e) == None {
      if e.EdgeEntry? {
        EdgeStep(env, db, e, s);
      } else {
        NamedStep(env, db, e, s);
      }
    }
  }

  /** What was added stays: a store cannot grow back into what it was. */
  lemma GrownStaysGrown(a: Db, b: Db, c: Db)
    requires Grows(a, b) && Grows(b, c) && c.SameRows(a)
    ensures b.SameRows(a)
  {
    hide Matches, NodeNames;
    assert b.specs == a.specs && b.projections == a.projections;
    assert b.nodes == c.nodes[..|b.nodes|] && b.edges == c.edges[..|b.edges|];
  }

  lemma {:induction false} RunGrows(env: Env, es: seq<Entry>, s: State)
    requires Run(env, Error, es, s).Aborted?
    ensures Grows(s.db, Run(env, Error, es, s).s.db)
  {
    hide Step, Grows;
    StepFacts(env, Error, es[0], s);
    match Step(env, Error, es[0], s) {
      case Next(t) =>
        RunGrows(env, es[1..], t);
        GrowsTransitive(s.db, t.db, Run(env, Error, es[1..], t).s.db);
      case Abort(t) => SameRowsGrows(s.db, t.db);
      case Fail(_, _) => assert false;
    }
  }

  lemma {:induction false} QuietRun(env: Env, db: Db, es: seq<Entry>, s: State)
    requires Calm(env, db) && Untouched(db, s)
    ensures var r := Run(env, Error, es, s);
            r.Aborted? && r.s.db.SameRows(db) <==> ClashFirst(env, db, es)
  {
    hide Step, Calm, Clashes, Passes, ClashFirst, Grows;
    if es == [] {
      NoClash(env, db);
    } else {
      ClashFirstUnfolds(env, db, es);
      QuietStep(env, db, es[0], s);
      StepFacts(env, Error, es[0], s);
      StepTicks(env, Error, es[0], s);
      match Step(env, Error, es[0], s) {
        case Abort(_) =>
        case Fail(_, _) =>
        case Next(t) =>
          if Passes(env, db, es[0]) {
            QuietRun(env, db, es[1..], t);
          } else if Run(env, Error, es[1..], t).Aborted? && Run(env, Error, es[1..], t).s.db.SameRows(db) {
            RunGrows(env, es[1..], t);
            GrownStaysGrown(s.db, t.db, Run(env, Error, es[1..], t).s.db);
            assert false;
          }
      }
    }
  }

  lemma NoClash(env: Env, db: Db)
    ensures !ClashFirst(env, db, [])
  {}

  /** The module header says that an abort on a collision writes nothing. It does so exactly when, in
      section order, every entry in front of the first clashing one cannot be stored anyway. */
  lemma AbortWritesNothingIff(env: Env, m: Manifest, db: Db)
    requires Calm(env, db)
    ensures var r := RunOf(env, Error, m, db);
            r.Aborted? && r.s.db.SameRows(db) <==> ClashFirst(env, db, m.Entries())
  {
    hide Run, Calm, ClashFirst, Manifest.Entries;
    QuietRun(env, db, m.Entries(), Start(db));
  }
}
