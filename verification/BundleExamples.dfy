/** Concrete bundles on which the installer does less than its documentation says. */
module BundleExamples {
  import opened Wrappers
  import opened Json
  import opened Entities
  import opened Storage
  import opened Names
  import opened Chars
  import opened BundleSteps
  import opened BundleTheorems
  import opened BundleRuns
  import opened BundleSkip
  import WiringMapper

  /** No call fails, every call mints another id, and no string is JSON. */
  const CALM_ENV := Env((_: nat) => false, (t: nat) => t + 1, (_: string) => 0, (_: string) => None)

  const EMPTY_DB := Db(map[], map[], [], [], [], 0, {"outline_node"}, {})

  // ---- Single steps ----

  lemma SpecStep(mode: ConflictMode, e: Spec, s: State)
    requires e.body.Ok? && e.name !in s.db.specs && !SpecIdTaken(s.db, e.name, CALM_ENV.mint(s.db.tick + 1))
    ensures var r := Step(CALM_ENV, mode, e, s);
            var id := CALM_ENV.mint(s.db.tick + 1);
            && r.Next?
            && r.s.db == s.db.(specs := s.db.specs[e.name := SpecRow(id, e.body.value)], tick := s.db.tick + 2)
            && r.s.rows == s.rows + [Installed(InstalledItem(KSpec, e.name, e.name, UlidRef(id)))]
  {
    hide Renames, Matches;
  }

  lemma TakenSpecAborts(e: Spec, s: State)
    requires e.body.Ok? && e.name in s.db.specs
    ensures Step(CALM_ENV, Error, e, s).Abort? && Step(CALM_ENV, Error, e, s).s.db.SameRows(s.db)
  {
    hide Renames, Matches;
  }

  /** In increment mode a taken name whose first suffixed form is free takes that form, after two probes. */
  lemma SuffixOne(db: Db, ns: Namespace, name: string)
    requires ns != Nodes && name in db.Names(ns) && name + "-1" !in db.Names(ns)
    ensures Resolve(CALM_ENV, db, ns, name, Increment) == (Ok(Use(name + "-1")), db.(tick := db.tick + 2))
  {
    assert Candidate(name, 1) == name + "-1" by {
      assert Decimal(1) == "1" && name + "-" + "1" == name + "-1";
    }
    hide Candidate, Matches;
  }

  lemma TakenSpecStep(e: Spec, s: State)
    requires e.body.Ok? && e.name in s.db.specs && e.name + "-1" !in s.db.specs
    requires !SpecIdTaken(s.db, e.name + "-1", CALM_ENV.mint(s.db.tick + 2))
    ensures var r := Step(CALM_ENV, Increment, e, s);
            var id := CALM_ENV.mint(s.db.tick + 2);
            && r.Next?
            && r.s.db == s.db.(specs := s.db.specs[e.name + "-1" := SpecRow(id, e.body.value)], tick := s.db.tick + 3)
            && r.s.rows == s.rows + [Installed(InstalledItem(KSpec, e.name, e.name + "-1", UlidRef(id)))]
  {
    SuffixOne(s.db, Specs, e.name);
    hide Resolve, Renames;
  }

  /** A projection `p` for prompts, installed under the name probing found. */
  lemma ProjectionStep(e: Projection, s: State)
    requires e.targetForm == "prompt" && e.name != "" && e.template != "" && LookupRename(Renames(s.rows, KSpec), e.specRef) != ""
    requires e.name in s.db.projections ==> e.name + "-1" !in s.db.projections
    requires forall t: nat, n :: n in s.db.projections ==> s.db.projections[n].id != CALM_ENV.mint(t)
    ensures var r := Step(CALM_ENV, Increment, e, s);
            var final := if e.name in s.db.projections then e.name + "-1" else e.name;
            && r.Next? && |r.s.rows| == |s.rows| + 1 && r.s.rows[..|s.rows|] == s.rows
            && r.s.rows[|s.rows|].Installed? && r.s.rows[|s.rows|].item.kind == KProjection && r.s.rows[|s.rows|].item.final == final
            && final in r.s.db.projections
            && r.s.db.projections[final].specRef == LookupRename(Renames(s.rows, KSpec), e.specRef)
            && r.s.db.specs == s.db.specs && r.s.db.nodes == s.db.nodes && r.s.db.types == s.db.types
  {
    assert LowerAscii("prompt") == "prompt";
    if e.name in s.db.projections {
      SuffixOne(s.db, Projections, e.name);
      hide Resolve, Renames, LookupRename, LowerAscii;
    } else {
      hide Renames, LookupRename, LowerAscii;
    }
  }

  /** A wiring on a store without nodes. */
  lemma WiringStep(mode: ConflictMode, e: Wiring, s: State)
    requires s.db.nodes == [] && "outline_node" in s.db.types
    ensures var r := Step(CALM_ENV, mode, e, s);
            && r.Next? && |r.s.rows| == |s.rows| + 1 && r.s.rows[..|s.rows|] == s.rows
            && r.s.rows[|s.rows|].Installed? && r.s.rows[|s.rows|].item.final == e.Name()
            && |r.s.db.nodes| == 1 && r.s.db.nodes[0].name == e.Name() && r.s.db.nodes[0].metadata == WiringMetadata(e)
            && r.s.db.projections == s.db.projections
  {
    hide OptionsOf, OverridesOf, Entry.Name;
    assert Matches([], e.Name()) == [];
  }

  // ---- Error mode keeps what came before the collision ----

  const HALF_TAKEN_DB := Db(map["b" := SpecRow(0, "old")], map[], [], [], [], 0, {}, {})

  const TWO_SPECS := Manifest([SpecEntry("a", Ok("x")), SpecEntry("b", Ok("y"))], [], [], [], [], [])

  /** A bundle with specs `a` and `b`, installed in error mode where `b` is taken: the run aborts, and `a` stays. */
  lemma ErrorModeKeepsEarlierEntries()
    ensures RunOf(CALM_ENV, Error, TWO_SPECS, HALF_TAKEN_DB).Aborted?
    ensures "a" !in HALF_TAKEN_DB.specs && "a" in Final(CALM_ENV, Error, TWO_SPECS, HALF_TAKEN_DB).db.specs
  {
    hide Step;
    var s0, es := Start(HALF_TAKEN_DB), TWO_SPECS.Entries();
    assert es == [SpecEntry("a", Ok("x")), SpecEntry("b", Ok("y"))] && es[1..] == [es[1]];
    SpecStep(Error, es[0], s0);
    TakenSpecAborts(es[1], Step(CALM_ENV, Error, es[0], s0).s);
  }

  // ---- A reference captured by a duplicate ----

  const TWICE_NAMED := Manifest(
    [SpecEntry("x", Ok("one")), SpecEntry("x", Ok("two"))], [ProjectionEntry("p", "x", "t", "prompt")], [], [], [], [])

  /** Two specs of one name and a projection that refers to it, installed into an empty store in increment
      mode: the first spec keeps the name, and yet the projection is applied to the second. */
  lemma ReferenceCaptured()
    ensures RunOf(CALM_ENV, Increment, TWICE_NAMED, EMPTY_DB).Completed?
    ensures var db := Final(CALM_ENV, Increment, TWICE_NAMED, EMPTY_DB).db;
            && "x" in db.specs && db.specs["x"].body == "one"
            && "p" in db.projections && db.projections["p"].specRef == "x-1"
            && "x-1" in db.specs && db.specs["x-1"].body == "two"
  {
    hide Step;
    var es, s0 := TWICE_NAMED.Entries(), Start(EMPTY_DB);
    assert es == [SpecEntry("x", Ok("one")), SpecEntry("x", Ok("two")), ProjectionEntry("p", "x", "t", "prompt")];
    SpecStep(Increment, es[0], s0);
    var s1 := Step(CALM_ENV, Increment, es[0], s0).s;
    assert "x" + "-1" == "x-1";
    TakenSpecStep(es[1], s1);
    var s2 := Step(CALM_ENV, Increment, es[1], s1).s;
    RenamedOnce(s2.rows, "x", "x-1");
    ProjectionStep(es[2], s2);
    var s3 := Step(CALM_ENV, Increment, es[2], s2).s;
    assert es[1..] == [es[1], es[2]] && es[1..][1..] == [es[2]] && [es[2]][1..] == [];
    assert Run(CALM_ENV, Increment, [es[2]], s2) == Run(CALM_ENV, Increment, [], s3);
    assert Run(CALM_ENV, Increment, es[1..], s1) == Run(CALM_ENV, Increment, [es[2]], s2);
  }

  lemma RenamedOnce(rows: seq<Row>, name: string, final: string)
    requires |rows| == 2 && rows[0].Installed? && rows[0].item.final == rows[0].item.original
    requires rows[1].Installed? && rows[1].item.kind == KSpec && rows[1].item.original == name && rows[1].item.final == final != name
    ensures LookupRename(Renames(rows, KSpec), name) == final
  {
    assert rows[..1] == [rows[0]] && [rows[0]][..0] == [];
    assert Renames([rows[0]], KSpec) == [];
    assert Renames(rows, KSpec) == [(name, final)];
  }

  // ---- Wirings ----

  const HOLDS_P_DB := EMPTY_DB.(projections := map["p" := ProjectionRow(0, "s", "old", "prompt")])

  const WIRED_TO_P := Manifest(
    [], [ProjectionEntry("p", "s", "new", "prompt")], [], [],
    [WiringEntry("a", "m", "u:v", Some("p"), None, None, JNull)], [])

  /** A projection `p` and a wiring to it, installed where a projection `p` exists: the bundle's projection
      becomes `p-1`, and the wiring goes on naming the older one. */
  lemma WiringNamesTheOlderProjection()
    ensures RunOf(CALM_ENV, Increment, WIRED_TO_P, HOLDS_P_DB).Completed?
    ensures var s := Final(CALM_ENV, Increment, WIRED_TO_P, HOLDS_P_DB);
            && |s.rows| == 2 && s.rows[0].Installed? && s.rows[0].item.final == "p-1"
            && |s.db.nodes| == 1 && s.db.nodes[0].metadata.GetString("projection_ref") == Some("p")
  {
    hide Step;
    var es, s0 := WIRED_TO_P.Entries(), Start(HOLDS_P_DB);
    assert es == [ProjectionEntry("p", "s", "new", "prompt"), WiringEntry("a", "m", "u:v", Some("p"), None, None, JNull)];
    assert "p" + "-1" == "p-1";
    ProjectionStep(es[0], s0);
    var s1 := Step(CALM_ENV, Increment, es[0], s0).s;
    WiringStep(Increment, es[1], s1);
    assert es[1..] == [es[1]] && [es[1]][1..] == [];
    var s2 := Step(CALM_ENV, Increment, es[1], s1).s;
    assert Run(CALM_ENV, Increment, [es[1]], s1) == Run(CALM_ENV, Increment, [], s2);
    assert s2.rows[0] == s2.rows[..1][0];
  }

  const NOBODYS_WIRING := Manifest([], [], [], [], [WiringEntry("", "a.b", "u", None, None, None, JNull)], [])

  /** A wiring without a persona, with a dotted slot and a source without a scheme is installed without
      complaint in every mode, and the wiring mapper refuses its row. */
  lemma InvalidWiringInstalled(mode: ConflictMode)
    ensures RunOf(CALM_ENV, mode, NOBODYS_WIRING, EMPTY_DB).Completed?
    ensures var s := Final(CALM_ENV, mode, NOBODYS_WIRING, EMPTY_DB);
            && |s.rows| == 1 && s.rows[0].Installed? && |s.db.nodes| == 1
            && WiringMapper.NodeToWiring(s.db.nodes[0], None) == Err(InvalidPersonaId)
  {
    hide Step;
    var es, s0 := NOBODYS_WIRING.Entries(), Start(EMPTY_DB);
    assert es == [WiringEntry("", "a.b", "u", None, None, None, JNull)] && es[1..] == [];
    WiringStep(mode, es[0], s0);
  }

  // ---- Skip reinstall ----

  /** A node without metadata under a free name. */
  lemma NodeStep(mode: ConflictMode, e: NodeDecl, s: State)
    requires e.metadata == JNull && e.name !in NodeNames(s.db.nodes) && e.nodeType in s.db.types
    requires !NodeIdTaken(s.db, CALM_ENV.mint(s.db.tick + 1))
    ensures var r := Step(CALM_ENV, mode, e, s);
            var id := CALM_ENV.mint(s.db.tick + 1);
            && r.Next?
            && r.s.db == s.db.(nodes := s.db.nodes + [Node(id, e.name, e.nodeType, JObject(map[]))], tick := s.db.tick + 3)
            && r.s.rows == s.rows + [Installed(InstalledItem(KNode, e.name, e.name, UlidRef(id)))]
  {
    hide Renames, Matches;
    MatchesNone(s.db.nodes, e.name);
  }

  /** An edge between two stored nodes of different names, when nothing was renamed. */
  lemma EdgeStep(mode: ConflictMode, e: EdgeDecl, s: State, a: Node, b: Node)
    requires e.metadata == JNull && e.edgeType in s.db.types && Renames(s.rows, KNode) == []
    requires s.db.nodes == [a, b] && a.name == e.fromName && b.name == e.toName && a.name != b.name
    requires s.db.edges == []
    ensures var r := Step(CALM_ENV, mode, e, s);
            && r.Next?
            && r.s.db.edges == [Edge(CALM_ENV.mint(s.db.tick + 2), a.id, b.id, e.edgeType, JObject(map[]))]
            && r.s.db.nodes == s.db.nodes && r.s.db.log == s.db.log && r.s.db.bundles == s.db.bundles
            && |r.s.rows| == |s.rows| + 1 && r.s.rows[..|s.rows|] == s.rows && r.s.rows[|s.rows|].Installed?
  {
    hide Renames;
    assert [a, b][1..] == [b] && [b][1..] == [];
    assert Matches([b], a.name) == [] && Matches([b], b.name) == [b];
    assert Matches([a, b], a.name) == [a] && Matches([a, b], b.name) == [b];
    assert s.db.nodes[0].id == a.id && s.db.nodes[1].id == b.id;
    hide Matches;
  }

  const TYPED_DB := EMPTY_DB.(types := {"t", "k"}, bundles := {7})

  const TWO_JOINED := Manifest(
    [], [], [NodeEntry("a", "t", JNull), NodeEntry("b", "t", JNull)], [EdgeEntry("a", "b", "k", JNull)], [], [])

  lemma TwoNodeSteps() returns (s: State)
    ensures TWO_JOINED.Entries() == [NodeEntry("a", "t", JNull), NodeEntry("b", "t", JNull), EdgeEntry("a", "b", "k", JNull)]
    ensures RunOf(CALM_ENV, Skip, TWO_JOINED, TYPED_DB) == Run(CALM_ENV, Skip, [EdgeEntry("a", "b", "k", JNull)], s)
    ensures s.db == TYPED_DB.(nodes := [Node(3, "a", "t", JObject(map[])), Node(6, "b", "t", JObject(map[]))], tick := 7)
    ensures |s.rows| == 2 && forall i :: 0 <= i < 2 ==> s.rows[i].Installed? && s.rows[i].item.final == s.rows[i].item.original
  {
    hide Step;
    var es, s0 := TWO_JOINED.Entries(), Start(TYPED_DB);
    assert es == [NodeEntry("a", "t", JNull), NodeEntry("b", "t", JNull), EdgeEntry("a", "b", "k", JNull)];
    NodeStep(Skip, es[0], s0);
    var s1 := Step(CALM_ENV, Skip, es[0], s0).s;
    NodeStep(Skip, es[1], s1);
    s := Step(CALM_ENV, Skip, es[1], s1).s;
    assert es[1..] == [es[1], es[2]] && es[1..][1..] == [es[2]];
    assert Run(CALM_ENV, Skip, es[1..], s1) == Run(CALM_ENV, Skip, [es[2]], s);
  }

  lemma FirstSkipRun() returns (s: State)
    ensures RunOf(CALM_ENV, Skip, TWO_JOINED, TYPED_DB) == Completed(s) && NoErrors(s.rows)
    ensures s.db.nodes == [Node(3, "a", "t", JObject(map[])), Node(6, "b", "t", JObject(map[]))]
    ensures |s.db.edges| == 1 && s.db.edges[0].src == 3 && s.db.edges[0].tgt == 6
    ensures s.db.log == [] && s.db.bundles == {7}
  {
    var s2 := TwoNodeSteps();
    hide Step, RunOf;
    var e := EdgeEntry("a", "b", "k", JNull);
    KeptNames(s2.rows);
    EdgeStep(Skip, e, s2, s2.db.nodes[0], s2.db.nodes[1]);
    s := Step(CALM_ENV, Skip, e, s2).s;
    assert [e][1..] == [] && Run(CALM_ENV, Skip, [], s) == Completed(s);
    assert s.rows == s2.rows + [s.rows[2]];
  }

  /** Two nodes and an edge between them, skip-installed into an empty store. */
  lemma FirstSkipInstall()
    ensures ErrorFree(Install(CALM_ENV, Skip, TWO_JOINED, 7, TYPED_DB).0)
    ensures var db := Install(CALM_ENV, Skip, TWO_JOINED, 7, TYPED_DB).1;
            && |db.nodes| == 2 && db.nodes[0].name == "a" && db.nodes[1].name == "b"
            && |db.edges| == 1 && db.edges[0].src == db.nodes[0].id && db.edges[0].tgt == db.nodes[1].id
  {
    hide Run, Step, Manifest.Entries;
    var s := FirstSkipRun();
    NoErrorsReported(s.rows);
  }

  lemma KeptNames(rows: seq<Row>)
    requires |rows| == 2 && forall i :: 0 <= i < 2 ==> rows[i].Installed? && rows[i].item.final == rows[i].item.original
    ensures Renames(rows, KNode) == []
  {
    assert rows[..1] == [rows[0]] && [rows[0]][..0] == [];
    assert Renames([rows[0]], KNode) == [];
  }

  /** The same bundle skip-installed twice: no error, no new node, and a second edge between the same two nodes. */
  lemma SkipTwiceCopiesTheEdge()
    ensures ErrorFree(Install(CALM_ENV, Skip, TWO_JOINED, 7, TYPED_DB).0) && Orderly(CALM_ENV, TYPED_DB) && 7 in TYPED_DB.bundles
    ensures var db1 := Install(CALM_ENV, Skip, TWO_JOINED, 7, TYPED_DB).1;
            var (r, db2) := Install(CALM_ENV, Skip, TWO_JOINED, 7, db1);
            && ErrorFree(r) && db2.nodes == db1.nodes && |db2.nodes| == 2 && |db2.edges| == 2
            && db2.edges[0].src == db2.edges[1].src == db2.nodes[0].id
            && db2.edges[0].tgt == db2.edges[1].tgt == db2.nodes[1].id
            && db2.edges[0].id != db2.edges[1].id
  {
    FirstSkipInstall();
    assert Orderly(CALM_ENV, TYPED_DB);
    hide Run, Step, Install;
    var db1 := Install(CALM_ENV, Skip, TWO_JOINED, 7, TYPED_DB).1;
    SkipReinstall(CALM_ENV, TWO_JOINED, 7, 7, TYPED_DB);
    var db2 := Install(CALM_ENV, Skip, TWO_JOINED, 7, db1).1;
    assert db2.edges[0] == db1.edges[0] && !EdgeIdTaken(db1, db2.edges[1].id);
    assert db1.edges[0] == db1.edges[|TYPED_DB.edges|..][0] && db2.edges[1] == db2.edges[|db1.edges|..][0];
  }

  // ---- Increment reinstall ----

  const ONE_SPEC := Manifest([SpecEntry("x", Ok("one"))], [], [], [], [], [])

  const LOGGING_DB := EMPTY_DB.(bundles := {7})

  /** An increment install of one spec, from its step. */
  lemma OneSpecInstall(db: Db, s: State)
    requires Step(CALM_ENV, Increment, SpecEntry("x", Ok("one")), Start(db)) == StepResult.Next(s)
    requires 7 in s.db.bundles && !InstallIdTaken(s.db, CALM_ENV.mint(db.tick)) && NoErrors(s.rows)
    ensures var (r, db') := Install(CALM_ENV, Increment, ONE_SPEC, 7, db);
            ErrorFree(r) && r.value.installed == InstalledRows(s.rows) && db' == s.db.(log := db'.log, tick := s.db.tick + 1)
            && db'.log == s.db.log + [LogRow(CALM_ENV.mint(db.tick), r.value)]
  {
    OneSpecRun(db, s);
    hide Step, Run, Manifest.Entries, EMPTY_DB, ONE_SPEC;
    NoErrorsReported(s.rows);
  }

  lemma OneSpecRun(db: Db, s: State)
    requires Step(CALM_ENV, Increment, SpecEntry("x", Ok("one")), Start(db)) == StepResult.Next(s)
    ensures RunOf(CALM_ENV, Increment, ONE_SPEC, db) == Completed(s)
  {
    hide Step;
    var e := SpecEntry("x", Ok("one"));
    assert ONE_SPEC.Entries() == [e] && [e][1..] == [];
    assert Run(CALM_ENV, Increment, [], s) == Completed(s);
  }

  /** One spec installed twice in increment mode: `x`, then `x-1`, both error-free. */
  lemma SecondInstallNumbered()
    ensures ErrorFree(Install(CALM_ENV, Increment, ONE_SPEC, 7, LOGGING_DB).0)
    ensures var db1 := Install(CALM_ENV, Increment, ONE_SPEC, 7, LOGGING_DB).1;
            var (r, db2) := Install(CALM_ENV, Increment, ONE_SPEC, 7, db1);
            ErrorFree(r) && "x" in db1.specs && "x" in db2.specs && "x-1" in db2.specs && db2.specs["x"] == db1.specs["x"]
  {
    hide Step, Run, Install;
    var e := SpecEntry("x", Ok("one"));
    SpecStep(Increment, e, Start(LOGGING_DB));
    OneSpecInstall(LOGGING_DB, Step(CALM_ENV, Increment, e, Start(LOGGING_DB)).s);
    var db1 := Install(CALM_ENV, Increment, ONE_SPEC, 7, LOGGING_DB).1;
    assert "x" + "-1" == "x-1";
    TakenSpecStep(e, Start(db1));
    OneSpecInstall(db1, Step(CALM_ENV, Increment, e, Start(db1)).s);
  }
}
