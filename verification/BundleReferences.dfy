/** References inside a bundle keep their meaning, whatever names the store already held. */
module BundleReferences {
  import opened Wrappers
  import opened Json
  import opened Entities
  import opened Storage
  import opened Names
  import opened Chars
  import opened WorkflowMapper
  import opened BundleSteps
  import opened BundleFacts
  import opened BundleTheorems

  // ---- The rename map ----

  predicate HasKey(renames: seq<(string, string)>, name: string) {
    exists i :: 0 <= i < |renames| && renames[i].0 == name
  }

  lemma {:induction false} LookupAppend(a: seq<(string, string)>, b: seq<(string, string)>, name: string)
    ensures LookupRename(a + b, name) == if HasKey(a, name) then LookupRename(a, name) else LookupRename(b, name)
    ensures !HasKey(a, name) ==> LookupRename(a, name) == name
  {
    if a == [] {
      assert a + b == b;
    } else {
      LookupAppend(a[1..], b, name);
      assert (a + b)[1..] == a[1..] + b;
      assert HasKey(a, name) <==> a[0].0 == name || HasKey(a[1..], name) by {
        if i: nat :| i < |a| && a[i].0 == name {
          assert i > 0 ==> a[1..][i - 1].0 == name;
        }
        if i: nat :| i < |a[1..]| && a[1..][i].0 == name {
          assert a[i + 1].0 == name;
        }
      }
    }
  }

  /** Row `j` is the only installed row of its kind that asked for its name. */
  ghost predicate OnlyOne(rows: seq<Row>, k: Kind, j: nat) {
    && j < |rows| && rows[j].Installed? && rows[j].item.kind == k
    && forall i :: 0 <= i < |rows| && i != j && rows[i].Installed? && rows[i].item.kind == k ==>
                     rows[i].item.original != rows[j].item.original
  }

  ghost predicate NoneAsked(rows: seq<Row>, k: Kind, name: string) {
    forall i :: 0 <= i < |rows| && rows[i].Installed? && rows[i].item.kind == k ==> rows[i].item.original != name
  }

  lemma {:induction false} RenameOfNone(rows: seq<Row>, k: Kind, name: string)
    requires NoneAsked(rows, k, name)
    ensures !HasKey(Renames(rows, k), name) && LookupRename(Renames(rows, k), name) == name
  {
    if rows != [] {
      RenameOfNone(rows[..|rows| - 1], k, name);
    }
    LookupAppend(Renames(rows, k), [], name);
  }

  /** Looking a name up in the rename map gives the final name of the entry that asked for it. */
  lemma {:induction false} RenameOfOnlyOne(rows: seq<Row>, k: Kind, j: nat)
    requires OnlyOne(rows, k, j)
    ensures LookupRename(Renames(rows, k), rows[j].item.original) == rows[j].item.final
  {
    var init, name := rows[..|rows| - 1], rows[j].item.original;
    var last := rows[|rows| - 1];
    var mine := if last.Installed? && last.item.kind == k && last.item.final != last.item.original
                then [(last.item.original, last.item.final)] else [];
    assert Renames(rows, k) == Renames(init, k) + mine;
    LookupAppend(Renames(init, k), mine, name);
    if j == |rows| - 1 {
      RenameOfNone(init, k, name);
    } else {
      RenameOfOnlyOne(init, k, j);
      LookupAppend(mine, [], name);
    }
  }

  // ---- Steps of a run ----

  /** The chain of states behind a run that returned a state: its rows and tables are the last state's,
      but for the collision an abort reports. */
  lemma RunChain(env: Env, mode: ConflictMode, es: seq<Entry>, s: State) returns (h: seq<State>)
    requires s.rows == [] && !Run(env, mode, es, s).Failed?
    ensures Chain(env, mode, es, h) && h[0] == s
    ensures var t, last := Run(env, mode, es, s).s, h[|h| - 1];
            && last.db.SameRows(t.db)
            && |last.rows| == |h| - 1 <= |t.rows| && last.rows == t.rows[..|h| - 1]
            && (forall i :: 0 <= i < |t.rows| && t.rows[i].Installed? ==> i < |h| - 1)
            && (Run(env, mode, es, s).Completed? ==> |h| == |es| + 1 && last.rows == t.rows)
  {
    hide Step, Run;
    h := History(env, mode, es, s);
    RunUnfolds(env, mode, es, s);
    ChainGrows(env, mode, es, h, 0, |h| - 1);
    if Run(env, mode, es, s).Aborted? {
      StepFacts(env, mode, es[|h| - 1], h[|h| - 1]);
    }
  }

  // ---- Projections and the specs they refer to ----

  ghost predicate DistinctSpecNames(m: Manifest) {
    forall i, j :: 0 <= i < j < |m.specs| ==> m.specs[i].name != m.specs[j].name
  }

  ghost predicate DistinctNodeNames(m: Manifest) {
    forall i, j :: 0 <= i < j < |m.nodes| ==> m.nodes[i].name != m.nodes[j].name
  }

  /** Where section entries sit in the whole manifest. */
  lemma EntryPositions(m: Manifest)
    ensures |m.Entries()| == |m.specs| + |m.projections| + |m.nodes| + |m.edges| + |m.wirings| + |m.workflows|
    ensures forall i :: 0 <= i < |m.specs| ==> m.Entries()[i] == m.specs[i]
    ensures var p := |m.specs|; forall i :: 0 <= i < |m.projections| ==> m.Entries()[p + i] == m.projections[i]
    ensures var n := |m.specs| + |m.projections|; forall i :: 0 <= i < |m.nodes| ==> m.Entries()[n + i] == m.nodes[i]
    ensures var e := |m.specs| + |m.projections| + |m.nodes|; forall i :: 0 <= i < |m.edges| ==> m.Entries()[e + i] == m.edges[i]
    ensures forall i :: 0 <= i < |m.Entries()| && m.Entries()[i].SpecEntry? ==> i < |m.specs|
    ensures forall i :: 0 <= i < |m.Entries()| && m.Entries()[i].NodeEntry? ==>
              |m.specs| + |m.projections| <= i < |m.specs| + |m.projections| + |m.nodes|
    ensures forall i :: 0 <= i < |m.Entries()| && m.Entries()[i].EdgeEntry? ==>
              |m.specs| + |m.projections| + |m.nodes| <= i < |m.specs| + |m.projections| + |m.nodes| + |m.edges|
  {
    assert |m.Entries()| == |m.specs| + |m.projections| + |m.nodes| + |m.edges| + |m.wirings| + |m.workflows|;
    hide Manifest.Entries;
    forall i | 0 <= i < |m.Entries()| ensures m.Entries()[i] == EntryAt(m, i) {
      EntryIs(m, i);
    }
  }

  lemma EntryIs(m: Manifest, i: nat)
    requires i < |m.Entries()|
    ensures m.Entries()[i] == EntryAt(m, i)
  {}

  /** Entry `i` in section order. */
  function EntryAt(m: Manifest, i: nat): Entry
    requires i < |m.specs| + |m.projections| + |m.nodes| + |m.edges| + |m.wirings| + |m.workflows|
  {
    var n := i - |m.specs|;
    if n < 0 then m.specs[i] else
    var n := n - |m.projections|;
    if n < 0 then m.projections[n + |m.projections|] else
    var n := n - |m.nodes|;
    if n < 0 then m.nodes[n + |m.nodes|] else
    var n := n - |m.edges|;
    if n < 0 then m.edges[n + |m.edges|] else
    var n := n - |m.wirings|;
    if n < 0 then m.wirings[n + |m.wirings|] else m.workflows[n]
  }

  /** Spec row `j` was installed and is the only spec of the manifest with its name. */
  lemma OnlySpec(m: Manifest, rows: seq<Row>, j: nat)
    requires DistinctSpecNames(m) && j < |m.specs| && j < |rows| <= |m.Entries()| && rows[j].Installed?
    requires forall i :: 0 <= i < |rows| ==> rows[i].Kind() == m.Entries()[i].Kind() && rows[i].Name() == m.Entries()[i].Name()
    ensures OnlyOne(rows, KSpec, j) && rows[j].item.original == m.specs[j].name
  {
    EntryPositions(m);
    hide Manifest.Entries;
    assert rows[j].Kind() == KSpec;
    forall i | 0 <= i < |rows| && i != j && rows[i].Installed? && rows[i].item.kind == KSpec
      ensures rows[i].item.original != rows[j].item.original
    {
      assert rows[i].Kind() == KSpec && m.Entries()[i].SpecEntry?;
      assert rows[i].Name() == m.specs[i].name;
    }
  }

  lemma OnlyNode(m: Manifest, rows: seq<Row>, j: nat)
    requires DistinctNodeNames(m) && j < |m.nodes| && |m.specs| + |m.projections| + j < |rows| <= |m.Entries()|
    requires rows[|m.specs| + |m.projections| + j].Installed?
    requires forall i :: 0 <= i < |rows| ==> rows[i].Kind() == m.Entries()[i].Kind() && rows[i].Name() == m.Entries()[i].Name()
    ensures OnlyOne(rows, KNode, |m.specs| + |m.projections| + j)
    ensures rows[|m.specs| + |m.projections| + j].item.original == m.nodes[j].name
  {
    EntryPositions(m);
    hide Manifest.Entries;
    var o := |m.specs| + |m.projections|;
    assert m.Entries()[o + j] == m.nodes[j];
    assert rows[o + j].Kind() == KNode;
    forall i | 0 <= i < |rows| && i != o + j && rows[i].Installed? && rows[i].item.kind == KNode
      ensures rows[i].item.original != rows[o + j].item.original
    {
      assert rows[i].Kind() == KNode && m.Entries()[i].NodeEntry?;
      assert rows[i].Name() == m.nodes[i - o].name;
    }
  }

  lemma ChainNames(env: Env, mode: ConflictMode, es: seq<Entry>, h: seq<State>, j: nat)
    requires Chain(env, mode, es, h) && j < |h|
    ensures |h[j].rows| == j
    ensures forall i :: 0 <= i < j ==> h[j].rows[i].Kind() == es[i].Kind() && h[j].rows[i].Name() == es[i].Name()
  {
    hide Step, Chain, Grows, Wrote, WroteEdge, FirstFree;
    ChainGrows(env, mode, es, h, j, j);
    forall i | 0 <= i < j ensures h[j].rows[i].Kind() == es[i].Kind() && h[j].rows[i].Name() == es[i].Name() {
      ChainStep(env, mode, es, h, i, j);
    }
  }

  lemma SpecRowStays(env: Env, mode: ConflictMode, es: seq<Entry>, h: seq<State>, j: nat)
    requires Chain(env, mode, es, h) && j < |h| - 1 && es[j].SpecEntry?
    requires |h[|h| - 1].rows| == |h| - 1 && h[|h| - 1].rows[j].Installed?
    ensures var last, item := h[|h| - 1], h[|h| - 1].rows[j].item;
            && es[j].body.Ok? && item.ref.UlidRef?
            && item.final in last.db.specs && last.db.specs[item.final] == SpecRow(item.ref.id, es[j].body.value)
  {
    hide Step, Chain, FirstFree, Matches;
    ChainStep(env, mode, es, h, j, |h| - 1);
  }

  lemma ProjectionRowStays(env: Env, mode: ConflictMode, es: seq<Entry>, h: seq<State>, p: nat)
    requires Chain(env, mode, es, h) && p < |h| - 1 && es[p].ProjectionEntry?
    requires |h[|h| - 1].rows| == |h| - 1 && h[|h| - 1].rows[p].Installed?
    ensures var last, item := h[|h| - 1], h[|h| - 1].rows[p].item;
            && item.ref.UlidRef? && item.final in last.db.projections
            && last.db.projections[item.final] ==
               ProjectionRow(item.ref.id, LookupRename(Renames(h[p].rows, KSpec), es[p].specRef),
                             es[p].template, LowerAscii(es[p].targetForm))
  {
    hide Step, Chain, FirstFree, Matches, LookupRename, Renames;
    ChainStep(env, mode, es, h, p, |h| - 1);
  }

  /** Reference rewriting keeps meaning. In a bundle with pairwise distinct spec names, an installed
      projection that refers to a spec of the bundle that was installed too ends with a reference to
      that very spec: its final name, under which the store holds the body the bundle declared. */
  lemma ProjectionsReferToTheirSpecs(env: Env, mode: ConflictMode, m: Manifest, db: Db, i: nat, j: nat)
    requires DistinctSpecNames(m) && !RunOf(env, mode, m, db).Failed?
    requires i < |m.projections| && j < |m.specs| && m.projections[i].specRef == m.specs[j].name
    requires var rows := Final(env, mode, m, db).rows;
             |m.specs| + i < |rows| && rows[|m.specs| + i].Installed? && rows[j].Installed?
    ensures var s := Final(env, mode, m, db);
            var spec, projection := s.rows[j].item, s.rows[|m.specs| + i].item;
            && projection.ref.UlidRef? && spec.ref.UlidRef? && m.specs[j].body.Ok?
            && projection.final in s.db.projections && spec.final in s.db.specs
            && s.db.projections[projection.final] ==
               ProjectionRow(projection.ref.id, spec.final, m.projections[i].template, LowerAscii(m.projections[i].targetForm))
            && s.db.specs[spec.final] == SpecRow(spec.ref.id, m.specs[j].body.value)
  {
    hide Run, Step, Renames, LookupRename, FirstFree, Candidate;
    var es, p := m.Entries(), |m.specs| + i;
    EntryPositions(m);
    assert es[p] == m.projections[i];
    hide Manifest.Entries;
    var h := RunChain(env, mode, es, Start(db));
    SpecRowStays(env, mode, es, h, j);
    ProjectionRowStays(env, mode, es, h, p);
    hide Chain, Grows;
    ChainGrows(env, mode, es, h, p, |h| - 1);
    var last := h[|h| - 1];
    ChainNames(env, mode, es, h, p);
    OnlySpec(m, h[p].rows, j);
    RenameOfOnlyOne(h[p].rows, KSpec, j);
  }

  /** Edges join the rows this install minted. In a bundle with pairwise distinct node names, an
      installed edge between two installed nodes of the bundle joins exactly their new rows, never an
      older row of the same name. */
  lemma EdgesJoinTheirNodes(env: Env, mode: ConflictMode, m: Manifest, db: Db, i: nat, a: nat, b: nat)
    requires DistinctNodeNames(m) && !RunOf(env, mode, m, db).Failed?
    requires i < |m.edges| && a < |m.nodes| && b < |m.nodes|
    requires m.edges[i].fromName == m.nodes[a].name && m.edges[i].toName == m.nodes[b].name
    requires var rows := Final(env, mode, m, db).rows;
             var n := |m.specs| + |m.projections|;
             n + |m.nodes| + i < |rows| && rows[n + a].Installed? && rows[n + b].Installed? && rows[n + |m.nodes| + i].Installed?
    ensures var s := Final(env, mode, m, db);
            var n := |m.specs| + |m.projections|;
            var src, tgt, edge := s.rows[n + a].item, s.rows[n + b].item, s.rows[n + |m.nodes| + i].item;
            && src.ref.UlidRef? && tgt.ref.UlidRef? && edge.ref.UlidRef?
            && !NodeIdTaken(db, src.ref.id) && !NodeIdTaken(db, tgt.ref.id) && !EdgeIdTaken(db, edge.ref.id)
            && Edge(edge.ref.id, src.ref.id, tgt.ref.id, m.edges[i].edgeType,
                    if m.edges[i].metadata == JNull then JObject(map[]) else m.edges[i].metadata) in s.db.edges
            && edge.final == src.final + "->" + tgt.final
            && edge.original == m.edges[i].fromName + "->" + m.edges[i].toName
  {
    hide Run, Step, Renames, LookupRename, Matches, Chain;
    var es, n := m.Entries(), |m.specs| + |m.projections|;
    var e := n + |m.nodes| + i;
    EntryPositions(m);
    hide Manifest.Entries;
    var h := RunChain(env, mode, es, Start(db));
    EdgeRows(env, mode, es, h, e);
    ChainNames(env, mode, es, h, |h| - 1);
    EndpointResolves(env, mode, m, h, a, e);
    EndpointResolves(env, mode, m, h, b, e);
  }

  /** The row an installed edge entry inserted joins the unique rows of its rewritten names, and stays. */
  lemma EdgeRows(env: Env, mode: ConflictMode, es: seq<Entry>, h: seq<State>, e: nat)
    requires Chain(env, mode, es, h) && e < |h| - 1 && es[e].EdgeEntry?
    requires |h[|h| - 1].rows| == |h| - 1 && h[|h| - 1].rows[e].Installed?
    ensures |h[e].rows| == e && h[e].rows == h[|h| - 1].rows[..e]
    ensures var item, renames := h[|h| - 1].rows[e].item, Renames(h[e].rows, KNode);
            var src, tgt := LookupRename(renames, es[e].fromName), LookupRename(renames, es[e].toName);
            && item.ref.UlidRef? && item.final == src + "->" + tgt && !EdgeIdTaken(h[0].db, item.ref.id)
            && |Matches(h[e].db.nodes, src)| == 1 && |Matches(h[e].db.nodes, tgt)| == 1
            && Edge(item.ref.id, Matches(h[e].db.nodes, src)[0].id, Matches(h[e].db.nodes, tgt)[0].id,
                    es[e].edgeType, OrObject(es[e].metadata)) in h[|h| - 1].db.edges
  {
    hide Step, Renames, LookupRename, Matches;
    ChainStep(env, mode, es, h, e, |h| - 1);
    ChainGrows(env, mode, es, h, 0, e);
    var added := h[e + 1].db.edges[|h[e].db.edges|];
    assert h[|h| - 1].db.edges[|h[e].db.edges|] == added;
    forall i | 0 <= i < |h[0].db.edges| ensures h[0].db.edges[i].id != added.id {
      assert h[e].db.edges[i] == h[0].db.edges[i];
    }
  }

  /** At an edge step, the name of an installed node entry is rewritten to a name only its new row has. */
  lemma EndpointResolves(env: Env, mode: ConflictMode, m: Manifest, h: seq<State>, a: nat, k: nat)
    requires DistinctNodeNames(m) && Chain(env, mode, m.Entries(), h)
    requires var o := |m.specs| + |m.projections|;
             a < |m.nodes| && o + a < k < |h| && |h[k].rows| == k && h[k].rows[o + a].Installed?
    ensures var item := h[k].rows[|m.specs| + |m.projections| + a].item;
            && LookupRename(Renames(h[k].rows, KNode), m.nodes[a].name) == item.final
            && item.ref.UlidRef? && !NodeIdTaken(h[0].db, item.ref.id)
            && |Matches(h[k].db.nodes, item.final)| == 1 && Matches(h[k].db.nodes, item.final)[0].id == item.ref.id
  {
    assert |h| <= |m.Entries()| + 1;
    hide Step, Renames, LookupRename, Chain, Matches;
    EntryPositions(m);
    var node := InsertedNodeStays(env, mode, m.Entries(), h, |m.specs| + |m.projections| + a, k);
    ChainNames(env, mode, m.Entries(), h, k);
    OnlyNode(m, h[k].rows, a);
    RenameOfOnlyOne(h[k].rows, KNode, |m.specs| + |m.projections| + a);
  }

  /** The row an installed node, wiring or workflow entry inserted stays the only row under its final name. */
  lemma InsertedNodeStays(env: Env, mode: ConflictMode, es: seq<Entry>, h: seq<State>, j: nat, k: nat) returns (node: Node)
    requires Chain(env, mode, es, h) && j < k < |h| && |h[k].rows| == k && h[k].rows[j].Installed?
    requires TableOf(es[j].Kind()) == NodeTable
    ensures var item := h[k].rows[j].item;
            && Matches(h[k].db.nodes, item.final) == [node]
            && node.name == item.final && Refers(es[j].Kind(), item.ref, node)
            && !NodeIdTaken(h[0].db, node.id) && !NodeIdTaken(h[j].db, node.id)
            && Precheck(es[j]) == None && Declares(env, es[j], node)
  {
    hide Step, Renames, Declares, FirstFree;
    ChainStep(env, mode, es, h, j, k);
    ChainGrows(env, mode, es, h, 0, j);
    var item := h[k].rows[j].item;
    node := h[j + 1].db.nodes[|h[j].db.nodes|];
    FirstFreeIsFree(h[j].db.Names(Nodes), es[j].Name(), item.final);
    WroteGrows(env, es[j], Renames(h[j].rows, KSpec), item.final, item.ref, h[j].db, h[j + 1].db);
    assert item.final in h[j + 1].db.Names(Nodes);
    forall i | 0 <= i < |h[0].db.nodes| ensures h[0].db.nodes[i].id != node.id {
      assert h[j].db.nodes[i] == h[0].db.nodes[i];
    }
  }

  /** Installed nodes keep what they declare. At the end of a run the final name of an installed node finds one
      row, of the declared type, holding the declared metadata: an object as it is, an empty one when there is
      none, and what a string parses to. */
  lemma NodesKeepMetadata(env: Env, mode: ConflictMode, m: Manifest, db: Db, i: nat)
    requires !RunOf(env, mode, m, db).Failed? && i < |m.nodes|
    requires var rows, p := Final(env, mode, m, db).rows, |m.specs| + |m.projections| + i; p < |rows| && rows[p].Installed?
    ensures var s, e := Final(env, mode, m, db), m.nodes[i];
            var item := s.rows[|m.specs| + |m.projections| + i].item;
            var found := Matches(s.db.nodes, item.final);
            && |found| == 1 && UlidRef(found[0].id) == item.ref && found[0].name == item.final && found[0].kind == e.nodeType
            && match e.metadata
               case JNull => found[0].metadata == JObject(map[])
               case JObject(_) => found[0].metadata == e.metadata
               case JString(text) => env.parseJson(text) == Some(found[0].metadata) && found[0].metadata.JObject?
               case _ => false
  {
    hide Run, Step, Matches, Chain, Manifest.Entries, NodeIdTaken;
    var es, p := m.Entries(), |m.specs| + |m.projections| + i;
    EntryPositions(m);
    assert es[p] == m.nodes[i];
    var h := RunChain(env, mode, es, Start(db));
    var node := InsertedNodeStays(env, mode, es, h, p, |h| - 1);
  }

  /** Installed edges keep what they declare: kind and metadata, which may be any JSON and is an empty object
      when there is none. */
  lemma EdgesKeepMetadata(env: Env, mode: ConflictMode, m: Manifest, db: Db, i: nat) returns (edge: Edge)
    requires !RunOf(env, mode, m, db).Failed? && i < |m.edges|
    requires var rows, p := Final(env, mode, m, db).rows, |m.specs| + |m.projections| + |m.nodes| + i;
             p < |rows| && rows[p].Installed?
    ensures var s, e := Final(env, mode, m, db), m.edges[i];
            && edge in s.db.edges && UlidRef(edge.id) == s.rows[|m.specs| + |m.projections| + |m.nodes| + i].item.ref
            && !EdgeIdTaken(db, edge.id)
            && edge.kind == e.edgeType
            && (e.metadata == JNull ==> edge.metadata == JObject(map[]))
            && (e.metadata != JNull ==> edge.metadata == e.metadata)
  {
    hide Run, Step, Renames, LookupRename, Matches, Chain, Manifest.Entries;
    var es, p := m.Entries(), |m.specs| + |m.projections| + |m.nodes| + i;
    EntryPositions(m);
    assert es[p] == m.edges[i];
    var h := RunChain(env, mode, es, Start(db));
    EdgeRows(env, mode, es, h, p);
    var renames := Renames(h[p].rows, KNode);
    var src, tgt := LookupRename(renames, m.edges[i].fromName), LookupRename(renames, m.edges[i].toName);
    edge := Edge(h[|h| - 1].rows[p].item.ref.id, Matches(h[p].db.nodes, src)[0].id, Matches(h[p].db.nodes, tgt)[0].id,
                 m.edges[i].edgeType, OrObject(m.edges[i].metadata));
  }

  /** Installed workflows read back. Looking the final name of an installed workflow up finds one node,
      and the mapper reads from it the workflow the bundle declared, under that name. */
  lemma WorkflowsReadBack(env: Env, mode: ConflictMode, m: Manifest, db: Db, i: nat)
    requires !RunOf(env, mode, m, db).Failed?
    requires i < |Final(env, mode, m, db).rows| <= |m.Entries()|
    requires m.Entries()[i].WorkflowEntry? && Final(env, mode, m, db).rows[i].Installed?
    ensures var s, e := Final(env, mode, m, db), m.Entries()[i];
            var final := s.rows[i].item.final;
            && s.rows[i].item.ref == NameRef(final)
            && |Matches(s.db.nodes, final)| == 1 && e.trigger.Ok? && e.action.Ok?
            && var read := NodeToWorkflow(Matches(s.db.nodes, final)[0]);
            && read.Ok? && read.value.id == final && read.value.persona == e.persona
            && ParseTrigger(e.trigger.value) == Ok(read.value.trigger) && ActionOf(e.action.value) == Ok(read.value.action)
            && (read.value.enabled <==> e.enabled != Some(false))
  {
    hide Run, Step, Matches, Chain, Manifest.Entries, NodeToWorkflow, WorkflowOf, ParseTrigger, ActionOf;
    var es := m.Entries();
    var h := RunChain(env, mode, es, Start(db));
    var node := InsertedNodeStays(env, mode, es, h, i, |h| - 1);
    var w := WorkflowOf(InputOf(es[i], node.name)).value;
    RegistrationIff(InputOf(es[i], node.name), w);
    WorkflowRoundTrip(w, env.seed);
  }
}
