/** What the installer neither checks nor rewrites: wirings. */
module BundleCapture {
  import opened Wrappers
  import opened Json
  import opened Entities
  import opened Storage
  import opened Names
  import opened BundleSteps
  import opened BundleFacts
  import opened BundleTheorems
  import opened BundleReferences
  import opened BundleRuns
  import WiringMapper

  // ---- Wirings keep their projection reference as written ----

  /** When no bundle name is another one plus a suffix, a run meets each name as the store held it. */
  lemma {:induction false} NameUntouched(env: Env, mode: ConflictMode, es: seq<Entry>, h: seq<State>, j: nat, k: nat)
    requires Chain(env, mode, es, h) && CleanNames(es) && k <= j < |h| && j < |es| && !es[j].EdgeEntry?
    ensures es[j].Name() in h[k].db.Names(NamespaceOf(es[j].Kind())) <==>
            es[j].Name() in h[0].db.Names(NamespaceOf(es[j].Kind()))
  {
    hide *;
    if k > 0 {
      NameUntouched(env, mode, es, h, j, k - 1);
      ChainStep(env, mode, es, h, k - 1, k);
      NotACandidate(es, j, k - 1);
      StepKeepsName(env, mode, es[k - 1], NamespaceOf(es[j].Kind()), es[j].Name(), h[k - 1], h[k]);
    }
  }

  /** A step neither adds nor removes a name that is no candidate of its entry's. */
  lemma StepKeepsName(env: Env, mode: ConflictMode, e: Entry, ns: Namespace, name: string, s: State, t: State)
    requires Stepped(env, mode, e, s, t)
    requires !e.EdgeEntry? && NamespaceOf(e.Kind()) == ns && t.rows[|s.rows|].Installed? ==>
               forall n: nat :: Candidate(e.Name(), n) != name
    ensures name in t.db.Names(ns) <==> name in s.db.Names(ns)
  {
    hide Grows, Wrote, FirstFree, Candidate, Renames, LookupRename, Matches, OrObject, NodeNames, Entry.Name;
    var row := t.rows[|s.rows|];
    if row.Installed? && !e.EdgeEntry? {
      FirstFreeIsFree(s.db.Names(NamespaceOf(e.Kind())), e.Name(), row.item.final);
      WroteGrows(env, e, Renames(s.rows, KSpec), row.item.final, row.item.ref, s.db, t.db);
      var n := FirstFreeIsCandidate(s.db.Names(NamespaceOf(e.Kind())), e.Name(), row.item.final);
    }
  }

  lemma FirstFreeIsCandidate(names: set<string>, desired: string, final: string) returns (n: nat)
    requires FirstFree(names, desired, final)
    ensures final == Candidate(desired, n)
  {
    n :| final == Candidate(desired, n);
  }

  lemma NotACandidate(es: seq<Entry>, i: nat, j: nat)
    requires CleanNames(es) && i < |es| && j < |es| && i != j && !es[i].EdgeEntry?
    ensures !es[j].EdgeEntry? && NamespaceOf(es[j].Kind()) == NamespaceOf(es[i].Kind()) ==>
              forall n: nat :: Candidate(es[j].Name(), n) != es[i].Name()
  {}

  /** The bundle's documentation says references inside a bundle are rewritten to final names. A wiring's
      projection reference is not: it names the projection this install added if and only if the store held
      none of that name. Reinstalled in increment mode, a wiring points at the first install's projection. */
  lemma WiringReferenceIff(env: Env, mode: ConflictMode, m: Manifest, db: Db, i: nat, j: nat)
    requires CleanNames(m.Entries()) && !RunOf(env, mode, m, db).Failed?
    requires i < |m.Entries()| && m.Entries()[i].WiringEntry? && m.Entries()[i].metadata.Get("projection_ref") == None
    requires j < |m.projections| && m.Entries()[i].projectionRef == Some(m.projections[j].name)
    requires var rows := Final(env, mode, m, db).rows;
             |m.specs| + j < |rows| && i < |rows| && rows[i].Installed? && rows[|m.specs| + j].Installed?
    ensures var s := Final(env, mode, m, db);
            var wirings, projection := Matches(s.db.nodes, s.rows[i].item.final), s.rows[|m.specs| + j].item;
            && |wirings| == 1
            && (wirings[0].metadata.GetString("projection_ref") == Some(projection.final) <==>
                m.projections[j].name !in db.projections)
  {
    hide Run, Step, Matches, Manifest.Entries, CleanNames, Chain, WiringMetadata, Renames, LookupRename;
    var es, p := m.Entries(), |m.specs| + j;
    EntryPositions(m);
    assert es[p] == m.projections[j];
    var h := RunChain(env, mode, es, Start(db));
    WiringRowStays(env, mode, es, h, i);
    ProjectionKeepsNameIff(env, mode, es, h, p);
  }

  /** The row an installed wiring inserted carries its options as the bundle wrote them, unless the entry's
      own metadata overrides them. */
  lemma WiringRowStays(env: Env, mode: ConflictMode, es: seq<Entry>, h: seq<State>, i: nat)
    requires Chain(env, mode, es, h) && i < |h| - 1 && es[i].WiringEntry?
    requires |h[|h| - 1].rows| == |h| - 1 && h[|h| - 1].rows[i].Installed?
    ensures var last, e := h[|h| - 1], es[i];
            var wirings := Matches(last.db.nodes, last.rows[i].item.final);
            && |wirings| == 1 && wirings[0].kind == "outline_node"
            && last.rows[i].item.original == e.personaId + "." + e.slot
            && wirings[0].metadata == WiringMetadata(e)
            && (forall key :: e.metadata.Get(key).Some? ==> wirings[0].metadata.Get(key) == e.metadata.Get(key))
            && (e.metadata.Get("projection_ref") == None ==> wirings[0].metadata.GetString("projection_ref") == e.projectionRef)
            && (e.metadata.Get("auth") == None ==> wirings[0].metadata.GetString("auth") == e.auth)
            && (e.metadata.Get("maintenance_exempt") == None ==>
                  (WiringMapper.MaintenanceExempt(wirings[0]) <==> e.maintenanceExempt == Some(true)))
  {
    assert i < |es|;
    hide Chain, Step, Matches, WiringMetadata, NodeIdTaken;
    ChainNames(env, mode, es, h, |h| - 1);
    var node := InsertedNodeStays(env, mode, es, h, i, |h| - 1);
    WiringOptions(es[i]);
  }

  lemma WiringOptions(e: Wiring)
    ensures e.metadata.Get("projection_ref") == None ==> WiringMetadata(e).GetString("projection_ref") == e.projectionRef
    ensures e.metadata.Get("auth") == None ==> WiringMetadata(e).GetString("auth") == e.auth
    ensures e.metadata.Get("maintenance_exempt") == None ==>
              WiringMetadata(e).GetBool("maintenance_exempt") == e.maintenanceExempt
  {
    hide OptionsOf;
    OptionsRead(e);
    forall k | k in {"projection_ref", "auth", "maintenance_exempt"} && e.metadata.Get(k) == None
      ensures WiringMetadata(e).Get(k) == JObject(OptionsOf(e)).Get(k)
    {}
  }

  lemma OptionsRead(e: Wiring)
    ensures JObject(OptionsOf(e)).GetString("projection_ref") == e.projectionRef
    ensures JObject(OptionsOf(e)).GetString("auth") == e.auth
    ensures JObject(OptionsOf(e)).GetBool("maintenance_exempt") == e.maintenanceExempt
  {}

  lemma MetadataIsObject(e: Wiring, w: WiringMapper.Wiring)
    requires w.persona == e.personaId && w.slot == e.slot && w.source == e.sourceUri
    ensures WiringMetadata(e) == WiringMapper.ObjectOf(w, OptionsOf(e) + OverridesOf(e))
    ensures WiringMapper.KeepsParts(w, OptionsOf(e) + OverridesOf(e)) <==> WiringMapper.KeepsParts(w, OverridesOf(e))
  {
    hide OptionsOf, OverridesOf;
  }

  /** The installer stores wirings unchecked. The row of an installed wiring is read back by the wiring
      mapper as the persona, slot and source of its entry if and only if these meet the entity's invariants
      and the entry's own metadata leaves them alone. */
  lemma WiringsReadBackIff(env: Env, mode: ConflictMode, m: Manifest, db: Db, i: nat, projectionRef: Option<string>)
    requires !RunOf(env, mode, m, db).Failed?
    requires i < |Final(env, mode, m, db).rows| <= |m.Entries()|
    requires m.Entries()[i].WiringEntry? && Final(env, mode, m, db).rows[i].Installed?
    ensures var s, e := Final(env, mode, m, db), m.Entries()[i];
            var wirings := Matches(s.db.nodes, s.rows[i].item.final);
            var w := WiringMapper.Wiring(e.personaId, e.slot, e.sourceUri, projectionRef);
            && |wirings| == 1
            && (WiringMapper.NodeToWiring(wirings[0], projectionRef) == Ok(w) <==>
                w.Valid() && WiringMapper.KeepsParts(w, OverridesOf(e)))
  {
    hide Run, Step, Matches, Chain, Manifest.Entries, WiringMetadata, OptionsOf, OverridesOf, WiringMapper.NodeToWiring;
    hide WiringMapper.ObjectOf, WiringMapper.KeepsParts, WiringMapper.Wiring.Valid;
    var es := m.Entries();
    var h := RunChain(env, mode, es, Start(db));
    WiringRowStays(env, mode, es, h, i);
    var last := h[|h| - 1];
    var w := WiringMapper.Wiring(es[i].personaId, es[i].slot, es[i].sourceUri, projectionRef);
    MetadataIsObject(es[i], w);
    WiringMapper.WiringRoundTripIff(w, OptionsOf(es[i]) + OverridesOf(es[i]), Matches(last.db.nodes, last.rows[i].item.final)[0]);
  }

  /** An installed projection keeps its name if and only if the store held no projection of that name. */
  lemma ProjectionKeepsNameIff(env: Env, mode: ConflictMode, es: seq<Entry>, h: seq<State>, p: nat)
    requires Chain(env, mode, es, h) && CleanNames(es) && p < |h| - 1 && es[p].ProjectionEntry?
    requires |h[|h| - 1].rows| == |h| - 1 && h[|h| - 1].rows[p].Installed?
    ensures h[|h| - 1].rows[p].item.final == es[p].name <==> es[p].name !in h[0].db.projections
  {
    assert p < |es|;
    hide Chain, Step, CleanNames, Grows, Wrote, FirstFree;
    NameUntouched(env, mode, es, h, p, p);
    ChainStep(env, mode, es, h, p, |h| - 1);
    FirstFreeKeepsName(h[p].db.Names(Projections), es[p].name, h[|h| - 1].rows[p].item.final);
  }

  lemma FirstFreeKeepsName(names: set<string>, desired: string, final: string)
    requires FirstFree(names, desired, final)
    ensures final == desired <==> desired !in names
  {
    assert Candidate(desired, 0) == desired;
  }
}
