/** References to a name that several entries of a bundle ask for. */
module BundleDuplicates {
  import opened Wrappers
  import opened Entities
  import opened Storage
  import opened Names
  import opened BundleSteps
  import opened BundleFacts
  import opened BundleTheorems
  import opened BundleReferences
  import opened BundleCapture

  // ---- The rename map ----

  ghost predicate Asked(row: Row, k: Kind, name: string) {
    row.Installed? && row.item.kind == k && row.item.original == name
  }

  ghost predicate Renamed(row: Row, k: Kind, name: string) {
    Asked(row, k, name) && row.item.final != name
  }

  /** Row `j` is the first renamed row that asked for the name. */
  ghost predicate FirstRenamed(rows: seq<Row>, k: Kind, name: string, j: nat) {
    j < |rows| && Renamed(rows[j], k, name) && forall i :: 0 <= i < j ==> !Renamed(rows[i], k, name)
  }

  /** A name nobody was renamed from stays; otherwise it becomes the final name of the first renamed row. */
  lemma {:induction false} LookupFindsFirstRenamed(rows: seq<Row>, k: Kind, name: string)
    ensures HasKey(Renames(rows, k), name) <==> exists i :: 0 <= i < |rows| && Renamed(rows[i], k, name)
    ensures forall j :: 0 <= j < |rows| && FirstRenamed(rows, k, name, j) ==> LookupRename(Renames(rows, k), name) == rows[j].item.final
    ensures (forall i :: 0 <= i < |rows| ==> !Renamed(rows[i], k, name)) ==> LookupRename(Renames(rows, k), name) == name
  {
    if rows != [] {
      var init, last := rows[..|rows| - 1], rows[|rows| - 1];
      assert rows == init + [last];
      LookupFindsFirstRenamed(init, k, name);
      LookupSnoc(init, last, k, name);
      hide Renames, LookupRename, HasKey, Renamed;
      assert forall i :: 0 <= i < |init| ==> init[i] == rows[i];
      forall j | 0 <= j < |rows| && FirstRenamed(rows, k, name, j)
        ensures LookupRename(Renames(rows, k), name) == rows[j].item.final
      {
        if j < |init| {
          assert FirstRenamed(init, k, name, j);
          assert Renamed(init[j], k, name);
        }
      }
      if HasKey(Renames(rows, k), name) && !Renamed(last, k, name) {
        var i :| 0 <= i < |init| && Renamed(init[i], k, name);
        assert Renamed(rows[i], k, name);
      }
    }
  }

  /** What one more row does to the lookup of a name. */
  lemma LookupSnoc(init: seq<Row>, last: Row, k: Kind, name: string)
    ensures HasKey(Renames(init + [last], k), name) <==> HasKey(Renames(init, k), name) || Renamed(last, k, name)
    ensures LookupRename(Renames(init + [last], k), name) ==
            if HasKey(Renames(init, k), name) then LookupRename(Renames(init, k), name)
            else if Renamed(last, k, name) then last.item.final else name
  {
    var mine := if last.Installed? && last.item.kind == k && last.item.final != last.item.original
                then [(last.item.original, last.item.final)] else [];
    assert (init + [last])[..|init|] == init;
    assert Renames(init + [last], k) == Renames(init, k) + mine;
    assert HasKey(mine, name) <==> Renamed(last, k, name) by {
      if mine != [] {
        assert mine[0].0 == last.item.original;
      }
    }
    LookupAppend(Renames(init, k), mine, name);
    LookupAppend(mine, [], name);
    HasKeyAppend(Renames(init, k), mine, name);
  }

  lemma HasKeyAppend(a: seq<(string, string)>, b: seq<(string, string)>, name: string)
    ensures HasKey(a + b, name) <==> HasKey(a, name) || HasKey(b, name)
  {
    if i :| 0 <= i < |a| && a[i].0 == name {
      assert (a + b)[i].0 == name;
    }
    if i :| 0 <= i < |b| && b[i].0 == name {
      assert (a + b)[|a| + i].0 == name;
    }
    if i :| 0 <= i < |a + b| && (a + b)[i].0 == name {
      assert if i < |a| then a[i].0 == name else b[i - |a|].0 == name;
    }
  }

  // ---- Runs ----

  /** `name` is no suffixed form of another name of the namespace. */
  ghost predicate NotSuffixed(es: seq<Entry>, ns: Namespace, name: string) {
    forall i, n: nat :: 0 <= i < |es| && !es[i].EdgeEntry? && NamespaceOf(es[i].Kind()) == ns && es[i].Name() != name ==>
                          Candidate(es[i].Name(), n) != name
  }

  /** The entries in front of `j` that share the namespace of kind `k` are of that kind, and ask for other names. */
  ghost predicate NoneBefore(es: seq<Entry>, k: Kind, name: string, j: nat) {
    j <= |es| && forall i :: 0 <= i < j && !es[i].EdgeEntry? && NamespaceOf(es[i].Kind()) == NamespaceOf(k) ==>
                               es[i].Kind() == k && es[i].Name() != name
  }

  /** Until an entry asks for a name, the store holds it exactly if it held it at the start. */
  lemma {:induction false} NameBefore(env: Env, es: seq<Entry>, h: seq<State>, k: Kind, name: string, j: nat)
    requires Chain(env, Increment, es, h) && j < |h| && NoneBefore(es, k, name, j) && NotSuffixed(es, NamespaceOf(k), name)
    ensures name in h[j].db.Names(NamespaceOf(k)) <==> name in h[0].db.Names(NamespaceOf(k))
  {
    hide Chain, Stepped, RowFacts, Grows, Step, Db.Names, Candidate;
    if j > 0 {
      NameBefore(env, es, h, k, name, j - 1);
      ChainStep(env, Increment, es, h, j - 1, j);
      StepKeepsName(env, Increment, es[j - 1], NamespaceOf(k), name, h[j - 1], h[j]);
    }
  }

  /** An installed row keeps its name exactly when the name was free, and then takes it. */
  lemma InstalledKeepsIff(env: Env, es: seq<Entry>, h: seq<State>, j: nat, p: nat)
    requires Chain(env, Increment, es, h) && j < p < |h| && |h[p].rows| == p
    requires !es[j].EdgeEntry? && h[p].rows[j].Installed?
    ensures var item, ns := h[p].rows[j].item, NamespaceOf(es[j].Kind());
            && item.kind == es[j].Kind() && item.original == es[j].Name()
            && (item.final == es[j].Name() <==> es[j].Name() !in h[j].db.Names(ns))
            && item.final in h[j + 1].db.Names(ns)
  {
    hide Chain, Step, FirstFree, Matches, Declares, Entry.Name;
    ChainStep(env, Increment, es, h, j, p);
    var item := h[p].rows[j].item;
    FirstFreeIsFree(h[j].db.Names(NamespaceOf(es[j].Kind())), es[j].Name(), item.final);
    WroteGrows(env, es[j], Renames(h[j].rows, KSpec), item.final, item.ref, h[j].db, h[j + 1].db);
  }

  /** Two entries of one kind ask for `name` and are installed, the first in front of all others. */
  ghost predicate Duplicates(es: seq<Entry>, rows: seq<Row>, k: Kind, name: string, j1: nat, j2: nat) {
    && k != KEdge && j1 < j2 < |rows| <= |es|
    && es[j1].Kind() == k && es[j2].Kind() == k && es[j1].Name() == name && es[j2].Name() == name
    && rows[j1].Installed? && rows[j2].Installed?
    && NoneBefore(es, k, name, j1) && NotSuffixed(es, NamespaceOf(k), name)
  }

  /** No entry between the two asks for the name. */
  ghost predicate NoneBetween(es: seq<Entry>, name: string, j1: nat, j2: nat) {
    j2 <= |es| && forall i :: j1 < i < j2 ==> es[i].Name() != name
  }

  lemma {:induction false} LeastRenamed(rows: seq<Row>, k: Kind, name: string, j: nat) returns (least: nat)
    requires j < |rows| && Renamed(rows[j], k, name)
    ensures least <= j && FirstRenamed(rows, k, name, least)
  {
    if i :| 0 <= i < j && Renamed(rows[i], k, name) {
      least := LeastRenamed(rows, k, name, i);
    } else {
      least := j;
    }
  }

  /** Which row a duplicate name means, seen from the rows alone. */
  lemma RowsMean(rows: seq<Row>, k: Kind, name: string, j1: nat, j2: nat) returns (j: nat)
    requires j1 < j2 < |rows| && Asked(rows[j1], k, name) && forall i :: 0 <= i < j1 ==> !Renamed(rows[i], k, name)
    requires rows[j1].item.final == name ==> Renamed(rows[j2], k, name)
    ensures var meant := LookupRename(Renames(rows, k), name);
            if rows[j1].item.final != name then meant == rows[j1].item.final
            else j1 < j <= j2 && Renamed(rows[j], k, name) && meant == rows[j].item.final && meant != name
  {
    hide Renames, LookupRename;
    LookupFindsFirstRenamed(rows, k, name);
    j := j1;
    if rows[j1].item.final != name {
      assert FirstRenamed(rows, k, name, j1);
    } else {
      j := LeastRenamed(rows, k, name, j2);
      assert FirstRenamed(rows, k, name, j);
    }
  }

  /** The two duplicates in a run: who keeps the name is settled by the store before the install. */
  lemma DuplicateRows(env: Env, es: seq<Entry>, h: seq<State>, k: Kind, name: string, j1: nat, j2: nat, p: nat)
    requires Chain(env, Increment, es, h) && p < |h| && |h[p].rows| == p
    requires Duplicates(es, h[p].rows, k, name, j1, j2)
    ensures Asked(h[p].rows[j1], k, name) && Asked(h[p].rows[j2], k, name)
    ensures forall i :: 0 <= i < j1 ==> !Renamed(h[p].rows[i], k, name)
    ensures h[p].rows[j1].item.final == name <==> name !in h[0].db.Names(NamespaceOf(k))
    ensures h[p].rows[j1].item.final == name ==> Renamed(h[p].rows[j2], k, name)
  {
    hide Chain, Step, Grows, Db.Names, Candidate, NotSuffixed;
    ChainNames(env, Increment, es, h, p);
    NameBefore(env, es, h, k, name, j1);
    InstalledKeepsIff(env, es, h, j1, p);
    InstalledKeepsIff(env, es, h, j2, p);
    ChainGrows(env, Increment, es, h, j1 + 1, j2);
    NamesGrow(h[j1 + 1].db, h[j2].db, NamespaceOf(k));
    forall i | 0 <= i < j1 ensures !Renamed(h[p].rows[i], k, name) {
      assert h[p].rows[i].Kind() == es[i].Kind() && h[p].rows[i].Name() == es[i].Name();
    }
  }

  /** What a reference to a duplicate name is rewritten to once both entries are done: the first entry's final
      name if and only if the store held the name before the install. If it did not, the first entry keeps the
      name and a later one's rename captures the reference. */
  lemma DuplicateMeans(env: Env, es: seq<Entry>, h: seq<State>, k: Kind, name: string, j1: nat, j2: nat, p: nat) returns (j: nat)
    requires Chain(env, Increment, es, h) && p < |h| && |h[p].rows| == p
    requires Duplicates(es, h[p].rows, k, name, j1, j2)
    ensures var rows := h[p].rows;
            var meant := LookupRename(Renames(rows, k), name);
            && (meant == rows[j1].item.final <==> name in h[0].db.Names(NamespaceOf(k)))
            && (name !in h[0].db.Names(NamespaceOf(k)) ==>
                  && j1 < j <= j2 && Renamed(rows[j], k, name) && meant == rows[j].item.final
                  && (NoneBetween(es, name, j1, j2) ==> j == j2))
  {
    hide Chain, Step, Renames, LookupRename, Db.Names, Duplicates;
    DuplicateRows(env, es, h, k, name, j1, j2, p);
    ChainNames(env, Increment, es, h, p);
    DuplicateIndexes(es, h[p].rows, k, name, j1, j2);
    j := RowsMean(h[p].rows, k, name, j1, j2);
    if j1 < j < j2 && NoneBetween(es, name, j1, j2) {
      assert h[p].rows[j].Name() == es[j].Name();
    }
  }

  lemma DuplicateIndexes(es: seq<Entry>, rows: seq<Row>, k: Kind, name: string, j1: nat, j2: nat)
    requires Duplicates(es, rows, k, name, j1, j2)
    ensures j1 < j2 < |rows| <= |es|
  {}

  // ---- Specs: what an installed projection refers to ----

  /** Duplicate spec names. A projection that refers to a name several specs of its bundle ask for ends with a
      reference to the first of them if and only if the store held the name before the install; otherwise the
      reference is captured by the next one, and the projection is applied to that one's body. */
  lemma DuplicateSpecsIff(env: Env, m: Manifest, db: Db, i: nat, j1: nat, j2: nat)
    requires !RunOf(env, Increment, m, db).Failed? && i < |m.projections| && j1 < j2 < |m.specs|
    requires var rows := Final(env, Increment, m, db).rows;
             && |m.specs| + i < |rows| <= |m.Entries()| && rows[|m.specs| + i].Installed?
             && Duplicates(m.Entries(), rows, KSpec, m.projections[i].specRef, j1, j2)
    ensures var s := Final(env, Increment, m, db);
            var name, first, second := m.projections[i].specRef, s.rows[j1].item, s.rows[j2].item;
            var projection := s.rows[|m.specs| + i].item;
            && projection.final in s.db.projections
            && (s.db.projections[projection.final].specRef == first.final <==> name in db.specs)
            && (name !in db.specs && NoneBetween(m.Entries(), name, j1, j2) ==>
                  && s.db.projections[projection.final].specRef == second.final
                  && second.final in s.db.specs && Ok(s.db.specs[second.final].body) == m.specs[j2].body)
  {
    hide Run, Step, Renames, LookupRename, Chain, NotSuffixed, NoneBetween, Manifest.Entries;
    var es, p := m.Entries(), |m.specs| + i;
    EntryPositions(m);
    assert es[p] == m.projections[i];
    var h := RunChain(env, Increment, es, Start(db));
    SpecRowStays(env, Increment, es, h, j2);
    ProjectionRowStays(env, Increment, es, h, p);
    ChainGrows(env, Increment, es, h, p, |h| - 1);
    var j := DuplicateMeans(env, es, h, KSpec, m.projections[i].specRef, j1, j2, p);
  }

  // ---- Nodes: what an installed edge joins ----

  /** Node rows inserted by different entries have different ids. */
  lemma InsertedApart(env: Env, es: seq<Entry>, h: seq<State>, i: nat, j: nat, k: nat)
    requires Chain(env, Increment, es, h) && i < j < k < |h| && |h[k].rows| == k
    requires h[k].rows[i].Installed? && h[k].rows[j].Installed? && es[i].NodeEntry? && es[j].NodeEntry?
    ensures h[k].rows[i].item.ref != h[k].rows[j].item.ref
  {
    hide Chain, Step, Matches, Declares;
    ChainGrows(env, Increment, es, h, j, k);
    var a := InsertedNodeStays(env, Increment, es, h, i, j);
    var b := InsertedNodeStays(env, Increment, es, h, j, k);
    MatchesStored(h[j].db.nodes, h[k].rows[i].item.final);
    assert a in Matches(h[j].db.nodes, h[k].rows[i].item.final);
  }

  /** One end of an edge that refers to a duplicate node name, seen from the edge's step. */
  lemma DuplicateEnd(env: Env, m: Manifest, h: seq<State>, name: string, j1: nat, j2: nat, p: nat)
    requires Chain(env, Increment, m.Entries(), h) && p < |h| && |h[p].rows| == p
    requires Duplicates(m.Entries(), h[p].rows, KNode, name, j1, j2)
    ensures var rows := h[p].rows;
            var ends := Matches(h[p].db.nodes, LookupRename(Renames(rows, KNode), name));
            && |ends| == 1
            && (UlidRef(ends[0].id) == rows[j1].item.ref <==> name in h[0].db.Names(Nodes))
            && (name !in h[0].db.Names(Nodes) && NoneBetween(m.Entries(), name, j1, j2) ==> UlidRef(ends[0].id) == rows[j2].item.ref)
  {
    hide Chain, Step, Renames, LookupRename, Matches, NotSuffixed, NoneBetween, Db.Names, Declares, NodeIdTaken, NoneBefore, Manifest.Entries;
    var es, rows := m.Entries(), h[p].rows;
    var j := DuplicateMeans(env, es, h, KNode, name, j1, j2, p);
    ChainNames(env, Increment, es, h, p);
    var meant := LookupRename(Renames(rows, KNode), name);
    if name in h[0].db.Names(Nodes) {
      var node := InsertedNodeStays(env, Increment, es, h, j1, p);
    } else {
      assert es[j].NodeEntry? by {
        assert rows[j].Kind() == es[j].Kind();
      }
      var node := InsertedNodeStays(env, Increment, es, h, j, p);
      InsertedApart(env, es, h, j1, j, p);
    }
  }

  /** Duplicate node names. The end of an installed edge that refers to a name several nodes of its bundle ask
      for is the row of the first of them if and only if the store held a node of the name before the install;
      otherwise it is the row of the next one. */
  lemma DuplicateNodesIff(env: Env, m: Manifest, db: Db, i: nat, name: string, j1: nat, j2: nat) returns (edge: Edge)
    requires !RunOf(env, Increment, m, db).Failed? && i < |m.edges|
    requires var rows, e := Final(env, Increment, m, db).rows, |m.specs| + |m.projections| + |m.nodes| + i;
             && e < |rows| <= |m.Entries()| && rows[e].Installed? && j2 < |m.specs| + |m.projections| + |m.nodes|
             && Duplicates(m.Entries(), rows, KNode, name, j1, j2)
    ensures var s, e := Final(env, Increment, m, db), |m.specs| + |m.projections| + |m.nodes| + i;
            var first, second, held := s.rows[j1].item.ref, s.rows[j2].item.ref, name in NodeNames(db.nodes);
            && edge in s.db.edges && UlidRef(edge.id) == s.rows[e].item.ref && !EdgeIdTaken(db, edge.id)
            && (m.edges[i].fromName == name ==>
                  && (UlidRef(edge.src) == first <==> held)
                  && (!held && NoneBetween(m.Entries(), name, j1, j2) ==> UlidRef(edge.src) == second))
            && (m.edges[i].toName == name ==>
                  && (UlidRef(edge.tgt) == first <==> held)
                  && (!held && NoneBetween(m.Entries(), name, j1, j2) ==> UlidRef(edge.tgt) == second))
  {
    hide Run, Step, Renames, LookupRename, Chain, Matches, NotSuffixed, NoneBetween, NoneBefore, NodeNames, Manifest.Entries;
    var es, e := m.Entries(), |m.specs| + |m.projections| + |m.nodes| + i;
    EntryPositions(m);
    assert es[e] == m.edges[i];
    var h := RunChain(env, Increment, es, Start(db));
    EdgeRows(env, Increment, es, h, e);
    var renames := Renames(h[e].rows, KNode);
    var src, tgt := LookupRename(renames, m.edges[i].fromName), LookupRename(renames, m.edges[i].toName);
    edge := Edge(h[|h| - 1].rows[e].item.ref.id, Matches(h[e].db.nodes, src)[0].id, Matches(h[e].db.nodes, tgt)[0].id,
                 m.edges[i].edgeType, OrObject(m.edges[i].metadata));
    assert Duplicates(es, h[e].rows, KNode, name, j1, j2);
    DuplicateEnd(env, m, h, name, j1, j2, e);
  }
}
