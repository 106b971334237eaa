/** When an install returns a report, and which of its rows are errors. */
module BundleReturns {
  import opened Wrappers
  import opened Entities
  import opened Storage
  import opened Names
  import opened Chars
  import opened WorkflowMapper
  import opened BundleSteps
  import opened BundleFacts
  import opened BundleTheorems
  import opened BundleAborts

  /** No node name is stored twice. */
  ghost predicate NamesUnique(db: Db) {
    forall n :: |Matches(db.nodes, n)| <= 1
  }

  ghost predicate NoFaults(env: Env) {
    forall t: nat :: !env.fault(t)
  }

  lemma ProbeAnswers(env: Env, db: Db, ns: Namespace, name: string)
    requires NoFaults(env) && NamesUnique(db)
    ensures Exists(env, db, ns, name).0.Ok?
  {
    hide Matches;
  }

  lemma {:induction false} SearchAnswers(env: Env, db: Db, ns: Namespace, desired: string, n: nat)
    requires NoFaults(env) && NamesUnique(db)
    requires forall i: nat :: i < n ==> Candidate(desired, i) in db.Names(ns)
    ensures Search(env, db, ns, desired, n).0.Ok?
    decreases |db.Names(ns)| + 1 - n
  {
    CandidatesRunOut(db.Names(ns), desired, n);
    ProbeReadsNames(env, db, ns, Candidate(desired, n));
    ProbeAnswers(env, db, ns, Candidate(desired, n));
    var (r, d) := Exists(env, db, ns, Candidate(desired, n));
    if r == Ok(true) {
      hide Candidate, Db.Names, Matches;
      SearchAnswers(env, d, ns, desired, n + 1);
    }
  }

  lemma ResolveAnswers(env: Env, db: Db, ns: Namespace, desired: string, mode: ConflictMode)
    requires NoFaults(env) && NamesUnique(db)
    ensures Resolve(env, db, ns, desired, mode).0.Ok?
  {
    hide Matches, NodeNames;
    ProbeReadsNames(env, db, ns, desired);
    ProbeAnswers(env, db, ns, desired);
    var (r, d) := Exists(env, db, ns, desired);
    if r.value && mode == Increment {
      assert forall i: nat :: i < 1 ==> Candidate(desired, i) == desired;
      SearchAnswers(env, d, ns, desired, 1);
    }
  }

  lemma StepAnswers(env: Env, mode: ConflictMode, e: Entry, s: State)
    requires NoFaults(env) && NamesUnique(s.db)
    ensures !Step(env, mode, e, s).Fail?
  {
    hide Resolve, Write, StepEdge, NamesUnique;
    ResolveAnswers(env, s.db, NamespaceOf(e.Kind()), e.Name(), mode);
  }

  lemma StepKeepsUnique(env: Env, mode: ConflictMode, e: Entry, s: State, t: State)
    requires NamesUnique(s.db) && Stepped(env, mode, e, s, t)
    ensures NamesUnique(t.db)
  {
    hide Matches, FirstFree, Declares, Grows, LookupRename, Renames, NodeNames, OrObject;
    var row := t.rows[|s.rows|];
    if row.Installed? && TableOf(e.Kind()) == NodeTable {
      FirstFreeIsFree(s.db.Names(Nodes), e.Name(), row.item.final);
      NodeAppended(s.db.nodes, t.db.nodes[|s.db.nodes|]);
    }
  }

  lemma {:induction false} RunAnswers(env: Env, mode: ConflictMode, es: seq<Entry>, s: State)
    requires NoFaults(env) && NamesUnique(s.db)
    ensures !Run(env, mode, es, s).Failed? && NamesUnique(Run(env, mode, es, s).s.db)
    ensures Run(env, mode, es, s).s.db.log == s.db.log && Run(env, mode, es, s).s.db.bundles == s.db.bundles
  {
    hide Step, NamesUnique, RowFacts;
    if es != [] {
      StepAnswers(env, mode, es[0], s);
      StepFacts(env, mode, es[0], s);
      match Step(env, mode, es[0], s) {
        case Next(t) =>
          StepKeepsUnique(env, mode, es[0], s, t);
          RunAnswers(env, mode, es[1..], t);
        case Abort(t) =>
          SameNamesUnique(s.db, t.db);
      }
    }
  }

  lemma SameNamesUnique(a: Db, b: Db)
    requires NamesUnique(a) && a.nodes == b.nodes
    ensures NamesUnique(b)
  {}

  /** On a store without duplicate node names, and as long as no storage call fails, an install of any bundle in any
      mode returns a report, and leaves a store without duplicate node names. */
  lemma InstallReturns(env: Env, mode: ConflictMode, m: Manifest, bundleId: Ulid, db: Db)
    requires NoFaults(env) && NamesUnique(db) && bundleId in db.bundles && !InstallIdTaken(db, env.mint(db.tick))
    ensures Install(env, mode, m, bundleId, db).0.Ok? && NamesUnique(Install(env, mode, m, bundleId, db).1)
  {
    hide Run, Step, Manifest.Entries, Matches;
    SameNamesUnique(db, Start(db).db);
    RunAnswers(env, mode, m.Entries(), Start(db));
    SameNamesUnique(RunOf(env, mode, m, db).s.db, Install(env, mode, m, bundleId, db).1);
  }

  // ---- Which rows are errors ----

  /** Why an edge cannot be stored. */
  predicate EdgeRejected(e: EdgeDecl, s: State) {
    || |Matches(s.db.nodes, LookupRename(Renames(s.rows, KNode), e.fromName))| != 1
    || |Matches(s.db.nodes, LookupRename(Renames(s.rows, KNode), e.toName))| != 1
    || e.edgeType !in s.db.types
  }

  /** What becomes of an entry when no storage call fails, in every mode: it stops the run or is skipped exactly if
      its mode says so and its name is taken, ends in an error row exactly if it is malformed, an edge that cannot
      be stored or a named entry that cannot be stored under its first free name, and is installed otherwise. */
  ghost predicate Outcome(env: Env, mode: ConflictMode, e: Entry, s: State, r: StepResult) {
    var taken := !e.EdgeEntry? && Precheck(e) == None && e.Name() in s.db.Names(NamespaceOf(e.Kind()));
    && (r.Abort? <==> mode == Error && taken)
    && (r.Next? <==> !r.Abort?)
    && (r.Next? ==>
          && |r.s.rows| == |s.rows| + 1
          && var row := r.s.rows[|s.rows|];
          && (row.Skipped? <==> mode == Skip && taken)
          && (!row.Skipped? ==>
                && (row.Errored? <==> !row.Installed?)
                && (Precheck(e).Some? ==> row.Errored?)
                && (Precheck(e) == None && e.EdgeEntry? ==> (row.Errored? <==> EdgeRejected(e, s)))
                && (Precheck(e) == None && !e.EdgeEntry? ==>
                      forall final :: FirstFree(s.db.Names(NamespaceOf(e.Kind())), e.Name(), final) ==>
                        (row.Errored? <==> Unstorable(env, s.db, e, final, Renames(s.rows, KSpec))))))
  }

  lemma FirstFreeUnique(names: set<string>, desired: string, a: string, b: string)
    requires FirstFree(names, desired, a) && FirstFree(names, desired, b)
    ensures a == b
  {}

  lemma NamedOutcome(env: Env, mode: ConflictMode, e: Entry, s: State)
    requires Calm(env, s.db) && NamesUnique(s.db) && Precheck(e) == None && !e.EdgeEntry?
    ensures Outcome(env, mode, e, s, StepNamed(env, mode, e, s))
  {
    var ns := NamespaceOf(e.Kind());
    hide Resolve, Write, Unstorable, Renames, Candidate, Matches, NodeNames, FirstFree, Calm, NamesUnique, NoFaults;
    NoFaultsOf(env, s.db);
    ResolveAnswers(env, s.db, ns, e.Name(), mode);
    ResolveFacts(env, s.db, ns, e.Name(), mode);
    ResolveTicks(env, s.db, ns, e.Name(), mode);
    var (r, d) := Resolve(env, s.db, ns, e.Name(), mode);
    if r.value.Use? {
      FirstFreeIsFree(s.db.Names(ns), e.Name(), r.value.name);
      WriteRejectedIff(env, s.db, d, e, r.value.name, Renames(s.rows, KSpec));
      forall final | FirstFree(s.db.Names(ns), e.Name(), final) ensures final == r.value.name {
        FirstFreeUnique(s.db.Names(ns), e.Name(), final, r.value.name);
      }
    }
  }

  lemma NoFaultsOf(env: Env, db: Db)
    requires Calm(env, db)
    ensures NoFaults(env)
  {}

  lemma EdgeOutcome(env: Env, mode: ConflictMode, e: EdgeDecl, s: State)
    requires Calm(env, s.db)
    ensures Outcome(env, mode, e, s, StepResult.Next(StepEdge(env, e, s)))
  {
    MatchesStored(s.db.nodes, LookupRename(Renames(s.rows, KNode), e.fromName));
    MatchesStored(s.db.nodes, LookupRename(Renames(s.rows, KNode), e.toName));
    hide Renames, LookupRename, Matches, OrObject;
  }

  lemma StepOutcome(env: Env, mode: ConflictMode, e: Entry, s: State)
    requires Calm(env, s.db) && NamesUnique(s.db)
    ensures Outcome(env, mode, e, s, Step(env, mode, e, s))
  {
    hide StepNamed, StepEdge, Unstorable, EdgeRejected, FirstFree, Renames;
    if Precheck(e) == None {
      hide Outcome;
      if e.EdgeEntry? {
        EdgeOutcome(env, mode, e, s);
      } else {
        NamedOutcome(env, mode, e, s);
      }
    }
  }

  /** How a name that is not one row's is reported. */
  function EndError(db: Db, name: string): WireError {
    if Matches(db.nodes, name) == [] then NotFound(name) else AmbiguousName(name, |Matches(db.nodes, name)|)
  }

  /** A rejected edge reports its first end that is missing or ambiguous, under its rewritten name, and anything
      else as a storage error. */
  lemma EdgeError(env: Env, e: EdgeDecl, s: State)
    requires Calm(env, s.db) && EdgeRejected(e, s)
    ensures var src, tgt := LookupRename(Renames(s.rows, KNode), e.fromName), LookupRename(Renames(s.rows, KNode), e.toName);
            StepEdge(env, e, s).rows == s.rows + [Errored(ErrorItem(KEdge, e.fromName + "->" + e.toName, Rejected(
              if |Matches(s.db.nodes, src)| != 1 then EndError(s.db, src)
              else if |Matches(s.db.nodes, tgt)| != 1 then EndError(s.db, tgt)
              else StorageError)))]
  {
    hide Renames, LookupRename, Matches, OrObject;
  }

  /** A projection that cannot be built reports its target form first, in lower case, and then its first empty part. */
  lemma ProjectionError(env: Env, db: Db, e: Projection, final: string, renames: seq<(string, string)>)
    requires Unstorable(env, db, e, final, renames)
    ensures var form := LowerAscii(e.targetForm);
            Write(env, db, e, final, renames) ==
            (Err(if form !in {"prompt", "markdown", "json", "ascii"} then InvalidTargetForm(form)
                 else InvalidProjection(if final == "" then "name"
                                        else if LookupRename(renames, e.specRef) == "" then "spec_ref" else "template")), db)
  {
    hide LookupRename, LowerAscii;
  }

  // ---- Calm lasts ----

  /** Every call mints another id, and ids derived from names are never minted. */
  ghost predicate IdsApart(env: Env) {
    && (forall t: nat, u: nat :: t != u ==> env.mint(t) != env.mint(u))
    && (forall t: nat, name: string :: env.seed(name) != env.mint(t))
  }

  lemma WriteKeepsCalm(env: Env, d: Db, e: Entry, final: string, renames: seq<(string, string)>)
    requires Calm(env, d) && IdsApart(env) && Precheck(e) == None && !e.EdgeEntry?
    requires final !in d.Names(NamespaceOf(e.Kind()))
    ensures Calm(env, Write(env, d, e, final, renames).1)
  {
    hide OrObject, WiringMetadata, WorkflowOf, LookupRename, LowerAscii, NormalizeMetadata;
    var d' := Write(env, d, e, final, renames).1;
    WriteTicks(env, d, e, final, renames);
    forall t: nat | t >= d'.tick ensures Fresh(d', env.mint(t)) {
      assert Fresh(d, env.mint(t)) && (t > d.tick ==> env.mint(t) != env.mint(d.tick));
    }
  }

  lemma StepKeepsCalm(env: Env, mode: ConflictMode, e: Entry, s: State)
    requires Calm(env, s.db) && IdsApart(env)
    ensures Calm(env, DbOf(Step(env, mode, e, s)))
  {
    hide Resolve, Write, Renames, LookupRename, Matches, OrObject, NodeNames;
    if Precheck(e) == None {
      if e.EdgeEntry? {
        EdgeKeepsCalm(env, e, s);
      } else {
        ResolveTicks(env, s.db, NamespaceOf(e.Kind()), e.Name(), mode);
        ResolveFacts(env, s.db, NamespaceOf(e.Kind()), e.Name(), mode);
        var (r, d) := Resolve(env, s.db, NamespaceOf(e.Kind()), e.Name(), mode);
        LaterCalm(env, s.db, d);
        if r.Ok? && r.value.Use? {
          FirstFreeIsFree(s.db.Names(NamespaceOf(e.Kind())), e.Name(), r.value.name);
          WriteKeepsCalm(env, d, e, r.value.name, Renames(s.rows, KSpec));
        }
      }
    }
  }

  lemma LaterCalm(env: Env, a: Db, b: Db)
    requires Calm(env, a) && a.SameRows(b) && b.tick >= a.tick
    ensures Calm(env, b)
  {}

  lemma EdgeKeepsCalm(env: Env, e: EdgeDecl, s: State)
    requires Calm(env, s.db) && IdsApart(env)
    ensures Calm(env, StepEdge(env, e, s).db)
  {
    hide Renames, LookupRename, Matches, OrObject;
    var d := Endpoints(env, s.db, LookupRename(Renames(s.rows, KNode), e.fromName), LookupRename(Renames(s.rows, KNode), e.toName)).1;
    assert forall t: nat :: t > d.tick ==> env.mint(t) != env.mint(d.tick);
  }

  /** Every dispatch of a run has the outcome its entry and the store at that point call for, when no storage call
      fails, minted ids are new, and no node name is stored twice at the start. */
  lemma {:induction false} ChainOutcomes(env: Env, mode: ConflictMode, es: seq<Entry>, h: seq<State>, j: nat)
    requires Chain(env, mode, es, h) && j < |h|
    requires Calm(env, h[0].db) && NamesUnique(h[0].db) && IdsApart(env)
    ensures Calm(env, h[j].db) && NamesUnique(h[j].db)
    ensures j < |es| ==> Outcome(env, mode, es[j], h[j], Step(env, mode, es[j], h[j]))
  {
    hide Step, Calm, NamesUnique, IdsApart, Outcome, RowFacts, Stepped;
    if j > 0 {
      ChainOutcomes(env, mode, es, h, j - 1);
      StepKeepsCalm(env, mode, es[j - 1], h[j - 1]);
      StepFacts(env, mode, es[j - 1], h[j - 1]);
      StepKeepsUnique(env, mode, es[j - 1], h[j - 1], h[j]);
    }
    if j < |es| {
      StepOutcome(env, mode, es[j], h[j]);
    }
  }
}
