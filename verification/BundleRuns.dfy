/** Repeated installs in increment mode: how names get numbered. */
module BundleRuns {
  import opened Wrappers
  import opened Entities
  import opened Storage
  import opened Names
  import opened BundleSteps
  import opened BundleFacts
  import opened BundleTheorems
  import opened BundleReferences

  // ---- Increment: the k-th install numbers every entry k - 1 ----

  predicate SameNamespace(a: Entry, b: Entry) {
    !a.EdgeEntry? && !b.EdgeEntry? && NamespaceOf(a.Kind()) == NamespaceOf(b.Kind())
  }

  /** Names are distinct in each namespace, and none is another one plus a numeric suffix. */
  ghost predicate CleanNames(es: seq<Entry>) {
    forall i, j :: 0 <= i < |es| && 0 <= j < |es| && i != j && SameNamespace(es[i], es[j]) ==>
                     forall n: nat :: es[i].Name() != Candidate(es[j].Name(), n)
  }

  /** The store holds exactly the first `k` candidates of a name. */
  ghost predicate Holds(names: set<string>, name: string, k: nat) {
    forall n: nat :: Candidate(name, n) in names <==> n < k
  }

  /** Entries before `j` have `k + 1` candidates stored, the others `k`. */
  ghost predicate Numbered(db: Db, es: seq<Entry>, j: nat, k: nat) {
    forall i :: 0 <= i < |es| && !es[i].EdgeEntry? ==>
                  Holds(db.Names(NamespaceOf(es[i].Kind())), es[i].Name(), if i < j then k + 1 else k)
  }

  lemma CandidatesApart(es: seq<Entry>, i: nat, j: nat, a: nat, b: nat)
    requires CleanNames(es) && i < |es| && j < |es| && i != j && SameNamespace(es[i], es[j])
    ensures Candidate(es[i].Name(), a) != Candidate(es[j].Name(), b)
  {
    var x, y := es[i].Name(), es[j].Name();
    assert x != Candidate(y, b) && x != Candidate(y, 0) && y != Candidate(x, a) && y != Candidate(x, 0);
    if a > 0 && b > 0 && Candidate(x, a) == Candidate(y, b) {
      SuffixUnique(x, a, y, b);
    }
  }

  lemma FirstFreeIsNext(names: set<string>, name: string, k: nat, final: string)
    requires Holds(names, name, k) && FirstFree(names, name, final)
    ensures final == Candidate(name, k)
  {
    var n: nat :| final == Candidate(name, n) && final !in names && forall i: nat :: i < n ==> Candidate(name, i) in names;
    assert Candidate(name, k) !in names;
  }

  lemma StepNumbers(env: Env, es: seq<Entry>, j: nat, k: nat, s: State, t: State)
    requires CleanNames(es) && j < |es| && Numbered(s.db, es, j, k)
    requires Stepped(env, Increment, es[j], s, t) && t.rows[|s.rows|].Installed?
    ensures Numbered(t.db, es, j + 1, k)
    ensures !es[j].EdgeEntry? ==> t.rows[|s.rows|].item.final == Candidate(es[j].Name(), k)
  {
    hide Step, Matches, Candidate, Declares, FirstFree;
    var e, item := es[j], t.rows[|s.rows|].item;
    if e.EdgeEntry? {
      forall i | 0 <= i < |es| && !es[i].EdgeEntry?
        ensures Holds(t.db.Names(NamespaceOf(es[i].Kind())), es[i].Name(), if i < j + 1 then k + 1 else k)
      {
        assert t.db.Names(NamespaceOf(es[i].Kind())) == s.db.Names(NamespaceOf(es[i].Kind()));
      }
    } else {
      var ns := NamespaceOf(e.Kind());
      FirstFreeIsNext(s.db.Names(ns), e.Name(), k, item.final);
      FirstFreeIsFree(s.db.Names(ns), e.Name(), item.final);
      WroteGrows(env, e, Renames(s.rows, KSpec), item.final, item.ref, s.db, t.db);
      forall i | 0 <= i < |es| && !es[i].EdgeEntry?
        ensures Holds(t.db.Names(NamespaceOf(es[i].Kind())), es[i].Name(), if i < j + 1 then k + 1 else k)
      {
        HoldsAfter(es, i, j, k, s.db.Names(NamespaceOf(es[i].Kind())), t.db.Names(NamespaceOf(es[i].Kind())));
      }
    }
  }

  lemma HoldsAfter(es: seq<Entry>, i: nat, j: nat, k: nat, names: set<string>, names': set<string>)
    requires CleanNames(es) && i < |es| && j < |es| && !es[i].EdgeEntry? && !es[j].EdgeEntry?
    requires Holds(names, es[i].Name(), if i < j then k + 1 else k)
    requires names' == if SameNamespace(es[i], es[j]) then names + {Candidate(es[j].Name(), k)} else names
    ensures Holds(names', es[i].Name(), if i < j + 1 then k + 1 else k)
  {
    hide Candidate;
    var x := es[i].Name();
    forall n: nat ensures Candidate(x, n) in names' <==> n < if i < j + 1 then k + 1 else k {
      if i == j {
        if n != k && Candidate(x, n) == Candidate(x, k) {
          CandidateInjective(x, n, k);
        }
      } else if SameNamespace(es[i], es[j]) {
        CandidatesApart(es, i, j, n, k);
      }
    }
  }

  ghost predicate AllInstalled(rows: seq<Row>) {
    forall i :: 0 <= i < |rows| ==> rows[i].Installed?
  }

  ghost predicate FinalsNumbered(es: seq<Entry>, rows: seq<Row>, k: nat)
    requires AllInstalled(rows) && |rows| <= |es|
  {
    forall i :: 0 <= i < |rows| && !es[i].EdgeEntry? ==> rows[i].item.final == Candidate(es[i].Name(), k)
  }

  lemma FinalsSnoc(es: seq<Entry>, rows: seq<Row>, row: Row, k: nat)
    requires AllInstalled(rows) && |rows| < |es| && FinalsNumbered(es, rows, k)
    requires row.Installed? && (!es[|rows|].EdgeEntry? ==> row.item.final == Candidate(es[|rows|].Name(), k))
    ensures AllInstalled(rows + [row]) && FinalsNumbered(es, rows + [row], k)
  {
    hide Candidate, Entry.Name;
  }

  lemma {:induction false} ChainNumbers(env: Env, es: seq<Entry>, h: seq<State>, j: nat, k: nat)
    requires Chain(env, Increment, es, h) && j < |h| && CleanNames(es) && Numbered(h[0].db, es, 0, k)
    requires AllInstalled(h[j].rows)
    ensures Numbered(h[j].db, es, j, k)
    ensures |h[j].rows| == j && FinalsNumbered(es, h[j].rows, k)
  {
    hide Step, Chain, Grows, CleanNames, Numbered, Candidate, RowFacts, Entry.Name;
    if j > 0 {
      ChainStep(env, Increment, es, h, j - 1, j);
      assert AllInstalled(h[j - 1].rows) by {
        assert forall i :: 0 <= i < j - 1 ==> h[j - 1].rows[i] == h[j].rows[i];
      }
      ChainNumbers(env, es, h, j - 1, k);
      StepNumbers(env, es, j - 1, k, h[j - 1], h[j]);
      assert h[j].rows == h[j - 1].rows + [h[j].rows[j - 1]];
      FinalsSnoc(es, h[j - 1].rows, h[j].rows[j - 1], k);
    } else {
      ChainGrows(env, Increment, es, h, 0, 0);
    }
  }

  lemma {:induction false} CleanReportIsAllInstalled(rows: seq<Row>)
    requires ErrorRows(rows) == [] && SkippedRows(rows) == []
    ensures |InstalledRows(rows)| == |rows|
    ensures AllInstalled(rows) && forall i :: 0 <= i < |rows| ==> InstalledRows(rows)[i] == rows[i].item
  {
    hide InstalledRows, SkippedRows, ErrorRows;
    if rows == [] {
      NothingReported();
    } else {
      var init := rows[..|rows| - 1];
      assert rows == init + [rows[|rows| - 1]];
      InstalledSnoc(init, rows[|rows| - 1]);
      CleanReportIsAllInstalled(init);
    }
  }

  lemma {:induction false} NothingSkipped(rows: seq<Row>)
    requires forall i :: 0 <= i < |rows| ==> !rows[i].Skipped?
    ensures SkippedRows(rows) == []
  {
    if rows != [] {
      NothingSkipped(rows[..|rows| - 1]);
    }
  }

  ghost predicate ErrorFree(r: Result<Report, WireError>) {
    r.Ok? && r.value.errors == []
  }

  /** One error-free install in increment mode, from a store holding the first `k` candidates of every name. */
  lemma InstallNumbers(env: Env, m: Manifest, bundleId: Ulid, db: Db, k: nat)
    requires CleanNames(m.Entries()) && Numbered(db, m.Entries(), 0, k)
    requires ErrorFree(Install(env, Increment, m, bundleId, db).0)
    ensures Numbered(Install(env, Increment, m, bundleId, db).1, m.Entries(), 0, k + 1)
    ensures var installed, es := Install(env, Increment, m, bundleId, db).0.value.installed, m.Entries();
            && |installed| == |es|
            && forall i :: 0 <= i < |es| && !es[i].EdgeEntry? ==>
                             installed[i].original == es[i].Name() && installed[i].final == Candidate(es[i].Name(), k)
  {
    hide Run, Step, CleanNames, Holds, Manifest.Entries;
    var es := m.Entries();
    ReportAccountsForEveryEntry(env, Increment, m, bundleId, db);
    var run := RunOf(env, Increment, m, db);
    assert run.Completed?;
    NothingSkipped(run.s.rows);
    CleanReportIsAllInstalled(run.s.rows);
    var h := RunChain(env, Increment, es, Start(db));
    ChainNumbers(env, es, h, |es|, k);
  }

  /** The store after `k` installs of the same bundle. */
  ghost function After(env: Env, m: Manifest, bundleId: Ulid, db: Db, k: nat): Db {
    if k == 0 then db else Install(env, Increment, m, bundleId, After(env, m, bundleId, db, k - 1)).1
  }

  lemma {:induction false} InstallsNumber(env: Env, m: Manifest, bundleId: Ulid, db: Db, k: nat)
    requires CleanNames(m.Entries()) && Numbered(db, m.Entries(), 0, 0)
    requires forall i: nat :: i < k ==> ErrorFree(Install(env, Increment, m, bundleId, After(env, m, bundleId, db, i)).0)
    ensures Numbered(After(env, m, bundleId, db, k), m.Entries(), 0, k)
  {
    hide Install, CleanNames, Numbered, Manifest.Entries;
    if k > 0 {
      InstallsNumber(env, m, bundleId, db, k - 1);
      InstallNumbers(env, m, bundleId, After(env, m, bundleId, db, k - 1), k - 1);
    }
  }

  /** Whole-run naming. From a store holding neither `x` nor any `x-n` for the names `x` of a bundle whose
      names are clean, the install number `k` (counting from 0) names every entry `x`, or `x-k` when `k > 0`. */
  lemma NthInstallNames(env: Env, m: Manifest, bundleId: Ulid, db: Db, k: nat)
    requires CleanNames(m.Entries())
    requires forall i, n: nat :: 0 <= i < |m.Entries()| && !m.Entries()[i].EdgeEntry? ==>
               Candidate(m.Entries()[i].Name(), n) !in db.Names(NamespaceOf(m.Entries()[i].Kind()))
    requires forall i: nat :: i < k ==> ErrorFree(Install(env, Increment, m, bundleId, After(env, m, bundleId, db, i)).0)
    requires ErrorFree(Install(env, Increment, m, bundleId, After(env, m, bundleId, db, k)).0)
    ensures var installed, es := Install(env, Increment, m, bundleId, After(env, m, bundleId, db, k)).0.value.installed, m.Entries();
            && |installed| == |es|
            && forall i :: 0 <= i < |es| && !es[i].EdgeEntry? ==>
                 && installed[i].original == es[i].Name()
                 && installed[i].final == if k == 0 then es[i].Name() else es[i].Name() + "-" + Decimal(k)
  {
    hide Install, CleanNames, Manifest.Entries;
    InstallsNumber(env, m, bundleId, db, k);
    InstallNumbers(env, m, bundleId, After(env, m, bundleId, db, k), k);
  }
}
