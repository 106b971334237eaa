# A verified model of persona-wire's bundle installer, scanners and fetch loops

persona-wire keeps specs, projections, nodes and edges in one SQLite store and fetches the contents of
persona slots through adapters. This project models five of its components in Dafny and proves what they
promise. `dafny verify dfyconfig.toml` checks all of it.

| modules | component |
|---|---|
| `Names`, `Entities`, `Storage`, `BundleSteps`, `BundleFacts`, `BundleTheorems`, `BundleReferences`, `BundleDuplicates`, `BundleCapture`, `BundleRuns`, `BundleAborts`, `BundleSkip`, `BundleKeys`, `BundleReturns`, `BundleExamples`, `BundleInstall` | the bundle installer over the store |
| `Utf8`, `WikiLinks`, `WikiScanner`, `WikiRoundTrip`, `Frontmatter` | wiki-link extraction and the front matter split of Obsidian notes |
| `Base64` | the encoder of blob columns |
| `Pagination`, `PaginationTheorems`, `PaginationLoop`, `PaginationUpstream`, `LinkHeader`, `LinkHeaderLimits` | the paginated fetch loops and the `Link` header parser |
| `Merger`, `WorkflowMapper`, `WiringMapper`, `Json` | template overlays, and workflows and wirings stored as nodes |
| `Wrappers`, `Text`, `Chars` | shared: options and results, first-occurrence search, white space and ASCII case |

**The installer.** `BundleSteps` says what dispatching one manifest entry does to the tables and the report,
and a run is that step folded over all entries in section order. `BundleInstall` is the installer as the
program has it: section loops over a mutable `SqliteStorage`, pushing report rows and renames; each method is
proved to do what the fold says. The theorems are about the fold. Every storage call draws on an environment:
a schedule of calls that fail, the ULIDs that get minted, the ids derived from names, and how a string parses
as JSON. The theorems hold for every environment, so for every way calls can fail, unless they say otherwise.

**The scanner** works on bytes with UTF-8 spelled out. A line has a reading as tokens, the loops are proved
to compute its links, and a printer for lines and documents is proved to be inverted by it.

**The fetch loops** run against any function from cursors to replies. A feed is the row of pages such an
upstream serves; what a fetch returns is specified on the whole feed.

## What the proofs turned up

Each is stated as an exact condition in the table below, most with a concrete failing input.

Where the program does less than its comments say:

- Error mode is documented to write nothing when it stops (bundle_install.rs:32); entries in front of the
  collision stay, as bundle_install.rs:36-39 says (`BundleAborts.AbortWritesNothingIff`).
- References inside a bundle are documented to be rewritten to the final name (bundle_install.rs:27-29); a
  wiring's `projection_ref` is stored as written (bundle_install.rs:416-421, `BundleCapture.WiringReferenceIff`),
  and among entries of one name a later one captures the references unless the store held the name before
  (`BundleDuplicates.DuplicateSpecsIff`, `BundleDuplicates.DuplicateNodesIff`).
- `has_more` is documented to be truthful; it claims more when the items end exactly at the limit and an empty
  page follows, which the pull-request filter can cause (`PaginationTheorems.HasMoreTruthfulIff`).
- The `Link` parser is documented to find the entry with `rel="next"`; commas and semicolons in targets, commas in
  parameters in front of the relation, another spelling of `rel=` and a second relation type hide it
  (`LinkHeaderLimits.SingleNextIff`).

Observations nothing promises otherwise about:

- The installer writes wirings without the checks of the wiring mapper's parsers, and an entry's own metadata can
  replace persona, slot and source, so that not every installed wiring reads back (`BundleCapture.WiringsReadBackIff`).
- `+++` directly followed by `+++` is not seen as empty front matter (`Frontmatter.AdjacentFencesIff`).
- Prepending an empty overlay adds a line end, so stacked prepends are not associative there
  (`Merger.PrependAssociativeIff`).

"Clean names" below means: names are distinct in each namespace (specs, projections, and nodes with wirings
and workflows), and none is another one plus a numeric suffix. Source paths are relative to the repository root.

## Model

| member | source | states |
|---|---|---|
| `BundleTheorems.InstallAddsExactlyItsReport` | crates/persona-wire-core/src/application/bundle_install.rs:178-550 | In every conflict mode, and whatever calls fail: an install that returns a report leaves every earlier spec, projection, node and edge as it was, adds exactly one row per installed report row (keyed tables under pairwise distinct new names, node and edge rows in report order, ids as reported) and one log row holding the report; an install that fails overwrites nothing and logs nothing |
| `BundleTheorems.RunAdds` | crates/persona-wire-core/src/application/bundle_install.rs:205-550 | The same frame for a run at the point where it completes, stops at a collision or fails, so that a stopped run has added what its rows report and nothing else |
| `BundleTheorems.ReportAccountsForEveryEntry` | crates/persona-wire-core/src/application/bundle_install.rs:192-198 | A returned report has one row per dispatched entry, split over installed, skipped and errors; it covers the whole manifest unless error mode stopped at a collision, which is then the last row |
| `BundleTheorems.RunAccounts` | crates/persona-wire-core/src/application/bundle_install.rs:251-259 | Row `i` carries the kind and name of entry `i` in section order; skips occur in skip mode only and never for edges; only increment mode installs under another name; a run stops in error mode only, at its first and only collision row |
| `BundleTheorems.InstalledAre` | crates/persona-wire-core/src/application/bundle_install.rs:233-238 | The installed list of a report is the installed rows, all of them and in order |
| `BundleTheorems.SkippedAre` | crates/persona-wire-core/src/application/bundle_install.rs:246-250 | Likewise the skipped list |
| `BundleTheorems.ErrorsAre` | crates/persona-wire-core/src/application/bundle_install.rs:240-244 | Likewise the error list |
| `BundleKeys.InstallKeepsIntegrity` | crates/persona-wire-core/src/infrastructure/storage.rs:1544-1585 | Every install, whatever its mode, its entries and the calls that fail, keeps ids unique in each of the five tables and leaves no row of an unregistered type, no edge without its nodes and no log row of an unknown bundle |
| `BundleReturns.InstallReturns` | crates/persona-wire-core/src/application/bundle_install.rs:178-182 | On a store without duplicate node names, and as long as storage calls do not fail, an install of any bundle in any mode returns a report and leaves no duplicate node names |
| `BundleReturns.StepOutcome` | crates/persona-wire-core/src/application/bundle_install.rs:205-546 | What becomes of an entry in every mode when no storage call fails: it stops the run or is skipped exactly if its mode says so and its name is taken; it ends in an error row exactly if it is malformed, an edge without unique endpoints or of an unregistered type, or cannot be stored for its contents under its first free name; and it is installed otherwise |
| `BundleReturns.ChainOutcomes` | crates/persona-wire-core/src/application/bundle_install.rs:205-546 | The same at every point of a whole run, when minted ids are new and no node name is stored twice at the start |
| `BundleReturns.EdgeError` | crates/persona-wire-core/src/application/bundle_install.rs:667-680 | A rejected edge reports its first end that is missing or ambiguous, under its rewritten name |
| `BundleReturns.ProjectionError` | crates/persona-wire-core/src/application/bundle_install.rs:596-620 | A projection that cannot be built reports its target form first, then its first empty part, and writes nothing |
| `BundleFacts.SearchFindsFirstFree` | crates/persona-wire-core/src/application/bundle_install.rs:575-583 | The suffix search ends: unless a probe fails it returns the least free `desired-n`, with `n` at most the number of stored names, and writes nothing |
| `BundleFacts.ResolveFacts` | crates/persona-wire-core/src/application/bundle_install.rs:565-585 | The three outcomes by mode: the name itself exactly when it is free, a skip or an abort exactly when it is taken in skip or error mode, the first free candidate in increment mode; probing changes no row |
| `BundleFacts.StepFacts` | crates/persona-wire-core/src/application/bundle_install.rs:205-546 | Whatever an entry is and whatever calls fail, dispatching it adds one report row and exactly the table row that row speaks of, or collides in error mode without writing, or fails without writing |
| `BundleFacts.RunUnfolds` | crates/persona-wire-core/src/application/bundle_install.rs:205-546 | Every run is a chain of single dispatches that ends where the manifest ends, at the first collision or at the first failing probe |
| `BundleFacts.ChainGrows` | crates/persona-wire-core/src/application/bundle_install.rs:205-546 | From any point of a run to any later one, rows and report rows are only added, and no stored name gains a second row |
| `Names.CandidatesRunOut` | crates/persona-wire-core/src/application/bundle_install.rs:576-582 | Pigeonhole: if the first `n` candidates of a name are all stored, the store holds at least `n` names, so the counter cannot run away |
| `Names.SuffixUnique` | crates/persona-wire-core/src/application/bundle_install.rs:577 | A suffixed name comes from one base and one number only |
| `Names.DecimalReads` | crates/persona-wire-core/src/application/bundle_install.rs:577 | A rendered counter is made of digits, without a leading zero, and reads back from the left as the counter |
| `Names.DecimalInjective` | crates/persona-wire-core/src/application/bundle_install.rs:577 | Different counters render differently |
| `BundleReferences.ProjectionsReferToTheirSpecs` | crates/persona-wire-core/src/application/bundle_install.rs:200-311 | With pairwise distinct spec names, an installed projection that refers to an installed spec of the bundle ends with the reference to that very spec: the stored projection row names the final name under which the store holds the body the bundle declared, whatever names existed before |
| `BundleReferences.EdgesJoinTheirNodes` | crates/persona-wire-core/src/application/bundle_install.rs:313-389 | With pairwise distinct node names, an installed edge between two installed nodes of the bundle joins exactly the two rows this install added, never an older row of the same name, and carries the declared kind and metadata, an empty object if none is declared; its report row carries both names |
| `BundleReferences.RenameOfOnlyOne` | crates/persona-wire-core/src/application/bundle_install.rs:587-594 | Looking a name up in the rename map gives the final name of the one entry that asked for it; rewriting is one step even when a final name is another entry's original name |
| `BundleReferences.InsertedNodeStays` | crates/persona-wire-core/src/application/bundle_install.rs:313-354 | The row an installed node, wiring or workflow added has an id the store did not hold, holds what the entry declares, and stays the only row under its final name to the end of the run |
| `BundleReferences.NodesKeepMetadata` | crates/persona-wire-core/src/application/bundle_install.rs:622-657 | At the end of a run the final name of an installed node finds one row of the declared type: it holds the declared metadata if that is an object, an empty object if there is none, and the object a string parses to; other metadata is never installed |
| `BundleReferences.EdgesKeepMetadata` | crates/persona-wire-core/src/application/bundle_install.rs:681-695 | An installed edge is stored with the declared kind and metadata, any JSON as it is and an empty object if there is none |
| `BundleReferences.WorkflowsReadBack` | crates/persona-wire-core/src/application/bundle_install.rs:472-546 | At the end of a run the final name of an installed workflow finds one node, and the mapper reads from it a workflow of that name with the persona, trigger, action and flag the bundle declared, enabled if it declared none |
| `BundleDuplicates.DuplicateSpecsIff` | crates/persona-wire-core/src/application/bundle_install.rs:205-311 | When several specs of a bundle ask for one name, an installed projection that refers to it ends, in the stored row, with the first spec's final name if and only if the store held the name before the install; if it did not, the next spec of the name captures the reference and the projection is applied to that one's body |
| `BundleDuplicates.DuplicateNodesIff` | crates/persona-wire-core/src/application/bundle_install.rs:313-389 | When several nodes of a bundle ask for one name, the end of an installed edge that refers to it is, in the stored edge, the first node's new row if and only if the store held a node of the name before the install; if it did not, it is the next one's |
| `BundleDuplicates.LookupFindsFirstRenamed` | crates/persona-wire-core/src/application/bundle_install.rs:587-594 | A rename map gives a name the final name of the first row renamed from it, and leaves names nobody was renamed from |
| `BundleExamples.ReferenceCaptured` | crates/persona-wire-core/src/application/bundle_install.rs:205-311 | Two specs named `x` and a projection that refers to `x`, installed into an empty store: the first spec keeps the name, and the projection is stored with `x-1`, the second |
| `BundleExamples.WiringNamesTheOlderProjection` | crates/persona-wire-core/src/application/bundle_install.rs:263-470 | A projection `p` and a wiring to it, installed where a `p` exists: the bundle's projection becomes `p-1` and the stored wiring names `p` |
| `BundleExamples.InvalidWiringInstalled` | crates/persona-wire-core/src/application/bundle_install.rs:397-454 | A wiring without persona, with a dotted slot and no source scheme, is installed in every mode, and the wiring mapper refuses its row |
| `BundleExamples.ErrorModeKeepsEarlierEntries` | crates/persona-wire-core/src/application/bundle_install.rs:251-259 | Two specs of which the second is taken, in error mode: the run stops, and the first spec stays in the store |
| `BundleCapture.WiringReferenceIff` | crates/persona-wire-core/src/application/bundle_install.rs:397-454 | The header says references inside a bundle are rewritten; a wiring's projection reference is not: with clean names, and unless its own metadata overrides it, it names the projection this install added if and only if the store held none of that name |
| `BundleCapture.WiringRowStays` | crates/persona-wire-core/src/application/bundle_install.rs:416-440 | At the end of a run the final name of an installed wiring finds one row, which carries every key of the entry's own metadata, and reference, auth key and exemption as the bundle wrote them unless that overrides them |
| `BundleCapture.WiringsReadBackIff` | crates/persona-wire-core/src/application/bundle_install.rs:397-454 | The installer stores wirings unchecked: the wiring mapper reads persona, slot and source of an installed wiring back if and only if these meet the entity's invariants and the entry's own metadata leaves them alone |
| `BundleCapture.ProjectionKeepsNameIff` | crates/persona-wire-core/src/application/bundle_install.rs:263-311 | With clean names, an installed projection keeps its name if and only if the store held no projection of that name before the install |
| `BundleRuns.NthInstallNames` | crates/persona-wire-core/src/application/bundle_install.rs:178-550 | From a store without `x` or any `x-n` for the names `x` of a bundle with clean names, error-free increment install number `k` (from 0) gives every named entry the name `x` for `k = 0` and `x-k` after that |
| `BundleRuns.InstallNumbers` | crates/persona-wire-core/src/application/bundle_install.rs:575-583 | One such install, from a store that holds exactly the first `k` candidates of every name, to one that holds exactly `k + 1` |
| `BundleAborts.AbortWritesNothingIff` | crates/persona-wire-core/src/application/bundle_install.rs:25-39 | The header says an abort writes nothing; as long as storage calls do not fail, an error-mode run stops without having written to specs, projections, nodes or edges (the log row of the report is still appended) if and only if some entry clashes with the store and every entry in front of it is malformed, lacks unique endpoints, is of an unregistered type or cannot be stored for its contents |
| `BundleAborts.QuietStep` | crates/persona-wire-core/src/application/bundle_install.rs:205-546 | In error mode and on a store still as it was, an entry stops the run exactly when its name is taken, leaves the store alone exactly when it cannot be stored, and changes it otherwise |
| `BundleSkip.SkipReinstall` | crates/persona-wire-core/src/application/bundle_install.rs:246-250 | When storage calls do not fail and ids to be minted are new to edges and log of the store the first install starts from, a skip install without error rows is followed by a second one that returns a report without errors, skips every named entry, leaves specs, projections and nodes as they are and adds exactly one more copy of each declared edge, equal to the first up to an id that is new |
| `BundleSkip.InstallKeepsMints` | crates/persona-wire-core/src/application/bundle_install.rs:178-550 | In every mode, an install that returns a report leaves a store on which ids to be minted are still new: what it added to edges and log has ids minted before |
| `BundleExamples.SkipTwiceCopiesTheEdge` | crates/persona-wire-core/src/application/bundle_install.rs:356-389 | Two nodes and an edge skip-installed twice into an empty store: no error, no new node, and two edges with different ids between the same two nodes |
| `BundleExamples.SecondInstallNumbered` | crates/persona-wire-core/src/application/bundle_install.rs:565-585 | One spec installed twice in increment mode, without errors: `x`, then `x-1` beside it |
| `BundleSkip.SecondReport` | crates/persona-wire-core/src/application/bundle_install.rs:246-250 | Whatever calls fail: if the second install returns a report at all, it skips every named entry and changes no table but the edges |
| `BundleSkip.RunReplays` | crates/persona-wire-core/src/application/bundle_install.rs:356-389 | A skip run over entries whose names are stored once and whose edges have unique endpoints and registered types completes without an error row |
| `BundleSkip.SkipRunEdge` | crates/persona-wire-core/src/application/bundle_install.rs:356-389 | In an error-free skip run edge entry `i` is the `i`-th new edge row and joins the rows its names belong to at the end of the run |
| `BundleSkip.EdgePositions` | crates/persona-wire-core/src/application/bundle_install.rs:356-389 | In an error-free run, in every mode, the edge table grows by one row per edge entry passed |
| `BundleInstall.InstallBundle` | crates/persona-wire-core/src/application/bundle_install.rs:178-550 | The section loops over a mutable store return the report and leave the tables that the step-by-step specification prescribes, for every failure schedule |
| `BundleInstall.Installer.InstallAll` | crates/persona-wire-core/src/application/bundle_install.rs:205-546 | Six loops, one per section, each dispatching its entries over the mutable store and pushing report rows and renames: together one run over all entries in section order; a collision or failure in one section ends all |
| `BundleInstall.RunSections` | crates/persona-wire-core/src/application/bundle_install.rs:205-546 | A run over the whole manifest is the section runs in sequence, each starting where the one before completed |
| `BundleInstall.Installer.ResolveName` | crates/persona-wire-core/src/application/bundle_install.rs:565-585 | The probing loop ends, answers what the specification answers and uses up the same storage calls |
| `BundleInstall.FindRename` | crates/persona-wire-core/src/application/bundle_install.rs:587-594 | The search loop returns the first rename of a name, or the name |
| `BundleInstall.BuildWiringMetadata` | crates/persona-wire-core/src/application/bundle_install.rs:403-435 | The insertions build the declared fields overridden by the entry's own object |
| `Storage.SqliteStorage.LookupNodeIdByName` | crates/persona-wire-core/src/infrastructure/storage.rs:307-329 | No row, one id, or an ambiguity error with the number of rows, by how many node rows have the name |
| `Storage.SqliteStorage.AddNode` | crates/persona-wire-core/src/infrastructure/storage.rs:236-261 | Appends the node with its metadata normalised to an object, or changes nothing: an id twice and a type that is not registered are rejected |
| `Storage.SqliteStorage.AddEdge` | crates/persona-wire-core/src/infrastructure/storage.rs:376-398 | Appends the edge when its id is new, its type registered and both its ends exist, or changes nothing |
| `Storage.SqliteStorage.RegisterSpec` | crates/persona-wire-core/src/infrastructure/storage.rs:516-535 | Inserts under a new id or overwrites keeping the row's id; every other row stays |
| `Storage.SqliteStorage.RegisterProjection` | crates/persona-wire-core/src/infrastructure/storage.rs:834-873 | Likewise for projections |
| `Storage.SqliteStorage.AppendBundleInstall` | crates/persona-wire-core/src/infrastructure/storage.rs:800-822 | Appends one log row of a stored bundle, or changes nothing |
| `Storage.LookupIff` | crates/persona-wire-core/src/infrastructure/storage.rs:307-329 | A lookup that is not disturbed finds none, the id of the only row of the name, or an ambiguity with the number of rows, counted by position |
| `Storage.UpsertSpecMeans` | crates/persona-wire-core/src/infrastructure/storage.rs:516-535 | An upsert stores the body under the name, keeps the id of a row it overwrites and every other row, or changes nothing |
| `Storage.UpsertProjectionMeans` | crates/persona-wire-core/src/infrastructure/storage.rs:834-873 | Likewise for projections |
| `Storage.MatchesStored` | crates/persona-wire-core/src/infrastructure/storage.rs:307-316 | The rows a name selects are exactly the stored rows of that name |
| `Storage.MatchesNone` | crates/persona-wire-core/src/infrastructure/storage.rs:317-318 | A name selects no row exactly when no stored row has it |
| `WorkflowMapper.WorkflowRoundTrip` | crates/persona-wire-core/src/application/workflow_mapper.rs:172-235 | Reading the node a valid workflow is stored as gives the workflow back, with any number of slots |
| `WorkflowMapper.ReadRenderNormalises` | crates/persona-wire-core/src/application/workflow_mapper.rs:172-235 | For every accepted node, storing what was read and reading again gives the same workflow and the same node |
| `WorkflowMapper.NodeToWorkflow` | crates/persona-wire-core/src/application/workflow_mapper.rs:199-235 | Whatever is accepted satisfies the entity's invariants and is named like the node |
| `WorkflowMapper.NodeIff` | crates/persona-wire-core/src/application/workflow_mapper.rs:199-235 | A node reads as a workflow exactly if it is of the workflow type and named and its metadata holds an accepted trigger and action and as persona nothing, null or a non-empty string; it is enabled unless the metadata says `false` |
| `WorkflowMapper.TriggerIff` | crates/persona-wire-core/src/application/workflow_mapper.rs:95-107 | The two descriptor forms that are accepted as triggers, and no other |
| `WorkflowMapper.ActionIff` | crates/persona-wire-core/src/application/workflow_mapper.rs:112-139 | The two descriptor forms that are accepted as actions, and no other: one slot or more, each a non-empty string without dots |
| `WorkflowMapper.RegistrationIff` | crates/persona-wire-core/src/application/use_cases.rs:2135-2150 | Registration accepts exactly named workflows with no empty persona and accepted trigger and action; left open, they are enabled |
| `WorkflowMapper.ActionRoundTrip` | crates/persona-wire-core/src/application/workflow_mapper.rs:112-166 | Rendering an action and parsing it gives it back |
| `WorkflowMapper.TriggerRoundTrip` | crates/persona-wire-core/src/application/workflow_mapper.rs:95-152 | Rendering a trigger and parsing it gives it back |
| `WorkflowMapper.SlotsRoundTrip` | crates/persona-wire-core/src/application/workflow_mapper.rs:126-132 | A rendered slot list of any length is read back in order |
| `WorkflowMapper.ParseAction` | crates/persona-wire-core/src/application/workflow_mapper.rs:112-139 | The slot loop collects every slot, or reports the first entry that is none |
| `WorkflowMapper.WorkflowToNode` | crates/persona-wire-core/src/application/workflow_mapper.rs:172-193 | The insertions build the metadata object of the workflow |
| `WorkflowMapper.RegistrationRoundTrip` | crates/persona-wire-core/src/application/use_cases.rs:2135-2150 | Registering the rendered parts of a valid workflow builds it; with the flag left open it is enabled |
| `WiringMapper.WiringRoundTripIff` | crates/persona-wire-core/src/application/wiring_mapper.rs:33-38 | A wiring stored as metadata with extras is read back if and only if it is valid and the extras leave its key parts alone |
| `WiringMapper.NodeIff` | crates/persona-wire-core/src/application/wiring_mapper.rs:154-182 | A node reads as a wiring exactly if its metadata holds a non-empty persona, a non-empty slot without dots under `axis` and a source with a scheme |
| `WiringMapper.NodeToWiring` | crates/persona-wire-core/src/application/wiring_mapper.rs:154-182 | Whatever is accepted satisfies the entity's invariants and carries the reference passed in |
| `WiringMapper.WiringMetadataObject` | crates/persona-wire-core/src/application/wiring_mapper.rs:190-212 | The insertions build the key parts overridden by the extras |
| `WiringMapper.HasSchemeIff` | crates/persona-wire-core/src/domain/entity/source.rs:84-95 | A source has a scheme exactly when it holds a colon and does not start with one |
| `Merger.SectionMerge` | crates/persona-wire-core/src/application/merger.rs:68-77 | However a base is cut leftmost at a section's marker as `s0 m s1 ... m sk`, the merge is `s0 o s1 ... o sk`, of length `|base| + k(|o| - |m|)`; with `k = 0` the base is kept and the overlay follows, on a line of its own |
| `Merger.SectionCuts` | crates/persona-wire-core/src/application/merger.rs:70-71 | Every base has such a cutting |
| `Merger.CutUnique` | crates/persona-wire-core/src/application/merger.rs:70-71 | It has one only |
| `Merger.MarkerMergesToItself` | crates/persona-wire-core/src/application/merger.rs:68-72 | Merging a section's own marker gives the base back |
| `Merger.AppendKeepsBoth` | crates/persona-wire-core/src/application/merger.rs:50-58 | An append is the base, a line end exactly if the base holds something and lacks one, and the overlay |
| `Merger.PrependKeepsBoth` | crates/persona-wire-core/src/application/merger.rs:59-67 | A prepend is the overlay, a line end exactly if the base holds something and the overlay lacks one, and the base |
| `Merger.ReplaceForgetsBase` | crates/persona-wire-core/src/application/merger.rs:49 | A replacement is the overlay |
| `Merger.ParseIff` | crates/persona-wire-core/src/application/merger.rs:33-44 | Whatever white space surrounds it, a strategy text is a section exactly if it starts with `section:`, an append or prepend exactly if it is that word in any case, and a replacement otherwise |
| `Chars.TrimCuts` | crates/persona-wire-core/src/application/merger.rs:34 | Trimming takes white space off both ends, all of it and nothing else |
| `Chars.LowerIff` | crates/persona-wire-core/src/application/merger.rs:38 | Lower-casing changes exactly the 26 ASCII capitals, to their small letters |
| `Merger.AppendAssociative` | crates/persona-wire-core/src/application/merger.rs:50-58 | Appending two overlays one by one or stacked is the same, empty ones included |
| `Merger.PrependAssociativeIff` | crates/persona-wire-core/src/application/merger.rs:59-67 | Prepending is associative if and only if the first overlay is not empty or the base is: an empty overlay still adds a line end |
| `Merger.ParseLiteralIff` | crates/persona-wire-core/src/application/merger.rs:33-44 | The literal of a strategy is read back if and only if trimming leaves the end of its section name alone |
| `WikiScanner.ExtractWikiLinks` | crates/persona-wire-adapter-obsidian/src/lib.rs:268-351 | On every UTF-8 body the scan ends and finds the links of the lines outside fences, with targets, aliases and raw texts that are UTF-8 themselves |
| `WikiScanner.ScanLine` | crates/persona-wire-adapter-obsidian/src/lib.rs:288-347 | The byte loop with its jumps finds exactly the links of the line's reading as tokens |
| `WikiScanner.SkipCodeSpan` | crates/persona-wire-adapter-obsidian/src/lib.rs:293-303 | The inner loop moves past a code span or to the line's end, and skips no link |
| `WikiScanner.CloseLink` | crates/persona-wire-adapter-obsidian/src/lib.rs:305-345 | The inner loop finds the first closer or none; both slices are in bounds and on character boundaries |
| `WikiScanner.SlicesOnBoundaries` | crates/persona-wire-adapter-obsidian/src/lib.rs:316-320 | Every cut the scanner makes is at a UTF-8 character boundary, and the pieces are UTF-8 |
| `WikiScanner.BodyLinksAreVisible` | crates/persona-wire-adapter-obsidian/src/lib.rs:272-282 | The links of a body are those of its visible lines in order, a line being visible when it is no fence line and an even number of fence lines precede it |
| `WikiScanner.FenceIff` | crates/persona-wire-adapter-obsidian/src/lib.rs:273-279 | The lines that toggle a fence are exactly those of white space, three backticks or three tildes, and anything, stated in bytes |
| `WikiScanner.LinksAppend` | crates/persona-wire-adapter-obsidian/src/lib.rs:327-331 | Every link token of a line gives one link, in order, and no other token gives any |
| `WikiScanner.LinesValid` | crates/persona-wire-adapter-obsidian/src/lib.rs:272 | Cutting a UTF-8 body into lines leaves UTF-8 lines |
| `WikiLinks.LexPrints` | crates/persona-wire-adapter-obsidian/src/lib.rs:292-347 | A line is the print of its reading: no byte is lost, code spans hold no backtick, links end at their first closer |
| `WikiLinks.PrintLexes` | crates/persona-wire-adapter-obsidian/src/lib.rs:292-347 | Every well-formed token list is the reading of its print |
| `WikiLinks.ReadingUnique` | crates/persona-wire-adapter-obsidian/src/lib.rs:292-347 | A line has one well-formed reading |
| `WikiRoundTrip.LinksPlaced` | crates/persona-wire-adapter-obsidian/src/lib.rs:305-333 | On any line the links have disjoint, increasing ranges; each raw text is the slice of the line at its place and the target and alias written out in full, cut at its first bar and its first closer; what precedes it is whole tokens of the line, so that no link starts inside a code span or another link |
| `WikiRoundTrip.LineRoundTrip` | crates/persona-wire-adapter-obsidian/src/lib.rs:288-347 | From any line written as words, code spans and links, the scan returns exactly the links written, in order |
| `WikiRoundTrip.LinkRoundTripIff` | crates/persona-wire-adapter-obsidian/src/lib.rs:305-344 | A written link is read back if and only if its target holds no bar and its text is closed at its end only |
| `WikiRoundTrip.DocumentRoundTrip` | crates/persona-wire-adapter-obsidian/src/lib.rs:268-351 | From any document of such lines and of blocks fenced by backticks or tildes, indented or not, with either kind of line end, extraction returns exactly the links written outside the fences |
| `WikiRoundTrip.LinesRoundTrip` | crates/persona-wire-adapter-obsidian/src/lib.rs:272 | Lines are cut out of their text again, whether ended by a line feed or by a carriage return and one, with an unended last line if there is anything on it |
| `Utf8.EncodeValid` | crates/persona-wire-adapter-obsidian/src/lib.rs:284-287 | The encoding of every sequence of Unicode scalar values is well-formed |
| `Utf8.ValidDecodes` | crates/persona-wire-adapter-obsidian/src/lib.rs:284-287 | Every well-formed text is the encoding of such a sequence |
| `Utf8.SpaceReads` | crates/persona-wire-adapter-obsidian/src/lib.rs:273 | Of all scalar values exactly the Unicode white space is trimmed, in its encoded length |
| `Utf8.TrimStartCuts` | crates/persona-wire-adapter-obsidian/src/lib.rs:273 | Trimming takes the white space off the front of any bytes, all of it and nothing else |
| `Utf8.SplitValid` | crates/persona-wire-adapter-obsidian/src/lib.rs:284-287 | Cutting UTF-8 text at a character boundary leaves two UTF-8 texts |
| `Utf8.AsciiBoundaries` | crates/persona-wire-adapter-obsidian/src/lib.rs:284-287 | Around an ASCII byte of UTF-8 text both sides are character boundaries |
| `Frontmatter.SplitRoundTrip` | crates/persona-wire-adapter-obsidian/src/lib.rs:232-247 | Front matter without a closing fence, written between `+++` lines, is split off exactly from any body |
| `Frontmatter.SplitLossless` | crates/persona-wire-adapter-obsidian/src/lib.rs:232-247 | For every note taken apart, the pieces and the removed delimiters concatenate back to the note, and the front matter holds no closing fence |
| `Frontmatter.KindIff` | crates/persona-wire-adapter-obsidian/src/lib.rs:227-251 | Which notes go to the YAML library whole, and which are all body |
| `Frontmatter.AdjacentFencesIff` | crates/persona-wire-adapter-obsidian/src/lib.rs:235-236 | Empty front matter written as two adjacent fence lines is not recognised unless the body closes it |
| `Base64.EncodeBlob` | crates/persona-wire-adapter-sqlite-x/src/lib.rs:259-290 | The encoder's loop and its two tails compute the RFC's encoding |
| `Base64.QuantumAt` | crates/persona-wire-adapter-sqlite-x/src/lib.rs:269-272 | The shifted and masked table indices are the four 6-bit digits of the 24-bit group |
| `Base64.TableIsAlphabet` | crates/persona-wire-adapter-sqlite-x/src/lib.rs:262-263 | The table is the alphabet of table 1 of RFC 4648 |
| `Base64.DecodeEncode` | crates/persona-wire-adapter-sqlite-x/src/lib.rs:259-290 | Decoding by section 4 of RFC 4648 inverts the encoder on every byte sequence |
| `Base64.EncodeDecode` | crates/persona-wire-adapter-sqlite-x/src/lib.rs:259-290 | Every text the strict decoder accepts is the encoding of what it decodes to |
| `Base64.DecodesIffEncoded` | crates/persona-wire-adapter-sqlite-x/src/lib.rs:259-290 | The decoder accepts exactly the encoder's outputs |
| `Base64.TestVectors` | crates/persona-wire-adapter-sqlite-x/src/lib.rs:259-290 | Test vectors of section 10 of RFC 4648 |
| `Base64.EncodeInjective` | crates/persona-wire-adapter-sqlite-x/src/lib.rs:259-290 | Different byte sequences have different encodings |
| `Base64.EncodeLength` | crates/persona-wire-adapter-sqlite-x/src/lib.rs:261 | Four symbols per started group of three bytes, within the capacity reserved up front |
| `Base64.PadsAtEnd` | crates/persona-wire-adapter-sqlite-x/src/lib.rs:275-288 | `=` occurs exactly as the last zero, one or two symbols, by the length modulo three |
| `PaginationLoop.Fetch` | crates/persona-wire-adapter-github/src/lib.rs:168-195 | The accumulate, stop and truncate loop, one method for all adapters by endpoint: the answer and the number of requests are read off the whole feed, failures included; from an upstream that ends the items are the first `limit` of all pages' items; a fetch that says there is no more returned everything; a failure is answered exactly if it was met before `limit` items were; and against full pages of size `p` with `T` items it makes `max(1, ceil(min(limit, T) / p))` requests |
| `PaginationTheorems.NormalizeKeeps` | crates/persona-wire-adapter-github/src/lib.rs:418-428 | Of any list exactly the pull requests of an issue list are dropped, wherever they stand; the rest is shaped and stays in order |
| `PaginationTheorems.ItemsIff` | crates/persona-wire-adapter-slack/src/lib.rs:614-620 | When a reply of each service has items, and which failure it is when it has none |
| `PaginationTheorems.CursorIff` | crates/persona-wire-adapter-notion/src/lib.rs:488-499 | When a reply of each service promises another page |
| `PaginationTheorems.PageIff` | crates/persona-wire-adapter-slack/src/lib.rs:611-622 | A page is the items and cursor of a reply; a failed or malformed reply is that failure |
| `PaginationTheorems.PageSizeBounds` | crates/persona-wire-adapter-github/src/lib.rs:264-290 | An adapter asks for what the service grants of its limit, for no more than that but for pulls and releases, and for issues fourfold |
| `PaginationUpstream.MixedFetch` | crates/persona-wire-adapter-github/src/lib.rs:168-195 | For every list, mixed with pull requests in any way, page size and limit there is an upstream that serves it in pages of that size, and a fetch on it returns the first `limit` of what the filter leaves |
| `PaginationTheorems.SplitDoesNotShow` | crates/persona-wire-adapter-slack/src/lib.rs:604-678 | Two upstreams, even of different services, that serve the same flat list give the same items however they split it into pages, and with honest cursors the same `has_more` |
| `PaginationTheorems.RequestCount` | crates/persona-wire-adapter-todoist/src/lib.rs:163-182 | On every feed that ends and whose pages hold `p` items each but for the last, which holds at most `p` and some unless it is alone, a fetch makes `max(1, ceil(min(limit, T) / p))` requests |
| `PaginationTheorems.OneRequest` | crates/persona-wire-adapter-todoist/src/lib.rs:264-265 | A limit the service grants in one page, the adapter asking for it and the service capping it, costs one request |
| `PaginationUpstream.PagedFetch` | crates/persona-wire-adapter-notion/src/lib.rs:504-561 | When nothing is filtered, the pages of that upstream are full: a fetch makes that many requests and returns the first `limit` items and the true `has_more` |
| `PaginationUpstream.RespondReads` | crates/persona-wire-adapter-slack/src/lib.rs:595-601 | Each endpoint's reader finds items and cursor in a reply of its service's shape, Slack's empty cursor and GitHub's `Link` header included |
| `PaginationTheorems.HasMoreTruthfulIff` | crates/persona-wire-adapter-github/src/lib.rs:80-83 | `has_more` says whether more than `limit` items exist, except exactly when `limit` items exist and the last page is empty |
| `PaginationTheorems.HonestCursorsTruthful` | crates/persona-wire-adapter-slack/src/lib.rs:621-629 | When cursors are present exactly when later items are, `has_more` is always true to the flat list |
| `PaginationTheorems.PullRequestsFakeMore` | crates/persona-wire-adapter-github/src/lib.rs:418-428 | A concrete issue list whose second page holds one pull request: a fetch limited to one issue claims there is more although there is not |
| `LinkHeader.ParseLinkNext` | crates/persona-wire-transport-http/src/lib.rs:245-264 | The nested loops return the last target of the first entry with a `next` relation, or none |
| `LinkHeader.ClassifyIff` | crates/persona-wire-transport-http/src/lib.rs:250-257 | A part is a target exactly if it is text in angle brackets and a `next` relation exactly if it is `rel=` and `next`, up to blanks around either and quotes around the word |
| `LinkHeader.NextIff` | crates/persona-wire-transport-http/src/lib.rs:245-264 | From any header the parser returns the last target of the first entry with a `next` relation, and none if there is no such entry or target |
| `Text.JoinSplit` | crates/persona-wire-transport-http/src/lib.rs:246-249 | Cutting at separators loses nothing |
| `LinkHeader.HeaderRoundTrip` | crates/persona-wire-transport-http/src/lib.rs:245-264 | From any printed list of links, quoted or not and with further parameters, the parser returns the target of the first `next` entry, or none |
| `LinkHeaderLimits.SingleNextIff` | crates/persona-wire-transport-http/src/lib.rs:246-262 | A link with relation types quoted or bare and any further parameters around them: its target is read back if and only if it holds no comma and no semicolon, no parameter in front of the relation holds a comma, the parameter is written `rel=` in lower case and without blanks, and `next` is the only relation type; otherwise a clean target is lost |
| `LinkHeaderLimits.AnyTailIff` | crates/persona-wire-transport-http/src/lib.rs:246-262 | Whatever text follows a target: it is read back if and only if it is clean and its own entry, up to the first comma, announces `next` and names no other target, or announces nothing and the first later entry that does names this target |
| `LinkHeaderLimits.CommaInTitleLosesNext` | crates/persona-wire-transport-http/src/lib.rs:246-249 | `<u>; title="a,b"; rel="next"` gives no next page |
| `LinkHeaderLimits.SecondRelationLosesNext` | crates/persona-wire-transport-http/src/lib.rs:253-256 | `rel="next last"` gives no next page, whatever the target |
| `LinkHeaderLimits.CapitalLosesNext` | crates/persona-wire-transport-http/src/lib.rs:253-256 | `Rel="next"` gives no next page, whatever the target |
| `LinkHeader.TargetsHoldNoSeparators` | crates/persona-wire-transport-http/src/lib.rs:246-260 | Whatever the header, a returned target holds neither separator |

## Left out

- BundleAborts.AbortWritesNothingIff: assumes that no storage call fails for outside reasons and that minted ids are new to the store; with failures a stopped run can also end without writes because a write failed.
- BundleSkip.SkipReinstall: assumes that no storage call fails for outside reasons, that every call mints another id, new to the edges and log of the initial store, and that the second bundle is stored; without these, `BundleSkip.SecondReport` is what remains.
- BundleDuplicates.DuplicateSpecsIff: the duplicate name is no suffixed form of another name of the bundle, and the two duplicates were installed; likewise `BundleDuplicates.DuplicateNodesIff`.
- BundleRuns.NthInstallNames: speaks of error-free installs only; an entry that ends in an error row keeps no number.
- BundleReferences.ProjectionsReferToTheirSpecs: bundles with duplicate spec names are excluded here; what references mean in them is `BundleDuplicates.DuplicateSpecsIff`.
- BundleReferences.EdgesJoinTheirNodes: bundles with duplicate node names are excluded, likewise.
- PaginationLoop.Fetch: requires an upstream that ends, fails or serves `limit` items; on an endless row of empty pages the loop does not end. It returns the items and `has_more`, not the object they are wrapped in.
- PaginationTheorems.OneRequest: GitHub's `4 * limit` is unbounded here where the program saturates; that the services cap pages at the adapters' maxima is taken from the adapters' constants.
- WikiScanner.ScanLine: the two inner loops are methods of their own; the program has one function.
- WikiScanner.ExtractWikiLinks: `str::lines` and `trim_start` are library calls, modelled as functions.
- Storage.SqliteStorage.RegisterSpec: the lookup of an existing id and the upsert are one call that can fail, not two, and timestamps are not stored.
- Storage.SqliteStorage.AddNode: the columns the installer always fills with constants (`sot_ref` to `prev_id`) are not modelled; one registry holds node and edge types, as the schema's foreign keys do.
- BundleInstall.InstallBundle: takes the parsed manifest, with spec bodies and workflow payloads decoded or with the decoder's complaint; TOML and serde decoding and the rendering of the report as JSON are library behaviour.
- Error messages are data here, not text; the six section loops dispatch through one method per kind.
- SQLite, ULID minting, clocks and `ulid_from_seed` (a hash) are parameters.
- The YAML branch of `parse_frontmatter` and the parsing of TOML front matter are library behaviour; the split is what is modelled.
- HTTP, authentication, URL building beyond the page size, URI parsing and the renaming of item fields (a parameter of the fetch).
- The other adapters, doctor and tank queries, projection rendering, plugin and credential lookup, the MCP and CLI surfaces: not needed by the properties above, or settled by reading one branch.
- JSON numbers keep their text and object keys have no order; neither is looked at by the code modelled.
