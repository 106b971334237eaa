/** Domain entities and errors shared by storage, the mappers and the installer. */
module Entities {
  import opened Wrappers
  import opened Json

  /** Row identifiers: 128-bit ULIDs, here just numbers compared for equality. */
  type Ulid = nat

  datatype WireError =
    | StorageError
    | AmbiguousName(name: string, count: nat)
    | NotFound(name: string)
    | InvalidSpec(what: string)
    | InvalidMetadata(what: string)
    | InvalidProjection(what: string)
    | InvalidTargetForm(form: string)
    | InvalidPersonaId
    | InvalidSource(uri: string)

  /** A graph node: one row of the `nodes` table. */
  datatype Node = Node(id: Ulid, name: string, kind: string, metadata: Json)

  /** A graph edge: one row of the `edges` table. */
  datatype Edge = Edge(id: Ulid, src: Ulid, tgt: Ulid, kind: string, metadata: Json)

  datatype Trigger = OnDemand | OnEvent(event: string)

  datatype Action = NoOp | EmitProjection(slots: seq<string>)

  predicate ValidSlot(s: string) {
    s != "" && '.' !in s
  }

  datatype Workflow = Workflow(id: string, persona: Option<string>, trigger: Trigger, action: Action, enabled: bool)
  {
    /** The invariants the entity constructors enforce. */
    predicate Valid() {
      && id != ""
      && (persona.Some? ==> persona.value != "")
      && (trigger.OnEvent? ==> trigger.event != "")
      && (action.EmitProjection? ==> action.slots != [] && forall i :: 0 <= i < |action.slots| ==> ValidSlot(action.slots[i]))
    }
  }

  // ---- Bundle install report ----

  datatype ConflictMode = Increment | Skip | Error

  datatype Kind = KSpec | KProjection | KNode | KEdge | KWiring | KWorkflow

  /** The `id` column of a report row: workflows report their name, all others their ULID. */
  datatype RowRef = UlidRef(id: Ulid) | NameRef(name: string)

  datatype Failure = Malformed(what: string) | NameExists | Rejected(error: WireError)

  datatype InstalledItem = InstalledItem(kind: Kind, original: string, final: string, ref: RowRef)

  datatype SkippedItem = SkippedItem(kind: Kind, name: string)

  datatype ErrorItem = ErrorItem(kind: Kind, name: string, error: Failure)

  datatype Report = Report(
    installId: Ulid, bundleId: Ulid, mode: ConflictMode,
    installed: seq<InstalledItem>, skipped: seq<SkippedItem>, errors: seq<ErrorItem>)

  /** One row of the `bundle_installs` table. */
  datatype LogRow = LogRow(installId: Ulid, report: Report)
}
