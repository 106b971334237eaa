/** The SQLite tables the installer writes, and the operations it uses on them.
 *
 * Every operation draws on an environment: a fault schedule says which calls fail for
 * reasons outside the tables themselves (I/O, undecodable rows), and a mint says which ULID
 * a call makes up. A statement for every environment is a statement for every way those
 * choices can fall out. Foreign keys are enforced: rows of unregistered types, edges without
 * their nodes and log rows of unknown bundles are rejected.
 */
module Storage {
  import opened Wrappers
  import opened Json
  import opened Entities

  datatype Env = Env(
    fault: nat -> bool, mint: nat -> Ulid, seed: string -> Ulid, parseJson: string -> Option<Json>)

  datatype SpecRow = SpecRow(id: Ulid, body: string)

  datatype ProjectionRow = ProjectionRow(id: Ulid, specRef: string, template: string, form: string)

  datatype Namespace = Specs | Projections | Nodes

  /** The tables, and the number of storage calls made so far. Installing neither registers types nor
      stores bundles. */
  datatype Db = Db(
    specs: map<string, SpecRow>, projections: map<string, ProjectionRow>,
    nodes: seq<Node>, edges: seq<Edge>, log: seq<LogRow>, tick: nat,
    types: set<string>, bundles: set<Ulid>)
  {
    function Names(ns: Namespace): set<string> {
      match ns
      case Specs => specs.Keys
      case Projections => projections.Keys
      case Nodes => NodeNames(nodes)
    }

    predicate SameRows(other: Db) {
      && specs == other.specs && projections == other.projections && nodes == other.nodes && edges == other.edges
      && log == other.log && types == other.types && bundles == other.bundles
    }

    function Tick(): Db {
      this.(tick := tick + 1)
    }
  }

  // ---- Node rows by name ----

  function NodeNames(nodes: seq<Node>): set<string> {
    set i | 0 <= i < |nodes| :: nodes[i].name
  }

  /** `SELECT ... WHERE name = ?`: names are not unique in the `nodes` table. */
  function Matches(nodes: seq<Node>, name: string): seq<Node> {
    if nodes == [] then []
    else (if nodes[0].name == name then [nodes[0]] else []) + Matches(nodes[1..], name)
  }

  lemma {:induction false} MatchesAppend(a: seq<Node>, b: seq<Node>, name: string)
    ensures Matches(a + b, name) == Matches(a, name) + Matches(b, name)
  {
    if a == [] {
      assert a + b == b;
    } else {
      MatchesAppend(a[1..], b, name);
      assert (a + b)[1..] == a[1..] + b;
      var own := if a[0].name == name then [a[0]] else [];
      assert own + (Matches(a[1..], name) + Matches(b, name)) == own + Matches(a[1..], name) + Matches(b, name);
    }
  }

  lemma NodeNamesAppend(nodes: seq<Node>, node: Node)
    ensures NodeNames(nodes + [node]) == NodeNames(nodes) + {node.name}
  {
    forall n | n in NodeNames(nodes) + {node.name} ensures n in NodeNames(nodes + [node]) {
      if n == node.name {
        assert (nodes + [node])[|nodes|].name == n;
      } else {
        var i :| 0 <= i < |nodes| && nodes[i].name == n;
        assert (nodes + [node])[i].name == n;
      }
    }
  }

  lemma {:induction false} MatchesNone(nodes: seq<Node>, name: string)
    ensures Matches(nodes, name) == [] <==> name !in NodeNames(nodes)
  {
    if nodes != [] {
      MatchesNone(nodes[1..], name);
      assert forall i :: 0 <= i < |nodes| - 1 ==> nodes[1..][i].name == nodes[i + 1].name;
      assert nodes[0].name in NodeNames(nodes);
      if name in NodeNames(nodes[1..]) {
        var i :| 0 <= i < |nodes[1..]| && nodes[1..][i].name == name;
        assert nodes[i + 1].name == name;
      }
    }
  }

  lemma {:induction false} MatchesStored(nodes: seq<Node>, name: string)
    ensures forall n :: n in Matches(nodes, name) <==> n in nodes && n.name == name
  {
    if nodes != [] {
      MatchesStored(nodes[1..], name);
      assert nodes == [nodes[0]] + nodes[1..];
    }
  }

  // ---- What the operations compute ----

  function Lookup(env: Env, db: Db, name: string): (Result<Option<Ulid>, WireError>, Db) {
    if env.fault(db.tick) then (Err(StorageError), db.Tick())
    else
      var rows := Matches(db.nodes, name);
      if |rows| == 0 then (Ok(None), db.Tick())
      else if |rows| == 1 then (Ok(Some(rows[0].id)), db.Tick())
      else (Err(AmbiguousName(name, |rows|)), db.Tick())
  }

  /** The existence probe of each namespace. */
  function Exists(env: Env, db: Db, ns: Namespace, name: string): (Result<bool, WireError>, Db) {
    if ns == Nodes then
      var (r, d) := Lookup(env, db, name);
      (match r case Ok(found) => Ok(found.Some?) case Err(e) => Err(e), d)
    else if env.fault(db.tick) then (Err(StorageError), db.Tick())
    else (Ok(name in db.Names(ns)), db.Tick())
  }

  /** A lookup of the name finds exactly one row. */
  predicate StoredOnce(db: Db, ns: Namespace, name: string) {
    if ns == Nodes then |Matches(db.nodes, name)| == 1 else name in db.Names(ns)
  }

  predicate SpecIdTaken(db: Db, name: string, id: Ulid) {
    exists n | n in db.specs :: n != name && db.specs[n].id == id
  }

  /** Insert or overwrite by name; an overwrite keeps the row's id. */
  function UpsertSpec(env: Env, db: Db, name: string, body: string): (Result<Ulid, WireError>, Db) {
    var id := if name in db.specs then db.specs[name].id else env.mint(db.tick);
    if env.fault(db.tick) || SpecIdTaken(db, name, id) then (Err(StorageError), db.Tick())
    else (Ok(id), db.Tick().(specs := db.specs[name := SpecRow(id, body)]))
  }

  predicate ProjectionIdTaken(db: Db, name: string, id: Ulid) {
    exists n | n in db.projections :: n != name && db.projections[n].id == id
  }

  function UpsertProjection(env: Env, db: Db, name: string, specRef: string, template: string, form: string)
    : (Result<Ulid, WireError>, Db)
  {
    var id := if name in db.projections then db.projections[name].id else env.mint(db.tick);
    if env.fault(db.tick) || ProjectionIdTaken(db, name, id) then (Err(StorageError), db.Tick())
    else (Ok(id), db.Tick().(projections := db.projections[name := ProjectionRow(id, specRef, template, form)]))
  }

  /** Node metadata is stored as an object; a string is accepted when it parses to one. */
  function NormalizeMetadata(env: Env, metadata: Json): Result<Json, WireError> {
    match metadata
    case JObject(_) => Ok(metadata)
    case JString(s) =>
      (match env.parseJson(s)
       case Some(JObject(fields)) => Ok(JObject(fields))
       case _ => Err(InvalidMetadata("string")))
    case _ => Err(InvalidMetadata("not an object"))
  }

  predicate NodeIdTaken(db: Db, id: Ulid) {
    exists i | 0 <= i < |db.nodes| :: db.nodes[i].id == id
  }

  function InsertNode(env: Env, db: Db, node: Node): (Result<(), WireError>, Db) {
    match NormalizeMetadata(env, node.metadata)
    case Err(e) => (Err(e), db.Tick())
    case Ok(metadata) =>
      if env.fault(db.tick) || NodeIdTaken(db, node.id) || node.kind !in db.types then (Err(StorageError), db.Tick())
      else (Ok(()), db.Tick().(nodes := db.nodes + [node.(metadata := metadata)]))
  }

  predicate EdgeIdTaken(db: Db, id: Ulid) {
    exists i | 0 <= i < |db.edges| :: db.edges[i].id == id
  }

  function InsertEdge(env: Env, db: Db, edge: Edge): (Result<(), WireError>, Db) {
    if || env.fault(db.tick) || EdgeIdTaken(db, edge.id) || edge.kind !in db.types
       || !NodeIdTaken(db, edge.src) || !NodeIdTaken(db, edge.tgt)
    then (Err(StorageError), db.Tick())
    else (Ok(()), db.Tick().(edges := db.edges + [edge]))
  }

  predicate InstallIdTaken(db: Db, id: Ulid) {
    exists i | 0 <= i < |db.log| :: db.log[i].installId == id
  }

  function AppendInstall(env: Env, db: Db, row: LogRow): (Result<(), WireError>, Db) {
    if env.fault(db.tick) || InstallIdTaken(db, row.installId) || row.report.bundleId !in db.bundles then (Err(StorageError), db.Tick())
    else (Ok(()), db.Tick().(log := db.log + [row]))
  }

  // ---- What they mean ----

  /** The positions of the rows of a name. */
  ghost function RowsNamed(nodes: seq<Node>, name: string): set<nat> {
    set i: nat | i < |nodes| && nodes[i].name == name
  }

  lemma {:induction false} MatchesCount(nodes: seq<Node>, name: string)
    ensures |Matches(nodes, name)| == |RowsNamed(nodes, name)|
  {
    if nodes == [] {
      assert RowsNamed(nodes, name) == {};
    } else {
      hide Matches;
      var init, last := nodes[..|nodes| - 1], nodes[|nodes| - 1];
      assert nodes == init + [last];
      MatchesCount(init, name);
      MatchesAppend(init, [last], name);
      MatchesOne(last, name);
      RowsNamedSnoc(init, last, name);
    }
  }

  lemma MatchesOne(node: Node, name: string)
    ensures Matches([node], name) == if node.name == name then [node] else []
  {
    assert [node][1..] == [];
  }

  lemma RowsNamedSnoc(nodes: seq<Node>, node: Node, name: string)
    ensures |RowsNamed(nodes + [node], name)| == |RowsNamed(nodes, name)| + if node.name == name then 1 else 0
  {
    assert RowsNamed(nodes + [node], name) == RowsNamed(nodes, name) + if node.name == name then {|nodes|} else {};
  }

  /** A lookup that reaches the rows finds none, the id of the only row of the name, or says how many there are. */
  lemma LookupIff(env: Env, db: Db, name: string)
    requires !env.fault(db.tick)
    ensures var r, rows := Lookup(env, db, name).0, RowsNamed(db.nodes, name);
            && (|rows| == 0 <==> r == Ok(None))
            && (|rows| == 1 <==> exists i: nat :: i < |db.nodes| && rows == {i} && r == Ok(Some(db.nodes[i].id)))
            && (|rows| > 1 <==> r == Err(AmbiguousName(name, |rows|)))
  {
    MatchesCount(db.nodes, name);
    if |RowsNamed(db.nodes, name)| == 1 {
      var i := OnlyRow(db.nodes, name);
    }
  }

  lemma OnlyRow(nodes: seq<Node>, name: string) returns (i: nat)
    requires |RowsNamed(nodes, name)| == 1
    ensures i < |nodes| && RowsNamed(nodes, name) == {i} && Matches(nodes, name) == [nodes[i]]
  {
    var rows := RowsNamed(nodes, name);
    i :| i in rows;
    assert |rows - {i}| == 0;
    assert rows == {i};
    MatchesCount(nodes, name);
    MatchesStored(nodes, name);
    var found := Matches(nodes, name)[0];
    assert found in Matches(nodes, name);
    var j :| 0 <= j < |nodes| && nodes[j] == found;
    assert j in rows;
  }

  /** Registering inserts under a new id, or overwrites and keeps the id; other rows stay as they are. */
  lemma UpsertSpecMeans(env: Env, db: Db, name: string, body: string)
    ensures var (r, d) := UpsertSpec(env, db, name, body);
            if r.Err? then db.SameRows(d)
            else
              && name in d.specs && d.specs[name] == SpecRow(r.value, body)
              && (name in db.specs ==> r.value == db.specs[name].id)
              && (forall n :: n != name ==> (n in d.specs <==> n in db.specs) && (n in db.specs ==> d.specs[n] == db.specs[n]))
              && db.(specs := d.specs).SameRows(d)
  {}

  lemma UpsertProjectionMeans(env: Env, db: Db, name: string, specRef: string, template: string, form: string)
    ensures var (r, d) := UpsertProjection(env, db, name, specRef, template, form);
            if r.Err? then db.SameRows(d)
            else
              && name in d.projections && d.projections[name] == ProjectionRow(r.value, specRef, template, form)
              && (name in db.projections ==> r.value == db.projections[name].id)
              && (forall n :: n != name ==>
                    (n in d.projections <==> n in db.projections) && (n in db.projections ==> d.projections[n] == db.projections[n]))
              && db.(projections := d.projections).SameRows(d)
  {}

  // ---- The storage object ----

  class SqliteStorage {
    const env: Env
    const types: set<string>
    const bundles: set<Ulid>
    var specs: map<string, SpecRow>
    var projections: map<string, ProjectionRow>
    var nodes: seq<Node>
    var edges: seq<Edge>
    var log: seq<LogRow>
    var tick: nat

    constructor (env: Env, types: set<string>, bundles: set<Ulid>)
      ensures this.env == env
      ensures Tables() == Db(map[], map[], [], [], [], 0, types, bundles)
    {
      this.env, this.types, this.bundles := env, types, bundles;
      specs, projections, nodes, edges, log, tick := map[], map[], [], [], [], 0;
    }

    function Tables(): Db
      reads this
    {
      Db(specs, projections, nodes, edges, log, tick, types, bundles)
    }

    /** One storage call: whether it fails for reasons outside the rows. */
    method Call() returns (failed: bool)
      modifies this`tick
      ensures failed == env.fault(old(tick))
      ensures Tables() == old(Tables()).Tick()
    {
      failed := env.fault(tick);
      tick := tick + 1;
    }

    /** A fresh-looking ULID. */
    method Mint() returns (id: Ulid)
      modifies this`tick
      ensures id == env.mint(old(tick))
      ensures Tables() == old(Tables()).Tick()
    {
      id := env.mint(tick);
      tick := tick + 1;
    }

    method LookupNodeIdByName(name: string) returns (r: Result<Option<Ulid>, WireError>)
      modifies this
      ensures (r, Tables()) == Lookup(env, old(Tables()), name)
    {
      var failed := Call();
      if failed {
        return Err(StorageError);
      }
      var rows := Matches(nodes, name);
      match |rows| {
        case 0 => r := Ok(None);
        case 1 => r := Ok(Some(rows[0].id));
        case n => r := Err(AmbiguousName(name, n));
      }
    }

    method NameExists(ns: Namespace, name: string) returns (r: Result<bool, WireError>)
      modifies this
      ensures (r, Tables()) == Exists(env, old(Tables()), ns, name)
    {
      if ns == Nodes {
        var found := LookupNodeIdByName(name);
        r := match found case Ok(id) => Ok(id.Some?) case Err(e) => Err(e);
      } else {
        var failed := Call();
        r := if failed then Err(StorageError) else Ok(name in Tables().Names(ns));
      }
    }

    method RegisterSpec(name: string, body: string) returns (r: Result<Ulid, WireError>)
      modifies this
      ensures (r, Tables()) == UpsertSpec(env, old(Tables()), name, body)
    {
      var id := if name in specs then specs[name].id else env.mint(tick);
      var taken := SpecIdTaken(Tables(), name, id);
      var failed := Call();
      if failed || taken {
        return Err(StorageError);
      }
      specs := specs[name := SpecRow(id, body)];
      r := Ok(id);
    }

    method RegisterProjection(name: string, specRef: string, template: string, form: string)
      returns (r: Result<Ulid, WireError>)
      modifies this
      ensures (r, Tables()) == UpsertProjection(env, old(Tables()), name, specRef, template, form)
    {
      var id := if name in projections then projections[name].id else env.mint(tick);
      var taken := ProjectionIdTaken(Tables(), name, id);
      var failed := Call();
      if failed || taken {
        return Err(StorageError);
      }
      projections := projections[name := ProjectionRow(id, specRef, template, form)];
      r := Ok(id);
    }

    method AddNode(node: Node) returns (r: Result<(), WireError>)
      modifies this
      ensures (r, Tables()) == InsertNode(env, old(Tables()), node)
    {
      var taken := NodeIdTaken(Tables(), node.id);
      var failed := Call();
      var normalized := NormalizeMetadata(env, node.metadata);
      if normalized.Err? {
        return Err(normalized.error);
      }
      if failed || taken || node.kind !in types {
        return Err(StorageError);
      }
      nodes := nodes + [node.(metadata := normalized.value)];
      r := Ok(());
    }

    method AddEdge(edge: Edge) returns (r: Result<(), WireError>)
      modifies this
      ensures (r, Tables()) == InsertEdge(env, old(Tables()), edge)
    {
      var t := Tables();
      var failed := Call();
      if failed || EdgeIdTaken(t, edge.id) || edge.kind !in types || !NodeIdTaken(t, edge.src) || !NodeIdTaken(t, edge.tgt) {
        return Err(StorageError);
      }
      edges := edges + [edge];
      r := Ok(());
    }

    method AppendBundleInstall(row: LogRow) returns (r: Result<(), WireError>)
      modifies this
      ensures (r, Tables()) == AppendInstall(env, old(Tables()), row)
    {
      var taken := InstallIdTaken(Tables(), row.installId);
      var failed := Call();
      if failed || taken || row.report.bundleId !in bundles {
        return Err(StorageError);
      }
      log := log + [row];
      r := Ok(());
    }
  }
}
