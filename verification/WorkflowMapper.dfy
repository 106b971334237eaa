/** The mapper between the `Workflow` entity and its stored `workflow_def` node. */
module WorkflowMapper {
  import opened Wrappers
  import opened Json
  import opened Entities

  const WORKFLOW_TYPE := "workflow_def"

  // ---- JSON to entity ----

  function ParseTrigger(value: Json): Result<Trigger, WireError> {
    match value.GetString("kind")
    case None => Err(InvalidSpec("trigger.kind"))
    case Some(kind) =>
      if kind == "on_demand" then Ok(OnDemand)
      else if kind == "on_event" then
        match value.GetString("event")
        case None => Err(InvalidSpec("trigger.event"))
        case Some(event) => if event == "" then Err(InvalidSpec("trigger.event empty")) else Ok(OnEvent(event))
      else Err(InvalidSpec("trigger.kind"))
  }

  function NewSlot(name: Json): Result<string, WireError> {
    match name
    case JString(s) =>
      if s == "" then Err(InvalidMetadata("slot empty"))
      else if '.' in s then Err(InvalidMetadata("slot dot"))
      else Ok(s)
    case _ => Err(InvalidSpec("projection_names entry"))
  }

  /** Every entry as a slot, or the error of the first entry that is none. */
  function SlotsOf(names: seq<Json>): (r: Result<seq<string>, WireError>)
    ensures r.Ok? <==> forall i :: 0 <= i < |names| ==> NewSlot(names[i]).Ok?
    ensures r.Ok? ==> |r.value| == |names| && forall i :: 0 <= i < |names| ==> names[i] == JString(r.value[i]) && ValidSlot(r.value[i])
  {
    if names == [] then Ok([])
    else
      match NewSlot(names[0])
      case Err(e) => Err(e)
      case Ok(slot) =>
        match SlotsOf(names[1..])
        case Err(e) => Err(e)
        case Ok(slots) => Ok([slot] + slots)
  }

  /** What `ParseAction` computes. */
  function ActionOf(value: Json): Result<Action, WireError> {
    match value.GetString("kind")
    case None => Err(InvalidSpec("action.kind"))
    case Some(kind) =>
      if kind == "no_op" then Ok(NoOp)
      else if kind == "emit_projection" then
        match value.GetArray("projection_names")
        case None => Err(InvalidSpec("projection_names"))
        case Some(names) =>
          match SlotsOf(names)
          case Err(e) => Err(e)
          case Ok(slots) => if slots == [] then Err(InvalidSpec("no slot")) else Ok(EmitProjection(slots))
      else Err(InvalidSpec("action.kind"))
  }

  lemma {:induction false} SlotsOfStops(names: seq<Json>, i: nat, e: WireError)
    requires i < |names|
    requires SlotsOf(names[..i]).Ok? && NewSlot(names[i]) == Err(e)
    ensures SlotsOf(names) == Err(e)
  {
    if i > 0 {
      assert names[..i][0] == names[0] && names[..i][1..] == names[1..][..i - 1];
      SlotsOfStops(names[1..], i - 1, e);
    }
  }

  lemma {:induction false} SlotsOfSnoc(names: seq<Json>, slot: Json)
    requires SlotsOf(names).Ok? && NewSlot(slot).Ok?
    ensures SlotsOf(names + [slot]) == Ok(SlotsOf(names).value + [NewSlot(slot).value])
  {
    if names == [] {
      var v, none := NewSlot(slot).value, SlotsOf([slot][1..]).value;
      assert names + [slot] == [slot] && SlotsOf(names).value == [] && none == [];
      assert [v] + none == [] + [v];
    } else {
      SlotsOfSnoc(names[1..], slot);
      assert (names + [slot])[1..] == names[1..] + [slot];
      var head, rest := NewSlot(names[0]).value, SlotsOf(names[1..]).value;
      assert [head] + (rest + [NewSlot(slot).value]) == [head] + rest + [NewSlot(slot).value];
    }
  }

  method ParseAction(value: Json) returns (r: Result<Action, WireError>)
    ensures r == ActionOf(value)
  {
    var kind := value.GetString("kind");
    if kind == None {
      return Err(InvalidSpec("action.kind"));
    }
    if kind.value == "no_op" {
      return Ok(NoOp);
    }
    if kind.value != "emit_projection" {
      return Err(InvalidSpec("action.kind"));
    }
    var found := value.GetArray("projection_names");
    if found == None {
      return Err(InvalidSpec("projection_names"));
    }
    var names := found.value;
    var slots: seq<string> := [];
    for i := 0 to |names|
      invariant SlotsOf(names[..i]) == Ok(slots)
    {
      var slot := NewSlot(names[i]);
      if slot.Err? {
        SlotsOfStops(names, i, slot.error);
        return Err(slot.error);
      }
      SlotsOfSnoc(names[..i], names[i]);
      assert names[..i] + [names[i]] == names[..i + 1];
      slots := slots + [slot.value];
    }
    assert names[..|names|] == names;
    if slots == [] {
      return Err(InvalidSpec("no slot"));
    }
    return Ok(EmitProjection(slots));
  }

  // ---- Entity to JSON ----

  function TriggerToJson(t: Trigger): Json {
    match t
    case OnDemand => JObject(map["kind" := JString("on_demand")])
    case OnEvent(event) => JObject(map["kind" := JString("on_event"), "event" := JString(event)])
  }

  function ActionToJson(a: Action): Json {
    match a
    case NoOp => JObject(map["kind" := JString("no_op")])
    case EmitProjection(slots) =>
      JObject(map["kind" := JString("emit_projection"),
                  "projection_names" := JArray(seq(|slots|, i requires 0 <= i < |slots| => JString(slots[i])))])
  }

  // ---- Entity and node ----

  /** The metadata object a workflow is stored as. */
  function MetadataOf(w: Workflow): map<string, Json> {
    (if w.persona.Some? then map["persona" := JString(w.persona.value)] else map[])
    + map["trigger" := TriggerToJson(w.trigger), "action" := ActionToJson(w.action), "enabled" := JBool(w.enabled)]
  }

  /** What `WorkflowToNode` computes; `seed` stands for `ulid_from_seed`. */
  function NodeOf(w: Workflow, seed: string -> Ulid): Node {
    Node(seed(w.id), w.id, WORKFLOW_TYPE, JObject(MetadataOf(w)))
  }

  method WorkflowToNode(w: Workflow, seed: string -> Ulid) returns (node: Node)
    ensures node == NodeOf(w, seed)
  {
    var metadata: map<string, Json> := map[];
    if w.persona.Some? {
      metadata := metadata["persona" := JString(w.persona.value)];
    }
    metadata := metadata["trigger" := TriggerToJson(w.trigger)];
    metadata := metadata["action" := ActionToJson(w.action)];
    metadata := metadata["enabled" := JBool(w.enabled)];
    node := Node(seed(w.id), w.id, WORKFLOW_TYPE, JObject(metadata));
    assert metadata == MetadataOf(w);
  }

  function PersonaOf(meta: Json): Result<Option<string>, WireError> {
    match meta.Get("persona")
    case None => Ok(None)
    case Some(JNull) => Ok(None)
    case Some(JString(s)) => if s == "" then Err(InvalidPersonaId) else Ok(Some(s))
    case Some(_) => Err(InvalidSpec("metadata.persona"))
  }

  function NodeToWorkflow(node: Node): (r: Result<Workflow, WireError>)
    ensures r.Ok? ==> r.value.Valid() && r.value.id == node.name
  {
    if node.kind != WORKFLOW_TYPE then Err(InvalidSpec("Node.type"))
    else if node.name == "" then Err(InvalidSpec("workflow id"))
    else if !node.metadata.JObject? then Err(InvalidSpec("Node.metadata"))
    else
      match PersonaOf(node.metadata)
      case Err(e) => Err(e)
      case Ok(persona) =>
        match node.metadata.Get("trigger")
        case None => Err(InvalidSpec("metadata.trigger"))
        case Some(trigger) =>
          match ParseTrigger(trigger)
          case Err(e) => Err(e)
          case Ok(t) =>
            match node.metadata.Get("action")
            case None => Err(InvalidSpec("metadata.action"))
            case Some(action) =>
              match ActionOf(action)
              case Err(e) => Err(e)
              case Ok(a) =>
                var enabled := match node.metadata.GetBool("enabled") case Some(b) => b case None => true;
                Ok(Workflow(node.name, persona, t, a, enabled))
  }

  // ---- Registration from raw input (`wire_workflow_register`) ----

  datatype RegisterInput = RegisterInput(id: string, persona: Option<string>, trigger: Json, action: Json, enabled: Option<bool>)

  /** The entity a register call builds, or the first invariant its input breaks. */
  function WorkflowOf(input: RegisterInput): (r: Result<Workflow, WireError>)
    ensures r.Ok? ==> r.value.Valid() && r.value.id == input.id
  {
    if input.id == "" then Err(InvalidSpec("workflow id"))
    else if input.persona == Some("") then Err(InvalidPersonaId)
    else
      match ParseTrigger(input.trigger)
      case Err(e) => Err(e)
      case Ok(t) =>
        match ActionOf(input.action)
        case Err(e) => Err(e)
        case Ok(a) =>
          Ok(Workflow(input.id, input.persona, t, a, if input.enabled.Some? then input.enabled.value else true))
  }

  method BuildWorkflow(input: RegisterInput) returns (r: Result<Workflow, WireError>)
    ensures r == WorkflowOf(input)
  {
    if input.id == "" {
      return Err(InvalidSpec("workflow id"));
    }
    if input.persona == Some("") {
      return Err(InvalidPersonaId);
    }
    var t := ParseTrigger(input.trigger);
    if t.Err? {
      return Err(t.error);
    }
    var a := ParseAction(input.action);
    if a.Err? {
      return Err(a.error);
    }
    return Ok(Workflow(input.id, input.persona, t.value, a.value, if input.enabled.Some? then input.enabled.value else true));
  }

  // ---- Round trips ----

  lemma TriggerRoundTrip(t: Trigger)
    requires t.OnEvent? ==> t.event != ""
    ensures ParseTrigger(TriggerToJson(t)) == Ok(t)
  {
    assert TriggerToJson(t).GetString("kind") == Some(if t.OnDemand? then "on_demand" else "on_event");
  }

  /** Rendering a list of slots of any length and reading it gives the list back. */
  lemma {:induction false} SlotsRoundTrip(slots: seq<string>)
    requires forall i :: 0 <= i < |slots| ==> ValidSlot(slots[i])
    ensures SlotsOf(seq(|slots|, i requires 0 <= i < |slots| => JString(slots[i]))) == Ok(slots)
  {
    var names := seq(|slots|, i requires 0 <= i < |slots| => JString(slots[i]));
    assert forall i :: 0 <= i < |names| ==> NewSlot(names[i]) == Ok(slots[i]);
    var r := SlotsOf(names);
    assert forall i :: 0 <= i < |slots| ==> names[i] == JString(slots[i]);
    assert r.value == slots;
  }

  lemma ActionRoundTrip(a: Action)
    requires a.EmitProjection? ==> a.slots != [] && forall i :: 0 <= i < |a.slots| ==> ValidSlot(a.slots[i])
    ensures ActionOf(ActionToJson(a)) == Ok(a)
  {
    var j := ActionToJson(a);
    assert j.GetString("kind") == Some(if a.NoOp? then "no_op" else "emit_projection");
    if a.EmitProjection? {
      SlotsRoundTrip(a.slots);
    }
  }

  /** Storing a workflow and reading it back is the identity. */
  lemma WorkflowRoundTrip(w: Workflow, seed: string -> Ulid)
    requires w.Valid()
    ensures NodeToWorkflow(NodeOf(w, seed)) == Ok(w)
  {
    TriggerRoundTrip(w.trigger);
    ActionRoundTrip(w.action);
    var meta := JObject(MetadataOf(w));
    assert meta.Get("trigger") == Some(TriggerToJson(w.trigger));
    assert meta.Get("action") == Some(ActionToJson(w.action));
    assert meta.Get("enabled") == Some(JBool(w.enabled));
    assert meta.Get("persona") == (if w.persona.Some? then Some(JString(w.persona.value)) else None);
  }

  /** Registering a workflow from its rendered parts builds it; left open, it is enabled. */
  lemma RegistrationRoundTrip(w: Workflow)
    requires w.Valid()
    ensures var t, a := TriggerToJson(w.trigger), ActionToJson(w.action);
            && WorkflowOf(RegisterInput(w.id, w.persona, t, a, Some(w.enabled))) == Ok(w)
            && WorkflowOf(RegisterInput(w.id, w.persona, t, a, None)) == Ok(w.(enabled := true))
  {
    hide TriggerToJson, ActionToJson, ParseTrigger, ActionOf;
    TriggerRoundTrip(w.trigger);
    ActionRoundTrip(w.action);
  }

  /** Reading any accepted node and storing it again normalises it in one step. */
  lemma ReadRenderNormalises(node: Node, seed: string -> Ulid)
    requires NodeToWorkflow(node).Ok?
    ensures var w := NodeToWorkflow(node).value;
            && NodeToWorkflow(NodeOf(w, seed)) == Ok(w)
            && NodeOf(NodeToWorkflow(NodeOf(w, seed)).value, seed) == NodeOf(w, seed)
  {
    WorkflowRoundTrip(NodeToWorkflow(node).value, seed);
  }

  // ---- What is accepted ----

  /** A trigger descriptor is accepted exactly in these two forms. */
  lemma TriggerIff(value: Json, t: Trigger)
    ensures ParseTrigger(value) == Ok(t) <==>
            || (value.Get("kind") == Some(JString("on_demand")) && t == OnDemand)
            || (value.Get("kind") == Some(JString("on_event")) && t.OnEvent? && t.event != ""
                && value.Get("event") == Some(JString(t.event)))
  {}

  /** An action descriptor is accepted exactly in these two forms: slots are strings, not empty and without dots,
      and there is at least one. */
  lemma ActionIff(value: Json, a: Action)
    ensures ActionOf(value) == Ok(a) <==>
            || (value.Get("kind") == Some(JString("no_op")) && a == NoOp)
            || (value.Get("kind") == Some(JString("emit_projection")) && a.EmitProjection? && a.slots != []
                && (forall i :: 0 <= i < |a.slots| ==> a.slots[i] != "" && '.' !in a.slots[i])
                && value.Get("projection_names") == Some(JArray(seq(|a.slots|, i requires 0 <= i < |a.slots| => JString(a.slots[i])))))
  {
    if value.GetArray("projection_names").Some? {
      NamesIff(value.GetArray("projection_names").value, if a.EmitProjection? then a.slots else []);
    }
    if a.EmitProjection? {
      NamesIff(seq(|a.slots|, i requires 0 <= i < |a.slots| => JString(a.slots[i])), a.slots);
    }
    hide SlotsOf;
  }

  lemma NamesIff(names: seq<Json>, slots: seq<string>)
    ensures SlotsOf(names) == Ok(slots) <==>
            && names == seq(|slots|, i requires 0 <= i < |slots| => JString(slots[i]))
            && forall i :: 0 <= i < |slots| ==> slots[i] != "" && '.' !in slots[i]
  {
    if names == seq(|slots|, i requires 0 <= i < |slots| => JString(slots[i])) {
      if forall i :: 0 <= i < |slots| ==> slots[i] != "" && '.' !in slots[i] {
        SlotsRoundTrip(slots);
      }
    }
  }

  /** A node is read as a workflow exactly if it is of the workflow type, named, and its metadata holds trigger and
      action in the accepted forms, and as persona nothing, null or a string that is not empty. It is enabled
      unless it holds a boolean that says otherwise. */
  lemma NodeIff(node: Node, w: Workflow)
    ensures NodeToWorkflow(node) == Ok(w) <==>
            && node.kind == "workflow_def" && node.name == w.id != "" && node.metadata.JObject?
            && (if w.persona.Some? then w.persona.value != "" && node.metadata.Get("persona") == Some(JString(w.persona.value))
                else node.metadata.Get("persona") in {None, Some(JNull)})
            && node.metadata.Get("trigger").Some? && ParseTrigger(node.metadata.Get("trigger").value) == Ok(w.trigger)
            && node.metadata.Get("action").Some? && ActionOf(node.metadata.Get("action").value) == Ok(w.action)
            && (w.enabled <==> node.metadata.Get("enabled") != Some(JBool(false)))
  {
    hide ParseTrigger, ActionOf;
  }

  /** Registration accepts exactly named workflows whose persona is not empty, with trigger and action in the
      accepted forms; left open, they are enabled. */
  lemma RegistrationIff(input: RegisterInput, w: Workflow)
    ensures WorkflowOf(input) == Ok(w) <==>
            && input.id == w.id != "" && input.persona == w.persona != Some("")
            && ParseTrigger(input.trigger) == Ok(w.trigger) && ActionOf(input.action) == Ok(w.action)
            && (w.enabled <==> input.enabled != Some(false))
  {
    hide ParseTrigger, ActionOf;
  }
}
