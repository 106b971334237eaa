/** The mapper between the `Wiring` entity and its stored `outline_node` node. */
module WiringMapper {
  import opened Wrappers
  import opened Json
  import opened Entities
  import opened Text

  /** One slot of a persona bound to a source. */
  datatype Wiring = Wiring(persona: string, slot: string, source: string, projectionRef: Option<string>)
  {
    /** The invariants the value constructors enforce. */
    predicate Valid() {
      persona != "" && ValidSlot(slot) && HasScheme(source)
    }
  }

  /** A non-empty scheme in front of the first colon. */
  predicate HasScheme(uri: string) {
    match Find(uri, ":", 0)
    case Some(n) => n > 0
    case None => false
  }

  lemma HasSchemeIff(uri: string)
    ensures HasScheme(uri) <==> ':' in uri && uri[0] != ':'
  {
    assert forall i: nat :: HasAt(uri, ":", i) <==> i < |uri| && uri[i] == ':' by {
      forall i: nat ensures HasAt(uri, ":", i) <==> i < |uri| && uri[i] == ':' {
        if i < |uri| {
          assert uri[i..i + 1] == [uri[i]];
        }
      }
    }
    if ':' in uri {
      var i :| 0 <= i < |uri| && uri[i] == ':';
      assert HasAt(uri, ":", i);
    }
  }

  // ---- Node to entity ----

  function NodeToWiring(node: Node, projectionRef: Option<string>): (r: Result<Wiring, WireError>)
    ensures r.Ok? ==> r.value.Valid() && r.value.projectionRef == projectionRef
  {
    match (node.metadata.GetString("persona"), node.metadata.GetString("axis"), node.metadata.GetString("source_uri"))
    case (None, _, _) => Err(InvalidMetadata("persona"))
    case (_, None, _) => Err(InvalidMetadata("axis"))
    case (_, _, None) => Err(InvalidMetadata("source_uri"))
    case (Some(persona), Some(slot), Some(source)) =>
      if persona == "" then Err(InvalidPersonaId)
      else if !ValidSlot(slot) then Err(InvalidMetadata("slot"))
      else if !HasScheme(source) then Err(InvalidSource(source))
      else Ok(Wiring(persona, slot, source, projectionRef))
  }

  /** `maintenance_exempt` is off unless it is a boolean that says otherwise. */
  function MaintenanceExempt(node: Node): bool {
    node.metadata.GetBool("maintenance_exempt") == Some(true)
  }

  // ---- Entity to metadata ----

  /** The metadata object of a wiring: the key parts, overridden by the extras. */
  function ObjectOf(w: Wiring, extras: map<string, Json>): Json {
    JObject(map["persona" := JString(w.persona), "axis" := JString(w.slot), "source_uri" := JString(w.source)] + extras)
  }

  method WiringMetadataObject(w: Wiring, extras: Option<map<string, Json>>) returns (metadata: Json)
    ensures metadata == ObjectOf(w, if extras.Some? then extras.value else map[])
  {
    var m: map<string, Json> := map[];
    m := m["persona" := JString(w.persona)];
    m := m["axis" := JString(w.slot)];
    m := m["source_uri" := JString(w.source)];
    if extras.Some? {
      m := m + extras.value;
    }
    return JObject(m);
  }

  /** The extras leave the key parts of a wiring as they are. */
  predicate KeepsParts(w: Wiring, extras: map<string, Json>) {
    && ("persona" in extras ==> extras["persona"] == JString(w.persona))
    && ("axis" in extras ==> extras["axis"] == JString(w.slot))
    && ("source_uri" in extras ==> extras["source_uri"] == JString(w.source))
  }

  /** Storing a wiring and reading it back with its projection reference gives the wiring back if and only if
      the wiring is valid and the extras stored beside its key parts leave these alone. */
  lemma WiringRoundTripIff(w: Wiring, extras: map<string, Json>, node: Node)
    requires node.metadata == ObjectOf(w, extras)
    ensures NodeToWiring(node, w.projectionRef) == Ok(w) <==> w.Valid() && KeepsParts(w, extras)
  {
    hide HasScheme;
    var keys := map["persona" := JString(w.persona), "axis" := JString(w.slot), "source_uri" := JString(w.source)];
    assert node.metadata.Get("persona") == Some(if "persona" in extras then extras["persona"] else keys["persona"]);
    assert node.metadata.Get("axis") == Some(if "axis" in extras then extras["axis"] else keys["axis"]);
    assert node.metadata.Get("source_uri") == Some(if "source_uri" in extras then extras["source_uri"] else keys["source_uri"]);
  }

  /** A node is read as a wiring exactly if its metadata holds persona, slot (under `axis`) and source as strings
      that meet the entity's invariants. */
  lemma NodeIff(node: Node, projectionRef: Option<string>, w: Wiring)
    ensures NodeToWiring(node, projectionRef) == Ok(w) <==>
            && w.projectionRef == projectionRef
            && node.metadata.Get("persona") == Some(JString(w.persona)) && w.persona != ""
            && node.metadata.Get("axis") == Some(JString(w.slot)) && w.slot != "" && '.' !in w.slot
            && node.metadata.Get("source_uri") == Some(JString(w.source)) && ':' in w.source && w.source[0] != ':'
  {
    hide HasScheme;
    HasSchemeIff(w.source);
    if NodeToWiring(node, projectionRef).Ok? {
      HasSchemeIff(NodeToWiring(node, projectionRef).value.source);
    }
  }
}
