/**
 The AI plan pipeline: counting what a tool response would change, gating it, and
 lowering it to diff operations.
 */
module PlanPipeline {
  import opened Basics
  import opened Numerals
  import opened SafetyScan

  datatype Tool =
    | PlanDetection | PlanToWall | StyleAssistant | LayoutSuggestion | RenderDoctor | CadCleanup
    | ScheduleFill | Classification | PropertyFill | ValidationHelp | CoverPageDraft | LightingBalance

  type EntityId = Bytes

  /** How a string parses as an entity id, if it does. */
  type IdParser = Bytes -> Option<EntityId>

  datatype DiffOperation =
    | Insert(kind: Bytes, payload: Json)
    | Update(target: EntityId, patch: Json)

  // ----- JSON access -----

  function Get(v: Json, key: Bytes): Option<Json> {
    if v.Obj? && key in v.fields then Some(v.fields[key]) else None
  }

  function GetArray(v: Json, key: Bytes): Option<seq<Json>> {
    match Get(v, key)
    case Some(Arr(items)) => Some(items)
    case _ => None
  }

  function GetText(v: Json, key: Bytes): Option<Bytes> {
    match Get(v, key)
    case Some(Str(s)) => Some(s)
    case _ => None
  }

  /** The elements of the array under a key; none if there is no such array. */
  function Items(v: Json, key: Bytes): seq<Json> {
    match GetArray(v, key) { case Some(items) => items case None => [] }
  }

  // ----- The cheap count -----

  function CountIf(items: seq<Json>, pred: Json -> bool): nat {
    if items == [] then 0 else (if pred(items[0]) then 1 else 0) + CountIf(items[1..], pred)
  }

  function Saturate(n: nat): nat {
    if n > U32_MAX then U32_MAX else n
  }

  function SaturatingAdd(a: nat, b: nat): nat {
    Saturate(a + b)
  }

  function FilteredLen(v: Json, key: Bytes, pred: Json -> bool): nat {
    Saturate(CountIf(Items(v, key), pred))
  }

  predicate HasPoints(p: Json) {
    Get(p, "points").Some?
  }

  predicate IsText(v: Json) {
    v.Str?
  }

  function Target(parse: IdParser, p: Json): Option<EntityId> {
    match GetText(p, "target_entity")
    case Some(s) => parse(s)
    case None => None
  }

  predicate Placeable(parse: IdParser, p: Json) {
    Target(parse, p).Some? || GetText(p, "asset_id").Some?
  }

  function CountResponseEntities(tool: Tool, parse: IdParser, parsed: Json): nat {
    match tool
    case PlanDetection => FilteredLen(parsed, "polylines", HasPoints)
    case PlanToWall => FilteredLen(parsed, "polylines", HasPoints)
    case StyleAssistant =>
      var f := FilteredLen(parsed, "furniture_ids", IsText);
      var m := FilteredLen(parsed, "material_ids", IsText);
      var l := if GetText(parsed, "lighting_preset_id").Some? then 1 else 0;
      SaturatingAdd(SaturatingAdd(f, m), l)
    case LayoutSuggestion => FilteredLen(parsed, "proposals", p => Placeable(parse, p))
    case RenderDoctor => FilteredLen(parsed, "findings", _ => true)
    case _ => 0
  }

  // ----- Lowering to operations -----

  /** The operations of the elements that have one, in order; elements know their position. */
  function Lowered(items: seq<Json>, at: nat, op: (nat, Json) -> Option<DiffOperation>): seq<DiffOperation>
    decreases items
  {
    if items == [] then []
    else Listed(op(at, items[0])) + Lowered(items[1..], at + 1, op)
  }

  function Listed(o: Option<DiffOperation>): seq<DiffOperation> {
    match o { case Some(x) => [x] case None => [] }
  }

  function WallOp(p: Json): Option<DiffOperation> {
    if Get(p, "points").Some? then Some(Insert("wall", p)) else None
  }

  function NamedOp(kind: Bytes, key: Bytes, v: Json): Option<DiffOperation> {
    if v.Str? then Some(Insert(kind, Obj(map[key := v]))) else None
  }

  function OrNull(v: Option<Json>): Json {
    match v { case Some(x) => x case None => Null }
  }

  function ProposalOp(parse: IdParser, anchor: Json, p: Json): Option<DiffOperation> {
    var pos, rot := OrNull(Get(p, "position_mm")), OrNull(Get(p, "rotation_deg"));
    match Target(parse, p)
    case Some(target) =>
      Some(Update(target, Obj(map["position_mm" := pos, "rotation_deg" := rot, "room_anchor" := anchor])))
    case None =>
      match GetText(p, "asset_id")
      case Some(asset) =>
        Some(Insert("furniture", Obj(map["asset_id" := Str(asset), "position_mm" := pos, "rotation_deg" := rot, "room_anchor" := anchor])))
      case None => None
  }

  function Anchor(parsed: Json): Json {
    match GetText(parsed, "room_anchor") { case Some(s) => Str(s) case None => Null }
  }

  /** The active preset's id, or a new one drawn for the position when that id does not parse. */
  function PresetTarget(parse: IdParser, newId: nat -> EntityId, i: nat): EntityId {
    match parse("ent_render_preset_active") { case Some(id) => id case None => newId(i) }
  }

  function FindingOp(parse: IdParser, newId: nat -> EntityId, i: nat, f: Json): Option<DiffOperation> {
    Some(Update(PresetTarget(parse, newId, i), f))
  }

  function StyleOps(parsed: Json): seq<DiffOperation> {
    Lowered(Items(parsed, "furniture_ids"), 0, (i, v) => NamedOp("furniture", "asset_id", v))
    + Lowered(Items(parsed, "material_ids"), 0, (i, v) => NamedOp("material_binding", "material_id", v))
    + (match GetText(parsed, "lighting_preset_id")
       case Some(p) => [Insert("lighting_preset", Obj(map["preset_id" := Str(p)]))]
       case None => [])
  }

  function BuildOps(tool: Tool, parse: IdParser, newId: nat -> EntityId, parsed: Json): seq<DiffOperation> {
    match tool
    case PlanDetection => Lowered(Items(parsed, "polylines"), 0, (i, p) => WallOp(p))
    case PlanToWall => Lowered(Items(parsed, "polylines"), 0, (i, p) => WallOp(p))
    case StyleAssistant => StyleOps(parsed)
    case LayoutSuggestion => Lowered(Items(parsed, "proposals"), 0, (i, p) => ProposalOp(parse, Anchor(parsed), p))
    case RenderDoctor => Lowered(Items(parsed, "findings"), 0, (i: nat, f) => FindingOp(parse, newId, i, f))
    case _ => []
  }

  /** The loop each lowering runs over its array. */
  method LowerArray(items: seq<Json>, op: (nat, Json) -> Option<DiffOperation>, init: seq<DiffOperation>)
    returns (out: seq<DiffOperation>)
    ensures out == init + Lowered(items, 0, op)
  {
    out := init;
    var i := 0;
    while i < |items|
      invariant 0 <= i <= |items|
      invariant out + Lowered(items[i..], i, op) == init + Lowered(items, 0, op)
    {
      assert items[i..][0] == items[i] && items[i..][1..] == items[i + 1..];
      match op(i, items[i]) {
        case Some(o) => out := out + [o];
        case None =>
      }
      i := i + 1;
    }
    assert out + [] == out;
  }

  method Build(tool: Tool, parse: IdParser, newId: nat -> EntityId, parsed: Json) returns (out: seq<DiffOperation>)
    ensures out == BuildOps(tool, parse, newId, parsed)
  {
    hide Lowered, Items;
    match tool {
      case PlanDetection | PlanToWall =>
        out := LowerArray(Items(parsed, "polylines"), (i, p) => WallOp(p), []);
      case StyleAssistant =>
        out := LowerArray(Items(parsed, "furniture_ids"), (i, v) => NamedOp("furniture", "asset_id", v), []);
        out := LowerArray(Items(parsed, "material_ids"), (i, v) => NamedOp("material_binding", "material_id", v), out);
        match GetText(parsed, "lighting_preset_id") {
          case Some(p) => out := out + [Insert("lighting_preset", Obj(map["preset_id" := Str(p)]))];
          case None =>
        }
      case LayoutSuggestion =>
        out := LowerArray(Items(parsed, "proposals"), (i, p) => ProposalOp(parse, Anchor(parsed), p), []);
      case RenderDoctor =>
        out := LowerArray(Items(parsed, "findings"), (i: nat, f) => FindingOp(parse, newId, i, f), []);
      case _ =>
        out := [];
    }
  }

  /** Elements are lowered one by one and in order: no operation depends on, or overtakes, another element. */
  lemma {:induction false} LoweredConcat(a: seq<Json>, b: seq<Json>, at: nat, op: (nat, Json) -> Option<DiffOperation>)
    ensures Lowered(a + b, at, op) == Lowered(a, at, op) + Lowered(b, at + |a|, op)
    decreases |a|
  {
    hide Listed;
    if a == [] {
      assert a + b == b;
    } else {
      var head, tail := a[0], a[1..];
      assert (a + b)[0] == head && (a + b)[1..] == tail + b;
      LoweredConcat(tail, b, at + 1, op);
      assert at + 1 + |tail| == at + |a|;
      assert Lowered(a + b, at, op) == Listed(op(at, head)) + Lowered(tail + b, at + 1, op);
    }
  }

  /** The operation of an element comes right behind those of the elements before it. */
  lemma LoweredAt(items: seq<Json>, i: nat, op: (nat, Json) -> Option<DiffOperation>)
    requires i < |items| && op(i, items[i]).Some?
    ensures var k := |Lowered(items[..i], 0, op)|;
            k < |Lowered(items, 0, op)| && Lowered(items, 0, op)[k] == op(i, items[i]).value
  {
    hide Lowered;
    var front, tail := items[..i], items[i..];
    assert items == front + tail && tail[0] == items[i] && |front| == i;
    LoweredConcat(front, tail, 0, op);
    LoweredHead(tail, i, op);
  }

  lemma LoweredHead(items: seq<Json>, at: nat, op: (nat, Json) -> Option<DiffOperation>)
    requires items != [] && op(at, items[0]).Some?
    ensures Lowered(items, at, op) != [] && Lowered(items, at, op)[0] == op(at, items[0]).value
  { }

  // ----- The count agrees with the lowering -----

  lemma {:induction false} LoweredCount(items: seq<Json>, at: nat, op: (nat, Json) -> Option<DiffOperation>, pred: Json -> bool)
    requires forall i, v :: op(i, v).Some? <==> pred(v)
    ensures |Lowered(items, at, op)| == CountIf(items, pred)
    decreases items
  {
    if items != [] {
      LoweredCount(items[1..], at + 1, op, pred);
    }
  }

  /** For every tool and payload: the count is the number of operations, saturated at the 32-bit maximum. */
  lemma CountPredictsBuild(tool: Tool, parse: IdParser, newId: nat -> EntityId, parsed: Json)
    ensures CountResponseEntities(tool, parse, parsed) == Saturate(|BuildOps(tool, parse, newId, parsed)|)
  {
    hide Lowered, CountIf, Items, WallOp, NamedOp, ProposalOp, GetText;
    match tool {
      case PlanDetection | PlanToWall =>
        WallOpMeaning();
        LoweredCount(Items(parsed, "polylines"), 0, (i, p) => WallOp(p), HasPoints);
      case StyleAssistant =>
        NamedOpMeaning();
        LoweredCount(Items(parsed, "furniture_ids"), 0, (i, v) => NamedOp("furniture", "asset_id", v), IsText);
        LoweredCount(Items(parsed, "material_ids"), 0, (i, v) => NamedOp("material_binding", "material_id", v), IsText);
      case LayoutSuggestion =>
        ProposalOpMeaning(parse, Anchor(parsed));
        LoweredCount(Items(parsed, "proposals"), 0, (i, p) => ProposalOp(parse, Anchor(parsed), p), p => Placeable(parse, p));
      case RenderDoctor =>
        LoweredCount(Items(parsed, "findings"), 0, (i: nat, f) => FindingOp(parse, newId, i, f), _ => true);
      case _ =>
    }
  }

  // ----- Each element's operation, at the place the count gives it -----

  /** For both tools that read plans: the polyline itself, as a wall, behind one wall for each earlier polyline with points. */
  lemma WallsInPlace(tool: Tool, parse: IdParser, newId: nat -> EntityId, parsed: Json, i: nat)
    requires tool == PlanDetection || tool == PlanToWall
    requires i < |Items(parsed, "polylines")| && HasPoints(Items(parsed, "polylines")[i])
    ensures var items, ops := Items(parsed, "polylines"), BuildOps(tool, parse, newId, parsed);
            var k := CountIf(items[..i], HasPoints);
            k < |ops| && ops[k] == Insert("wall", items[i])
  {
    hide Lowered, CountIf, Items;
    var items := Items(parsed, "polylines");
    WallOpMeaning();
    LoweredAt(items, i, (i, p) => WallOp(p));
    LoweredCount(items[..i], 0, (i, p) => WallOp(p), HasPoints);
  }

  /** A proposal moves the entity it targets, else places its asset; position, rotation and room go along. */
  lemma ProposalsInPlace(parse: IdParser, newId: nat -> EntityId, parsed: Json, i: nat)
    requires i < |Items(parsed, "proposals")| && Placeable(parse, Items(parsed, "proposals")[i])
    ensures var items, ops := Items(parsed, "proposals"), BuildOps(LayoutSuggestion, parse, newId, parsed);
            var k, p := CountIf(items[..i], p => Placeable(parse, p)), items[i];
            && k < |ops|
            && (if Target(parse, p).Some? then ops[k].Update? && ops[k].target == Target(parse, p).value
                else ops[k].Insert? && ops[k].kind == "furniture" && GetText(ops[k].payload, "asset_id") == GetText(p, "asset_id"))
            && var body := if ops[k].Update? then ops[k].patch else ops[k].payload;
               && Get(body, "position_mm") == Some(OrNull(Get(p, "position_mm")))
               && Get(body, "rotation_deg") == Some(OrNull(Get(p, "rotation_deg")))
               && Get(body, "room_anchor") == Some(Anchor(parsed))
  {
    hide Lowered, CountIf, Items;
    var items := Items(parsed, "proposals");
    ProposalOpMeaning(parse, Anchor(parsed));
    LoweredAt(items, i, (i, p) => ProposalOp(parse, Anchor(parsed), p));
    LoweredCount(items[..i], 0, (i, p) => ProposalOp(parse, Anchor(parsed), p), p => Placeable(parse, p));
  }

  /** Every finding patches the active preset, in the order of the findings. */
  lemma FindingsInPlace(parse: IdParser, newId: nat -> EntityId, parsed: Json, i: nat)
    requires i < |Items(parsed, "findings")|
    ensures var items, ops := Items(parsed, "findings"), BuildOps(RenderDoctor, parse, newId, parsed);
            && |ops| == |items| && ops[i].Update? && ops[i].patch == items[i]
            && ops[i].target == match parse("ent_render_preset_active") { case Some(id) => id case None => newId(i) }
  {
    hide Lowered, CountIf, Items;
    var items := Items(parsed, "findings");
    LoweredAt(items, i, (i: nat, f) => FindingOp(parse, newId, i, f));
    LoweredCount(items, 0, (i: nat, f) => FindingOp(parse, newId, i, f), _ => true);
    LoweredCount(items[..i], 0, (i: nat, f) => FindingOp(parse, newId, i, f), _ => true);
    CountAll(items);
    CountAll(items[..i]);
  }

  /** Furniture first, then materials, each behind the earlier ones with a text, and the preset last. */
  lemma StyleInPlace(parse: IdParser, newId: nat -> EntityId, parsed: Json, i: nat)
    ensures var f, ops := Items(parsed, "furniture_ids"), BuildOps(StyleAssistant, parse, newId, parsed);
            i < |f| && f[i].Str? ==>
              var k := CountIf(f[..i], IsText);
              k < |ops| && ops[k] == Insert("furniture", Obj(map["asset_id" := f[i]]))
    ensures var f, m, ops := Items(parsed, "furniture_ids"), Items(parsed, "material_ids"), BuildOps(StyleAssistant, parse, newId, parsed);
            i < |m| && m[i].Str? ==>
              var k := CountIf(f, IsText) + CountIf(m[..i], IsText);
              k < |ops| && ops[k] == Insert("material_binding", Obj(map["material_id" := m[i]]))
    ensures var ops, preset := BuildOps(StyleAssistant, parse, newId, parsed), GetText(parsed, "lighting_preset_id");
            preset.Some? ==> ops != [] && ops[|ops| - 1] == Insert("lighting_preset", Obj(map["preset_id" := Str(preset.value)]))
  {
    hide Lowered, CountIf, Items, GetText;
    var f, m := Items(parsed, "furniture_ids"), Items(parsed, "material_ids");
    NamedOpMeaning();
    LoweredCount(f, 0, (i, v) => NamedOp("furniture", "asset_id", v), IsText);
    if i < |f| && f[i].Str? {
      LoweredAt(f, i, (i, v) => NamedOp("furniture", "asset_id", v));
      LoweredCount(f[..i], 0, (i, v) => NamedOp("furniture", "asset_id", v), IsText);
    }
    if i < |m| && m[i].Str? {
      LoweredAt(m, i, (i, v) => NamedOp("material_binding", "material_id", v));
      LoweredCount(m[..i], 0, (i, v) => NamedOp("material_binding", "material_id", v), IsText);
    }
  }

  lemma WallOpMeaning()
    ensures forall v :: WallOp(v).Some? <==> HasPoints(v)
  {
  }

  lemma NamedOpMeaning()
    ensures forall kind, key, v :: NamedOp(kind, key, v).Some? <==> IsText(v)
  {
  }

  lemma ProposalOpMeaning(parse: IdParser, anchor: Json)
    ensures forall v :: ProposalOp(parse, anchor, v).Some? <==> Placeable(parse, v)
  {
  }

  // ----- Grammars -----

  predicate IsPoint(v: Json) {
    v.Arr? && |v.items| == 2
  }

  predicate IsTriple(v: Option<Json>) {
    v.Some? && v.value.Arr? && |v.value.items| == 3 && forall i :: 0 <= i < 3 ==> v.value.items[i].Num?
  }

  predicate IsPolyline(p: Json) {
    GetArray(p, "points").Some? && forall i :: 0 <= i < |Items(p, "points")| ==> IsPoint(Items(p, "points")[i])
  }

  predicate IsProposal(p: Json) {
    IsTriple(Get(p, "position_mm")) && (GetText(p, "asset_id").Some? || GetText(p, "target_entity").Some?)
  }

  predicate IsLight(v: Json) {
    && IsTriple(Get(v, "position_mm"))
    && (GetText(v, "kind") == Some("area") || GetText(v, "kind") == Some("point"))
    && Get(v, "intensity").Some? && Get(v, "intensity").value.Num?
    && Get(v, "color_temperature_k").Some? && Get(v, "color_temperature_k").value.Num?
  }

  predicate ArrayOf(v: Json, key: Bytes, pred: Json -> bool) {
    GetArray(v, key).Some? && forall i :: 0 <= i < |Items(v, key)| ==> pred(Items(v, key)[i])
  }

  predicate GrammarMatches(key: Bytes, v: Json) {
    if key == "plan_detection" then ArrayOf(v, "polylines", IsPolyline)
    else if key == "style_assistant" then
      GetArray(v, "furniture_ids").Some? && GetArray(v, "material_ids").Some? && GetText(v, "lighting_preset_id").Some?
    else if key == "layout_suggestion" then GetText(v, "room_anchor").Some? && ArrayOf(v, "proposals", IsProposal)
    else if key == "render_doctor" then
      ArrayOf(v, "findings", f => GetText(f, "issue").Some? && GetText(f, "severity").Some?)
    else if key == "cad_cleanup" then GetArray(v, "operations").Some?
    else if key == "schedule_fill" then GetArray(v, "rows").Some?
    else if key == "classification" then
      ArrayOf(v, "assignments", a => GetText(a, "entity").Some? && GetText(a, "ifc_class").Some?)
    else if key == "property_fill" then GetArray(v, "psets").Some?
    else if key == "validation_help" then GetArray(v, "recommendations").Some?
    else if key == "cover_page_draft" then GetText(v, "title").Some? && GetText(v, "subtitle").Some?
    else if key == "lighting_balance" then
      GetText(v, "rationale").Some? && Trim(GetText(v, "rationale").value) != "" && ArrayOf(v, "suggested_accents", IsLight)
    else true
  }

  // ----- The gate -----

  datatype Scope = Design | Draft | Bim | Render | Deliver

  datatype Schema = Schema(allowedScopes: set<Scope>, maxEntities: nat, grammarKey: Bytes)

  datatype Registry = Registry(schemas: map<Tool, Schema>, grammars: set<Bytes>)

  datatype PlanError =
    | UnknownTool
    | ScopeViolation
    | BoundsExceeded(entities: nat, max: nat)
    | GrammarMismatch
    | Exfiltration
    | Malformed

  datatype PlanRequest = PlanRequest(tool: Tool, scope: Scope, maxEntitiesModified: nat)

  datatype PlanResponse = PlanResponse(tool: Tool, parsed: Json, entitiesModified: nat)

  function Precheck(r: Registry, q: PlanRequest): Result<(), PlanError> {
    if q.tool !in r.schemas then Err(UnknownTool)
    else
      var schema := r.schemas[q.tool];
      if q.scope !in schema.allowedScopes then Err(ScopeViolation)
      else if q.maxEntitiesModified > schema.maxEntities then Err(BoundsExceeded(q.maxEntitiesModified, schema.maxEntities))
      else Ok(())
  }

  ghost function Validate(r: Registry, tool: Tool, scope: Scope, entities: nat, parsed: Json): Result<(), PlanError> {
    if tool !in r.schemas then Err(UnknownTool)
    else
      var schema := r.schemas[tool];
      if scope !in schema.allowedScopes then Err(ScopeViolation)
      else if entities > schema.maxEntities then Err(BoundsExceeded(entities, schema.maxEntities))
      else if schema.grammarKey !in r.grammars || !GrammarMatches(schema.grammarKey, parsed) then Err(GrammarMismatch)
      else if !Passes(parsed) then Err(Exfiltration)
      else Ok(())
  }

  /** `payload` is the parsed response text, or `None` if it is not JSON. */
  ghost function Finalize(r: Registry, parse: IdParser, tool: Tool, scope: Scope, cap: nat, payload: Option<Json>): Result<PlanResponse, PlanError> {
    match payload
    case None => Err(Malformed)
    case Some(parsed) =>
      var actual := CountResponseEntities(tool, parse, parsed);
      if actual > cap then Err(BoundsExceeded(actual, cap))
      else
        match Validate(r, tool, scope, actual, parsed)
        case Err(e) => Err(e)
        case Ok(_) => Ok(PlanResponse(tool, parsed, actual))
  }

  /**
   A request that passes both gates yields a diff within the request's and the
   schema's cap, as long as that cap is below the 32-bit maximum; its payload has the
   tool's shape and no flagged string.
   */
  lemma AcceptedWithinCaps(r: Registry, parse: IdParser, newId: nat -> EntityId, q: PlanRequest, payload: Option<Json>)
    requires Precheck(r, q).Ok?
    requires Finalize(r, parse, q.tool, q.scope, q.maxEntitiesModified, payload).Ok?
    ensures var response := Finalize(r, parse, q.tool, q.scope, q.maxEntitiesModified, payload).value;
            var schema := r.schemas[q.tool];
            && payload == Some(response.parsed) && response.tool == q.tool
            && q.maxEntitiesModified <= schema.maxEntities && q.scope in schema.allowedScopes
            && GrammarMatches(schema.grammarKey, response.parsed) && Passes(response.parsed)
            && (q.maxEntitiesModified < U32_MAX ==>
                 && |BuildOps(q.tool, parse, newId, response.parsed)| <= q.maxEntitiesModified
                 && |BuildOps(q.tool, parse, newId, response.parsed)| == response.entitiesModified)
  {
    hide CountResponseEntities, BuildOps, GrammarMatches, Passes;
    CountPredictsBuild(q.tool, parse, newId, payload.value);
  }

  const OneFinding := Obj(map["issue" := Str("dark"), "severity" := Str("low")])
  const OnePolyline := Obj(map["points" := Arr([])])
  const OnePlacement := Obj(map["position_mm" := Arr([Num(0.0), Num(0.0), Num(0.0)]), "asset_id" := Str("chair")])

  /** The tools whose responses become operations. */
  predicate Lowers(tool: Tool) {
    tool in {PlanDetection, PlanToWall, StyleAssistant, LayoutSuggestion, RenderDoctor}
  }

  function GrammarOf(tool: Tool): Bytes
    requires Lowers(tool)
  {
    match tool
    case PlanDetection => "plan_detection"
    case PlanToWall => "plan_detection"
    case StyleAssistant => "style_assistant"
    case LayoutSuggestion => "layout_suggestion"
    case RenderDoctor => "render_doctor"
  }

  function Findings(n: nat): Json {
    Obj(map["findings" := Arr(seq(n, _ => OneFinding))])
  }

  function Polylines(n: nat): Json {
    Obj(map["polylines" := Arr(seq(n, _ => OnePolyline))])
  }

  function Furniture(n: nat): Json {
    Obj(map["furniture_ids" := Arr(seq(n, _ => Str("chair"))), "material_ids" := Arr([]), "lighting_preset_id" := Str("dusk")])
  }

  function Placements(n: nat): Json {
    Obj(map["room_anchor" := Str("room"), "proposals" := Arr(seq(n, _ => OnePlacement))])
  }

  /** A response of the tool's own shape with `n` elements. */
  function Many(tool: Tool, n: nat): Json
    requires Lowers(tool)
  {
    match tool
    case PlanDetection => Polylines(n)
    case PlanToWall => Polylines(n)
    case StyleAssistant => Furniture(n)
    case LayoutSuggestion => Placements(n)
    case RenderDoctor => Findings(n)
  }

  /** The registry lets the request through, and a tool with operations by its own grammar. */
  ghost predicate Admits(r: Registry, q: PlanRequest) {
    && Precheck(r, q).Ok?
    && (Lowers(q.tool) ==> r.schemas[q.tool].grammarKey == GrammarOf(q.tool) && GrammarOf(q.tool) in r.grammars)
  }

  lemma ManyPass(tool: Tool, n: nat)
    requires Lowers(tool)
    ensures Passes(Many(tool, n))
  {
    hide Flagged, Findings, Polylines, Furniture, Placements;
    match tool
    case PlanDetection => PolylinesPass(n);
    case PlanToWall => PolylinesPass(n);
    case StyleAssistant => FurniturePass(n);
    case LayoutSuggestion => PlacementsPass(n);
    case RenderDoctor => FindingsPass(n);
  }

  lemma RepeatedPasses(item: Json, n: nat)
    requires Passes(item)
    ensures Passes(Arr(seq(n, _ => item)))
  {
    hide Flagged;
  }

  lemma FindingsPass(n: nat)
    ensures Passes(Findings(n))
  {
    hide Flagged;
    PlainIsUnflagged("dark");
    PlainIsUnflagged("low");
    RepeatedPasses(OneFinding, n);
  }

  lemma PolylinesPass(n: nat)
    ensures Passes(Polylines(n))
  {
    hide Flagged;
    RepeatedPasses(OnePolyline, n);
  }

  lemma FurniturePass(n: nat)
    ensures Passes(Furniture(n))
  {
    hide Flagged;
    PlainIsUnflagged("chair");
    PlainIsUnflagged("dusk");
    RepeatedPasses(Str("chair"), n);
  }

  lemma PlacementPasses()
    ensures Passes(OnePlacement)
  {
    hide Flagged;
    PlainIsUnflagged("chair");
    RepeatedPasses(Num(0.0), 3);
    assert seq(3, _ => Num(0.0)) == [Num(0.0), Num(0.0), Num(0.0)];
  }

  lemma PlacementsPass(n: nat)
    ensures Passes(Placements(n))
  {
    hide Flagged;
    PlainIsUnflagged("room");
    PlacementPasses();
    RepeatedPasses(OnePlacement, n);
  }

  lemma ManyFindings(parse: IdParser, newId: nat -> EntityId, n: nat)
    ensures GrammarMatches("render_doctor", Findings(n))
    ensures |BuildOps(RenderDoctor, parse, newId, Findings(n))| == n
  {
    hide Lowered, CountIf;
    var items := seq(n, _ => OneFinding);
    assert Items(Findings(n), "findings") == items;
    CountAll(items);
    LoweredCount(items, 0, (i: nat, f) => FindingOp(parse, newId, i, f), _ => true);
  }

  lemma ManyPolylines(parse: IdParser, newId: nat -> EntityId, n: nat)
    ensures GrammarMatches("plan_detection", Polylines(n))
    ensures |BuildOps(PlanDetection, parse, newId, Polylines(n))| == n
    ensures |BuildOps(PlanToWall, parse, newId, Polylines(n))| == n
  {
    hide Lowered, CountIf;
    var items := seq(n, _ => OnePolyline);
    assert Items(Polylines(n), "polylines") == items && Items(OnePolyline, "points") == [];
    WallOpMeaning();
    LoweredCount(items, 0, (i, p) => WallOp(p), HasPoints);
    CountFull(items, HasPoints);
  }

  lemma ManyFurniture(parse: IdParser, newId: nat -> EntityId, n: nat)
    ensures GrammarMatches("style_assistant", Furniture(n))
    ensures |BuildOps(StyleAssistant, parse, newId, Furniture(n))| == n + 1
  {
    hide Lowered, CountIf;
    var items := seq(n, _ => Str("chair"));
    assert Items(Furniture(n), "furniture_ids") == items && Items(Furniture(n), "material_ids") == [];
    NamedOpMeaning();
    LoweredCount(items, 0, (i, v) => NamedOp("furniture", "asset_id", v), IsText);
    LoweredCount([], 0, (i, v) => NamedOp("material_binding", "material_id", v), IsText);
    CountFull(items, IsText);
    CountFull([], IsText);
  }

  lemma ManyPlacements(parse: IdParser, newId: nat -> EntityId, n: nat)
    ensures GrammarMatches("layout_suggestion", Placements(n))
    ensures |BuildOps(LayoutSuggestion, parse, newId, Placements(n))| == n
  {
    hide Lowered, CountIf;
    var parsed, items := Placements(n), seq(n, _ => OnePlacement);
    assert Items(parsed, "proposals") == items;
    assert IsProposal(OnePlacement) && Placeable(parse, OnePlacement);
    ProposalOpMeaning(parse, Anchor(parsed));
    LoweredCount(items, 0, (i, p) => ProposalOp(parse, Anchor(parsed), p), p => Placeable(parse, p));
    CountFull(items, p => Placeable(parse, p));
  }

  lemma ManyAreLowered(tool: Tool, parse: IdParser, newId: nat -> EntityId, n: nat)
    requires Lowers(tool)
    ensures GrammarMatches(GrammarOf(tool), Many(tool, n))
    ensures n <= |BuildOps(tool, parse, newId, Many(tool, n))| <= n + 1
  {
    hide GrammarMatches, BuildOps, Findings, Polylines, Furniture, Placements;
    match tool
    case PlanDetection => ManyPolylines(parse, newId, n);
    case PlanToWall => ManyPolylines(parse, newId, n);
    case StyleAssistant => ManyFurniture(parse, newId, n);
    case LayoutSuggestion => ManyPlacements(parse, newId, n);
    case RenderDoctor => ManyFindings(parse, newId, n);
  }

  /** At a cap of the 32-bit maximum any longer response is accepted, whatever the tool: the count saturates there. */
  lemma SaturationHidesOneMore(r: Registry, parse: IdParser, newId: nat -> EntityId, q: PlanRequest, n: nat)
    requires Admits(r, q) && Lowers(q.tool) && q.maxEntitiesModified == U32_MAX < n
    ensures Finalize(r, parse, q.tool, q.scope, q.maxEntitiesModified, Some(Many(q.tool, n))).Ok?
    ensures |BuildOps(q.tool, parse, newId, Many(q.tool, n))| >= n
  {
    hide CountResponseEntities, BuildOps, GrammarMatches, Passes, Many, GrammarOf, Lowers;
    ManyAreLowered(q.tool, parse, newId, n);
    CountPredictsBuild(q.tool, parse, newId, Many(q.tool, n));
    ManyPass(q.tool, n);
  }

  /**
   For every tool: whatever is accepted stays within the request's cap if and only if that
   cap is below the 32-bit maximum or the tool has no operations.
   */
  lemma CapBindsIff(r: Registry, parse: IdParser, newId: nat -> EntityId, q: PlanRequest)
    requires Admits(r, q) && q.maxEntitiesModified <= U32_MAX
    ensures (forall payload ::
               Finalize(r, parse, q.tool, q.scope, q.maxEntitiesModified, Some(payload)).Ok?
               ==> |BuildOps(q.tool, parse, newId, payload)| <= q.maxEntitiesModified)
       <==> q.maxEntitiesModified < U32_MAX || !Lowers(q.tool)
  {
    hide Finalize, BuildOps, Precheck, Many, GrammarMatches, Passes, Lowers;
    if q.maxEntitiesModified < U32_MAX {
      forall payload | Finalize(r, parse, q.tool, q.scope, q.maxEntitiesModified, Some(payload)).Ok?
        ensures |BuildOps(q.tool, parse, newId, payload)| <= q.maxEntitiesModified
      {
        AcceptedWithinCaps(r, parse, newId, q, Some(payload));
        AcceptedIsParsed(r, parse, q, payload);
      }
    } else if Lowers(q.tool) {
      SaturationHidesOneMore(r, parse, newId, q, U32_MAX + 1);
    } else {
      forall payload ensures BuildOps(q.tool, parse, newId, payload) == [] {
        NothingLowered(q.tool, parse, newId, payload);
      }
    }
  }

  lemma NothingLowered(tool: Tool, parse: IdParser, newId: nat -> EntityId, payload: Json)
    requires !Lowers(tool)
    ensures BuildOps(tool, parse, newId, payload) == []
  { }

  lemma AcceptedIsParsed(r: Registry, parse: IdParser, q: PlanRequest, payload: Json)
    requires Finalize(r, parse, q.tool, q.scope, q.maxEntitiesModified, Some(payload)).Ok?
    ensures Finalize(r, parse, q.tool, q.scope, q.maxEntitiesModified, Some(payload)).value.parsed == payload
  {
    hide CountResponseEntities, Validate;
  }

  lemma {:induction false} CountAll(items: seq<Json>)
    ensures CountIf(items, _ => true) == |items|
  {
    if items != [] {
      CountAll(items[1..]);
    }
  }

  lemma {:induction false} CountFull(items: seq<Json>, pred: Json -> bool)
    ensures CountIf(items, pred) <= |items|
    ensures CountIf(items, pred) == |items| <==> forall i :: 0 <= i < |items| ==> pred(items[i])
  {
    if items != [] {
      CountFull(items[1..], pred);
      assert (forall i :: 0 <= i < |items| ==> pred(items[i])) ==> pred(items[0]) && forall i :: 0 <= i < |items[1..]| ==> pred(items[1..][i]);
      assert forall i :: 1 <= i < |items| ==> items[i] == items[1..][i - 1];
    }
  }

  /** A detected plan that matches its grammar loses no polyline on the way to operations. */
  lemma PlanGrammarIsLossless(parse: IdParser, newId: nat -> EntityId, parsed: Json)
    requires GrammarMatches("plan_detection", parsed)
    ensures |BuildOps(PlanDetection, parse, newId, parsed)| == |Items(parsed, "polylines")|
  {
    hide Lowered, CountIf;
    var items := Items(parsed, "polylines");
    forall i | 0 <= i < |items| ensures HasPoints(items[i]) {
      assert IsPolyline(items[i]);
    }
    WallOpMeaning();
    LoweredCount(items, 0, (i, p) => WallOp(p), HasPoints);
    CountFull(items, HasPoints);
  }

  /** The layout grammar lets proposals through that become no operation: those without an asset whose target does not parse. */
  lemma LayoutGrammarLosslessIff(parse: IdParser, newId: nat -> EntityId, parsed: Json)
    requires GrammarMatches("layout_suggestion", parsed)
    ensures var items := Items(parsed, "proposals");
            |BuildOps(LayoutSuggestion, parse, newId, parsed)| == |items|
            <==> forall i :: 0 <= i < |items| ==>
                   GetText(items[i], "asset_id").Some? || parse(GetText(items[i], "target_entity").value).Some?
  {
    hide Lowered, CountIf;
    var items := Items(parsed, "proposals");
    ProposalOpMeaning(parse, Anchor(parsed));
    LoweredCount(items, 0, (i, p) => ProposalOp(parse, Anchor(parsed), p), p => Placeable(parse, p));
    CountFull(items, p => Placeable(parse, p));
    forall i | 0 <= i < |items|
      ensures Placeable(parse, items[i]) <==> GetText(items[i], "asset_id").Some? || parse(GetText(items[i], "target_entity").value).Some?
    {
      assert IsProposal(items[i]);
    }
  }

  function Stray(target: Bytes): Json {
    Obj(map["position_mm" := Arr([Num(0.0), Num(0.0), Num(0.0)]), "target_entity" := Str(target)])
  }

  function StrayLayout(target: Bytes): Json {
    Obj(map["room_anchor" := Str("room"), "proposals" := Arr([Stray(target)])])
  }

  /** One proposal for a target nobody can read: the grammar is satisfied, and nothing is left of it. */
  lemma StrayProposalIsLost(parse: IdParser, newId: nat -> EntityId, target: Bytes)
    requires parse(target).None?
    ensures GrammarMatches("layout_suggestion", StrayLayout(target))
    ensures |Items(StrayLayout(target), "proposals")| == 1
    ensures BuildOps(LayoutSuggestion, parse, newId, StrayLayout(target)) == []
  {
    var p := Stray(target);
    assert IsTriple(Get(p, "position_mm")) && GetText(p, "target_entity") == Some(target) && GetText(p, "asset_id").None?;
    var items := Items(StrayLayout(target), "proposals");
    assert items == [p] && [p][1..] == [];
    assert Lowered(items, 0, (i, p) => ProposalOp(parse, Anchor(StrayLayout(target)), p)) == Listed(ProposalOp(parse, Anchor(StrayLayout(target)), p)) + [];
  }

  const NumberedStyle := Obj(map["furniture_ids" := Arr([Num(1.0)]), "material_ids" := Arr([]), "lighting_preset_id" := Str("dusk")])

  /** A number among the furniture ids: the grammar is satisfied, and only the preset is left. */
  lemma NumberedFurnitureIsLost(parse: IdParser, newId: nat -> EntityId)
    ensures GrammarMatches("style_assistant", NumberedStyle)
    ensures |Items(NumberedStyle, "furniture_ids")| == 1
    ensures BuildOps(StyleAssistant, parse, newId, NumberedStyle) == [Insert("lighting_preset", Obj(map["preset_id" := Str("dusk")]))]
  {
    var items := [Num(1.0)];
    assert Items(NumberedStyle, "furniture_ids") == items && Items(NumberedStyle, "material_ids") == [];
    assert items[1..] == [];
  }

  /** The style grammar says nothing about the elements: only string elements become operations. */
  lemma StyleGrammarLosslessIff(parse: IdParser, newId: nat -> EntityId, parsed: Json)
    requires GrammarMatches("style_assistant", parsed)
    ensures var f, m := Items(parsed, "furniture_ids"), Items(parsed, "material_ids");
            |BuildOps(StyleAssistant, parse, newId, parsed)| == |f| + |m| + 1
            <==> (forall i :: 0 <= i < |f| ==> f[i].Str?) && (forall i :: 0 <= i < |m| ==> m[i].Str?)
  {
    hide Lowered, CountIf;
    var f, m := Items(parsed, "furniture_ids"), Items(parsed, "material_ids");
    NamedOpMeaning();
    LoweredCount(f, 0, (i, v) => NamedOp("furniture", "asset_id", v), IsText);
    LoweredCount(m, 0, (i, v) => NamedOp("material_binding", "material_id", v), IsText);
    CountFull(f, IsText);
    CountFull(m, IsText);
  }

  // ----- The readers, the grammars and the gates in plain terms -----

  predicate HasKey(v: Json, key: Bytes) {
    v.Obj? && key in v.fields
  }

  predicate HasText(v: Json, key: Bytes) {
    HasKey(v, key) && v.fields[key].Str?
  }

  predicate HasList(v: Json, key: Bytes) {
    HasKey(v, key) && v.fields[key].Arr?
  }

  predicate HasNumber(v: Json, key: Bytes) {
    HasKey(v, key) && v.fields[key].Num?
  }

  /** Which elements become operations, and what the operations read from them. */
  lemma ReadersSay(parse: IdParser, v: Json, key: Bytes)
    ensures Items(v, key) == if HasList(v, key) then v.fields[key].items else []
    ensures OrNull(Get(v, key)) == if HasKey(v, key) then v.fields[key] else Null
    ensures GetText(v, key) == if HasText(v, key) then Some(v.fields[key].s) else None
    ensures HasPoints(v) <==> HasKey(v, "points")
    ensures IsText(v) <==> v.Str?
    ensures Target(parse, v) == if HasText(v, "target_entity") then parse(v.fields["target_entity"].s) else None
    ensures Placeable(parse, v) <==> (HasText(v, "target_entity") && parse(v.fields["target_entity"].s).Some?) || HasText(v, "asset_id")
    ensures Anchor(v) == if HasText(v, "room_anchor") then v.fields["room_anchor"] else Null
  { }

  predicate ThreeNumbers(v: Json, key: Bytes) {
    HasList(v, key) && |v.fields[key].items| == 3
    && v.fields[key].items[0].Num? && v.fields[key].items[1].Num? && v.fields[key].items[2].Num?
  }

  lemma IsTripleIff(v: Json, key: Bytes)
    ensures IsTriple(Get(v, key)) <==> ThreeNumbers(v, key)
  {
    if ThreeNumbers(v, key) {
      var items := v.fields[key].items;
      forall i | 0 <= i < 3 ensures items[i].Num? { }
    }
  }

  predicate PairOfCoordinates(v: Json) {
    v.Arr? && |v.items| == 2
  }

  /** A list of points, each a list of two. */
  ghost predicate PolylineShape(p: Json) {
    HasList(p, "points") && forall k :: 0 <= k < |p.fields["points"].items| ==> PairOfCoordinates(p.fields["points"].items[k])
  }

  ghost predicate ProposalShape(p: Json) {
    ThreeNumbers(p, "position_mm") && (HasText(p, "asset_id") || HasText(p, "target_entity"))
  }

  predicate FindingShape(f: Json) {
    HasText(f, "issue") && HasText(f, "severity")
  }

  /** What the four grammars of the tools with operations ask for. */
  lemma GrammarsSay(v: Json)
    ensures GrammarMatches("plan_detection", v)
       <==> HasList(v, "polylines") && forall i :: 0 <= i < |v.fields["polylines"].items| ==> PolylineShape(v.fields["polylines"].items[i])
    ensures GrammarMatches("style_assistant", v)
       <==> HasList(v, "furniture_ids") && HasList(v, "material_ids") && HasText(v, "lighting_preset_id")
    ensures GrammarMatches("layout_suggestion", v)
       <==> && HasText(v, "room_anchor") && HasList(v, "proposals")
            && forall i :: 0 <= i < |v.fields["proposals"].items| ==> ProposalShape(v.fields["proposals"].items[i])
    ensures GrammarMatches("render_doctor", v)
       <==> HasList(v, "findings") && forall i :: 0 <= i < |v.fields["findings"].items| ==> FindingShape(v.fields["findings"].items[i])
  {
    PlanGrammarSays(v);
    LayoutGrammarSays(v);
    DoctorGrammarSays(v);
  }

  lemma PlanGrammarSays(v: Json)
    ensures GrammarMatches("plan_detection", v)
       <==> HasList(v, "polylines") && forall i :: 0 <= i < |v.fields["polylines"].items| ==> PolylineShape(v.fields["polylines"].items[i])
  {
    forall p: Json ensures IsPolyline(p) <==> PolylineShape(p) {
      if PolylineShape(p) {
        var items := Items(p, "points");
        forall i | 0 <= i < |items| ensures IsPoint(items[i]) {
          assert PairOfCoordinates(items[i]);
        }
      }
      if IsPolyline(p) {
        var items := p.fields["points"].items;
        forall i | 0 <= i < |items| ensures PairOfCoordinates(items[i]) {
          assert IsPoint(Items(p, "points")[i]);
        }
      }
    }
    EachItem(v, "polylines", IsPolyline);
    hide IsPolyline, PolylineShape, ArrayOf;
  }

  lemma EachItem(v: Json, key: Bytes, pred: Json -> bool)
    ensures ArrayOf(v, key, pred) <==> HasList(v, key) && forall i :: 0 <= i < |v.fields[key].items| ==> pred(v.fields[key].items[i])
  {
    if HasList(v, key) {
      assert Items(v, key) == v.fields[key].items;
    }
  }

  lemma LayoutGrammarSays(v: Json)
    ensures GrammarMatches("layout_suggestion", v)
       <==> && HasText(v, "room_anchor") && HasList(v, "proposals")
            && forall i :: 0 <= i < |v.fields["proposals"].items| ==> ProposalShape(v.fields["proposals"].items[i])
  {
    forall p: Json ensures IsProposal(p) <==> ProposalShape(p) {
      IsTripleIff(p, "position_mm");
    }
    EachItem(v, "proposals", IsProposal);
    hide IsProposal, ProposalShape, ArrayOf;
  }

  lemma DoctorGrammarSays(v: Json)
    ensures GrammarMatches("render_doctor", v)
       <==> HasList(v, "findings") && forall i :: 0 <= i < |v.fields["findings"].items| ==> FindingShape(v.fields["findings"].items[i])
  {
    var pred := f => GetText(f, "issue").Some? && GetText(f, "severity").Some?;
    forall f: Json ensures pred(f) <==> FindingShape(f) { }
    EachItem(v, "findings", pred);
    assert ArrayOf(v, "findings", f => GetText(f, "issue").Some? && GetText(f, "severity").Some?) <==> ArrayOf(v, "findings", pred);
    hide FindingShape;
  }

  predicate AssignmentShape(a: Json) {
    HasText(a, "entity") && HasText(a, "ifc_class")
  }

  predicate LightShape(l: Json) {
    && ThreeNumbers(l, "position_mm") && HasText(l, "kind") && l.fields["kind"].s in {"area", "point"}
    && HasNumber(l, "intensity") && HasNumber(l, "color_temperature_k")
  }

  const KnownGrammars: set<Bytes> := {
    "plan_detection", "style_assistant", "layout_suggestion", "render_doctor", "cad_cleanup", "schedule_fill", "classification",
    "property_fill", "validation_help", "cover_page_draft", "lighting_balance"}

  /** What the grammars of the other tools ask for; a key without a matcher asks for nothing. */
  lemma OtherGrammarsSay(v: Json, key: Bytes)
    ensures GrammarMatches("cad_cleanup", v) <==> HasList(v, "operations")
    ensures GrammarMatches("schedule_fill", v) <==> HasList(v, "rows")
    ensures GrammarMatches("property_fill", v) <==> HasList(v, "psets")
    ensures GrammarMatches("validation_help", v) <==> HasList(v, "recommendations")
    ensures GrammarMatches("cover_page_draft", v) <==> HasText(v, "title") && HasText(v, "subtitle")
    ensures GrammarMatches("classification", v)
       <==> HasList(v, "assignments") && forall i :: 0 <= i < |v.fields["assignments"].items| ==> AssignmentShape(v.fields["assignments"].items[i])
    ensures GrammarMatches("lighting_balance", v)
       <==> && HasText(v, "rationale") && Trim(v.fields["rationale"].s) != "" && HasList(v, "suggested_accents")
            && forall i :: 0 <= i < |v.fields["suggested_accents"].items| ==> LightShape(v.fields["suggested_accents"].items[i])
    ensures key !in KnownGrammars ==> GrammarMatches(key, v)
  {
    hide Trim, GrammarMatches, HasList, HasText, LightShape, AssignmentShape;
    ListGrammarsSay(v);
    ClassificationSays(v);
    LightingSays(v);
    UnknownGrammarSays(v, key);
  }

  lemma ListGrammarsSay(v: Json)
    ensures GrammarMatches("cad_cleanup", v) <==> HasList(v, "operations")
    ensures GrammarMatches("schedule_fill", v) <==> HasList(v, "rows")
    ensures GrammarMatches("property_fill", v) <==> HasList(v, "psets")
    ensures GrammarMatches("validation_help", v) <==> HasList(v, "recommendations")
    ensures GrammarMatches("cover_page_draft", v) <==> HasText(v, "title") && HasText(v, "subtitle")
  { }

  lemma UnknownGrammarSays(v: Json, key: Bytes)
    ensures key !in KnownGrammars ==> GrammarMatches(key, v)
  {
    hide ArrayOf, GetText, GetArray, Trim;
  }

  lemma ClassificationSays(v: Json)
    ensures GrammarMatches("classification", v)
       <==> HasList(v, "assignments") && forall i :: 0 <= i < |v.fields["assignments"].items| ==> AssignmentShape(v.fields["assignments"].items[i])
  {
    var pred := a => GetText(a, "entity").Some? && GetText(a, "ifc_class").Some?;
    forall a: Json ensures pred(a) <==> AssignmentShape(a) { }
    EachItem(v, "assignments", pred);
    assert ArrayOf(v, "assignments", a => GetText(a, "entity").Some? && GetText(a, "ifc_class").Some?) <==> ArrayOf(v, "assignments", pred);
    hide AssignmentShape;
  }

  lemma LightingSays(v: Json)
    ensures GrammarMatches("lighting_balance", v)
       <==> && HasText(v, "rationale") && Trim(v.fields["rationale"].s) != "" && HasList(v, "suggested_accents")
            && forall i :: 0 <= i < |v.fields["suggested_accents"].items| ==> LightShape(v.fields["suggested_accents"].items[i])
  {
    hide Trim;
    forall l: Json ensures IsLight(l) <==> LightShape(l) {
      IsTripleIff(l, "position_mm");
    }
    EachItem(v, "suggested_accents", IsLight);
    hide IsLight, LightShape, ArrayOf;
  }

  /** The requests that are let through, and the reason for each that is not. */
  lemma PrecheckSays(r: Registry, q: PlanRequest)
    ensures q.tool !in r.schemas ==> Precheck(r, q) == Err(UnknownTool)
    ensures q.tool in r.schemas && q.scope !in r.schemas[q.tool].allowedScopes ==> Precheck(r, q) == Err(ScopeViolation)
    ensures q.tool in r.schemas && q.scope in r.schemas[q.tool].allowedScopes ==>
              var most := r.schemas[q.tool].maxEntities;
              Precheck(r, q) == if q.maxEntitiesModified <= most then Ok(()) else Err(BoundsExceeded(q.maxEntitiesModified, most))
  { }

  /**
   A response is accepted exactly when its operations, counted up to the 32-bit maximum, are no more than either cap, its
   scope is allowed, and it has its tool's shape and no flagged string.
   */
  lemma FinalizeIff(r: Registry, parse: IdParser, newId: nat -> EntityId, tool: Tool, scope: Scope, cap: nat, payload: Option<Json>)
    ensures Finalize(r, parse, tool, scope, cap, payload).Ok?
       <==> && payload.Some? && tool in r.schemas && scope in r.schemas[tool].allowedScopes
            && (var n := |BuildOps(tool, parse, newId, payload.value)|;
                (n <= cap || 4294967295 <= cap) && (n <= r.schemas[tool].maxEntities || 4294967295 <= r.schemas[tool].maxEntities))
            && r.schemas[tool].grammarKey in r.grammars
            && GrammarMatches(r.schemas[tool].grammarKey, payload.value)
            && Passes(payload.value)
  {
    hide CountResponseEntities, BuildOps, GrammarMatches, Passes;
    if payload.Some? {
      CountPredictsBuild(tool, parse, newId, payload.value);
    }
  }

  /** Why a response is refused, in the order of the checks. */
  lemma FinalizeRefuses(r: Registry, parse: IdParser, tool: Tool, scope: Scope, cap: nat, v: Json)
    ensures Finalize(r, parse, tool, scope, cap, None) == Err(Malformed)
    ensures var n := CountResponseEntities(tool, parse, v);
            var result := Finalize(r, parse, tool, scope, cap, Some(v));
            && (n > cap ==> result == Err(BoundsExceeded(n, cap)))
            && (n <= cap && tool !in r.schemas ==> result == Err(UnknownTool))
            && (n <= cap && tool in r.schemas ==>
                 var schema := r.schemas[tool];
                 && (scope !in schema.allowedScopes ==> result == Err(ScopeViolation))
                 && (scope in schema.allowedScopes && n > schema.maxEntities ==> result == Err(BoundsExceeded(n, schema.maxEntities)))
                 && (scope in schema.allowedScopes && n <= schema.maxEntities ==>
                      && (!(schema.grammarKey in r.grammars && GrammarMatches(schema.grammarKey, v)) ==> result == Err(GrammarMismatch))
                      && (schema.grammarKey in r.grammars && GrammarMatches(schema.grammarKey, v) ==>
                           result == if Passes(v) then Ok(PlanResponse(tool, v, n)) else Err(Exfiltration))))
  {
    hide CountResponseEntities, GrammarMatches, Passes;
  }
}
