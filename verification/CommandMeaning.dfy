/** What each command does to the graph, tool by tool, in terms of its literal arguments. */
module CommandMeaning {
  import opened Basics
  import opened CommandJournal

  /** The value under a key; in JavaScript a key set to undefined reads like one that is absent. */
  function Given(m: Fields, k: string): Option<JsValue> {
    if k in m && m[k] != Undefined then Some(m[k]) else None
  }

  predicate IsText(args: Fields, k: string) {
    k in args && args[k].Str?
  }

  predicate IsAbsent(args: Fields, k: string) {
    k !in args || args[k].Undefined? || args[k].Null?
  }

  /** Only the body of `x` changes, and in it at most the listed fields. */
  ghost predicate OnlyTouches(g: Entities, g': Entities, x: string, keys: set<string>) {
    && x in g && g'.Keys == g.Keys && (forall k :: k in g && k != x ==> g'[k] == g[k])
    && g'[x].id == g[x].id && g'[x].kind == g[x].kind && g'[x].parent == g[x].parent
    && g[x].body.Obj? && g'[x].body.Obj?
    && forall f :: f !in keys ==> Given(g'[x].body.fields, f) == Given(g[x].body.fields, f)
  }

  function BodyAt(g: Entities, x: string): Fields {
    if x in g && g[x].body.Obj? then g[x].body.fields else map[]
  }

  function ItemsAt(m: Fields, k: string): seq<JsValue> {
    if k in m && m[k].Arr? then m[k].items else []
  }

  ghost predicate WallMoved(g: Entities, args: Fields, g': Entities) {
    && IsText(args, "entity_id")
    && var x := args["entity_id"].s;
       && OnlyTouches(g, g', x, {"start_mm", "end_mm"})
       && Given(BodyAt(g', x), "start_mm") == Given(args, "new_start_mm")
       && Given(BodyAt(g', x), "end_mm") == Given(args, "new_end_mm")
  }

  /** The walls not removed stay, the added ones come; a name is taken over only if it is a string. */
  ghost predicate RoomModified(g: Entities, args: Fields, g': Entities) {
    && IsText(args, "entity_id")
    && var x := args["entity_id"].s;
       var before, after := BodyAt(g, x), BodyAt(g', x);
       && OnlyTouches(g, g', x, {"name", "wall_ids"})
       && Given(after, "name") == (if IsText(args, "name") then Some(args["name"]) else Given(before, "name"))
       && "wall_ids" in after && after["wall_ids"].Arr?
       && (forall w :: w in ItemsAt(after, "wall_ids")
            <==> (w in ItemsAt(before, "wall_ids") && w !in ItemsAt(args, "remove_wall_ids")) || w in ItemsAt(args, "add_wall_ids"))
       && (Distinct(ItemsAt(before, "wall_ids")) ==> Distinct(ItemsAt(after, "wall_ids")))
  }

  function Replaced(before: Fields, args: Fields, field: string, arg: string): Option<JsValue> {
    if Given(args, arg).Some? then Given(args, arg) else Given(before, field)
  }

  ghost predicate FloorModified(g: Entities, args: Fields, g': Entities) {
    && IsText(args, "entity_id")
    && var x := args["entity_id"].s;
       && OnlyTouches(g, g', x, {"boundary_mm", "thickness_mm", "material_id"})
       && Given(BodyAt(g', x), "boundary_mm") == Replaced(BodyAt(g, x), args, "boundary_mm", "new_boundary_mm")
       && Given(BodyAt(g', x), "thickness_mm") == Replaced(BodyAt(g, x), args, "thickness_mm", "new_thickness_mm")
       && Given(BodyAt(g', x), "material_id") == Replaced(BodyAt(g, x), args, "material_id", "new_material_id")
  }

  ghost predicate OpeningMoved(g: Entities, args: Fields, g': Entities) {
    && IsText(args, "entity_id")
    && var x := args["entity_id"].s;
       && OnlyTouches(g, g', x, {"position_along_wall_mm"})
       && Given(BodyAt(g', x), "position_along_wall_mm") == Given(args, "new_position_along_wall_mm")
  }

  /** Without a surface the whole entity gets the material, with one just that surface. */
  ghost predicate MaterialPainted(g: Entities, args: Fields, g': Entities) {
    && IsText(args, "target_entity_id") && IsText(args, "material_id")
    && var x, material := args["target_entity_id"].s, args["material_id"];
       var before, after := BodyAt(g, x), BodyAt(g', x);
       if IsAbsent(args, "surface") then
         OnlyTouches(g, g', x, {"material_id"}) && Given(after, "material_id") == Some(material)
       else
         && OnlyTouches(g, g', x, {"surface_materials"})
         && IsText(args, "surface") && "surface_materials" in after && after["surface_materials"].Obj?
         && var side := args["surface"].s;
            var sides := if "surface_materials" in before && before["surface_materials"].Obj? then before["surface_materials"].fields else map[];
            after["surface_materials"].fields == sides[side := material]
  }

  ghost predicate FinishSwapped(g: Entities, args: Fields, g': Entities) {
    && IsText(args, "target_entity_id")
    && var x := args["target_entity_id"].s;
       OnlyTouches(g, g', x, {"material_id"}) && Given(BodyAt(g', x), "material_id") == Given(args, "to_material_id")
  }

  ghost predicate CameraUpdated(g: Entities, args: Fields, g': Entities) {
    && IsText(args, "entity_id")
    && var x := args["entity_id"].s;
       OnlyTouches(g, g', x, {"params"}) && Given(BodyAt(g', x), "params") == Given(args, "params")
  }

  /** The one new record: its id the given or drawn one, its parent under the key the tool reads. */
  ghost predicate Created(g: Entities, c: Command, g': Entities, kind: string, parentKey: string, body: JsValue) {
    var x := if IsText(c.args, "entity_id") then c.args["entity_id"].s else c.nonce;
    var parent := if IsText(c.args, parentKey) then Some(c.args[parentKey].s) else None;
    g' == g[x := EntityRecord(x, kind, parent, body)]
  }

  ghost predicate Deleted(g: Entities, args: Fields, g': Entities) {
    && IsText(args, "entity_id") && args["entity_id"].s in g
    && g' == g - {args["entity_id"].s}
  }

  /** What an accepted command leaves behind. */
  ghost predicate Meant(g: Entities, c: Command, g': Entities) {
    match c.tool
    case CreateWall => Created(g, c, g', "wall", "parent", Obj(c.args))
    case CreateRoom => Created(g, c, g', "room", "parent", Obj(c.args))
    case CreateFloor => Created(g, c, g', "floor", "parent", Obj(c.args))
    case PlaceDoor => Created(g, c, g', "door", "host_wall_id", Obj(c.args))
    case PlaceWindow => Created(g, c, g', "window", "host_wall_id", Obj(c.args))
    case AddLight => "light" in c.args && Created(g, c, g', "light", "parent", c.args["light"])
    case SaveCamera => Created(g, c, g', "camera", "parent", Obj(c.args))
    case DeleteWall => Deleted(g, c.args, g')
    case DeleteOpening => Deleted(g, c.args, g')
    case RemoveLight => Deleted(g, c.args, g')
    case DeleteCamera => Deleted(g, c.args, g')
    case MoveWall => WallMoved(g, c.args, g')
    case ModifyRoom => RoomModified(g, c.args, g')
    case ModifyFloor => FloorModified(g, c.args, g')
    case MoveOpening => OpeningMoved(g, c.args, g')
    case PaintMaterial => MaterialPainted(g, c.args, g')
    case SwapFinish => FinishSwapped(g, c.args, g')
    case UpdateCamera => CameraUpdated(g, c.args, g')
    case SetLighting => g' == g
    case Other(_) => false
  }

  // ----- When a command is accepted -----

  predicate IsOptionalText(args: Fields, k: string) {
    IsAbsent(args, k) || IsText(args, k)
  }

  predicate IsOptionalList(args: Fields, k: string) {
    IsAbsent(args, k) || (k in args && args[k].Arr?)
  }

  predicate IsWord(args: Fields, k: string) {
    IsText(args, k) && exists c :: c in args[k].s && !IsJsSpace(c)
  }

  predicate Names(g: Entities, args: Fields, k: string) {
    IsText(args, k) && args[k].s != "" && args[k].s in g
  }

  predicate NamesObject(g: Entities, args: Fields, k: string) {
    Names(g, args, k) && g[args[k].s].body.Obj?
  }

  ghost predicate Acceptable(g: Entities, c: Command) {
    match c.tool
    case CreateWall => IsOptionalText(c.args, "entity_id") && IsOptionalText(c.args, "parent")
    case CreateRoom => IsOptionalText(c.args, "entity_id") && IsOptionalText(c.args, "parent")
    case CreateFloor => IsOptionalText(c.args, "entity_id") && IsOptionalText(c.args, "parent")
    case PlaceDoor => IsOptionalText(c.args, "entity_id") && IsOptionalText(c.args, "host_wall_id")
    case PlaceWindow => IsOptionalText(c.args, "entity_id") && IsOptionalText(c.args, "host_wall_id")
    case AddLight => IsOptionalText(c.args, "entity_id") && IsOptionalText(c.args, "parent") && Given(c.args, "light").Some?
    case SaveCamera => IsOptionalText(c.args, "entity_id") && IsOptionalText(c.args, "parent")
    case DeleteWall => Names(g, c.args, "entity_id")
    case DeleteOpening => Names(g, c.args, "entity_id")
    case RemoveLight => Names(g, c.args, "entity_id")
    case DeleteCamera => Names(g, c.args, "entity_id")
    case MoveWall => NamesObject(g, c.args, "entity_id")
    case ModifyRoom =>
      NamesObject(g, c.args, "entity_id") && IsOptionalList(c.args, "remove_wall_ids") && IsOptionalList(c.args, "add_wall_ids")
    case ModifyFloor => NamesObject(g, c.args, "entity_id")
    case MoveOpening => NamesObject(g, c.args, "entity_id")
    case PaintMaterial =>
      && NamesObject(g, c.args, "target_entity_id") && IsWord(c.args, "material_id") && IsOptionalText(c.args, "surface")
      && var body := BodyAt(g, c.args["target_entity_id"].s);
         IsText(c.args, "surface") && "surface_materials" in body ==> !body["surface_materials"].Str? && !body["surface_materials"].Arr?
    case SwapFinish => NamesObject(g, c.args, "target_entity_id")
    case UpdateCamera => NamesObject(g, c.args, "entity_id")
    case SetLighting => IsWord(c.args, "preset_id")
    case Other(_) => false
  }

  // ----- The engine does that -----

  lemma OneDeltaLeaves(s: EngineState, c: Command, d: EntityDelta)
    requires ForwardDeltas(s.entities, c) == Ok([d]) && ApplyOne(s.entities, d).Some?
    ensures ApplyStep(s, c).1.Done? && ApplyStep(s, c).0.entities == ApplyOne(s.entities, d).value
  {
    hide ForwardDeltas, ApplyOne;
    var g := ApplyOne(s.entities, d).value;
    assert [d][1..] == [] && ApplyAll(g, []) == Applied(g, None);
    assert ApplyAll(s.entities, [d]) == Applied(g, None);
  }

  function UpdateKey(t: Tool): string {
    if t.PaintMaterial? || t.SwapFinish? then "target_entity_id" else "entity_id"
  }

  lemma UpdateDelta(g: Entities, c: Command)
    requires IsUpdate(c.tool) && ForwardDeltas(g, c).Ok?
    ensures NamesObject(g, c.args, UpdateKey(c.tool))
    ensures var x := c.args[UpdateKey(c.tool)].s;
            && EditedBody(c.tool, c.args, BodyAt(g, x)).Ok?
            && ForwardDeltas(g, c) == Ok([Update(x, g[x].body, Obj(EditedBody(c.tool, c.args, BodyAt(g, x)).value))])
  {
    hide EditedBody;
  }

  lemma UpdateLeaves(s: EngineState, c: Command)
    requires IsUpdate(c.tool) && ForwardDeltas(s.entities, c).Ok?
    ensures NamesObject(s.entities, c.args, UpdateKey(c.tool))
    ensures var x := c.args[UpdateKey(c.tool)].s;
            && EditedBody(c.tool, c.args, BodyAt(s.entities, x)).Ok?
            && ApplyStep(s, c).1.Done?
            && ApplyStep(s, c).0.entities
               == s.entities[x := s.entities[x].(body := Obj(EditedBody(c.tool, c.args, BodyAt(s.entities, x)).value))]
  {
    hide EditedBody, ForwardDeltas;
    UpdateDelta(s.entities, c);
    OneDeltaLeaves(s, c, ForwardDeltas(s.entities, c).value[0]);
  }

  lemma BodySet(g: Entities, x: string, after: Fields, keys: set<string>)
    requires x in g && g[x].body.Obj? && forall f :: f !in keys ==> Given(after, f) == Given(g[x].body.fields, f)
    ensures OnlyTouches(g, g[x := g[x].(body := Obj(after))], x, keys)
    ensures BodyAt(g[x := g[x].(body := Obj(after))], x) == after
  { }

  lemma MoveWallMeans(g: Entities, c: Command)
    requires c.tool.MoveWall? && NamesObject(g, c.args, "entity_id")
    ensures var x := c.args["entity_id"].s;
            WallMoved(g, c.args, g[x := g[x].(body := Obj(EditedBody(c.tool, c.args, BodyAt(g, x)).value))])
  {
    var x := c.args["entity_id"].s;
    BodySet(g, x, EditedBody(c.tool, c.args, BodyAt(g, x)).value, {"start_mm", "end_mm"});
    hide OnlyTouches;
  }

  lemma ModifyRoomMeans(g: Entities, c: Command)
    requires c.tool.ModifyRoom? && NamesObject(g, c.args, "entity_id")
    requires EditedBody(c.tool, c.args, BodyAt(g, c.args["entity_id"].s)).Ok?
    ensures var x := c.args["entity_id"].s;
            RoomModified(g, c.args, g[x := g[x].(body := Obj(EditedBody(c.tool, c.args, BodyAt(g, x)).value))])
  {
    hide MergedWalls, Distinct;
    var x := c.args["entity_id"].s;
    var body := BodyAt(g, x);
    BodySet(g, x, EditedBody(c.tool, c.args, body).value, {"name", "wall_ids"});
    MergedWallsMeaning(ItemsAt(body, "wall_ids"), ItemsAt(c.args, "remove_wall_ids"), ItemsAt(c.args, "add_wall_ids"));
    hide OnlyTouches;
  }

  lemma ModifyFloorMeans(g: Entities, c: Command)
    requires c.tool.ModifyFloor? && NamesObject(g, c.args, "entity_id")
    ensures var x := c.args["entity_id"].s;
            FloorModified(g, c.args, g[x := g[x].(body := Obj(EditedBody(c.tool, c.args, BodyAt(g, x)).value))])
  {
    var x := c.args["entity_id"].s;
    BodySet(g, x, EditedBody(c.tool, c.args, BodyAt(g, x)).value, {"boundary_mm", "thickness_mm", "material_id"});
    hide OnlyTouches;
  }

  lemma MoveOpeningMeans(g: Entities, c: Command)
    requires c.tool.MoveOpening? && NamesObject(g, c.args, "entity_id")
    ensures var x := c.args["entity_id"].s;
            OpeningMoved(g, c.args, g[x := g[x].(body := Obj(EditedBody(c.tool, c.args, BodyAt(g, x)).value))])
  {
    var x := c.args["entity_id"].s;
    BodySet(g, x, EditedBody(c.tool, c.args, BodyAt(g, x)).value, {"position_along_wall_mm"});
    hide OnlyTouches;
  }

  lemma PaintMeans(g: Entities, c: Command)
    requires c.tool.PaintMaterial? && NamesObject(g, c.args, "target_entity_id")
    requires EditedBody(c.tool, c.args, BodyAt(g, c.args["target_entity_id"].s)).Ok?
    ensures var x := c.args["target_entity_id"].s;
            MaterialPainted(g, c.args, g[x := g[x].(body := Obj(EditedBody(c.tool, c.args, BodyAt(g, x)).value))])
  {
    hide IsBlank;
    var x := c.args["target_entity_id"].s;
    BodySet(g, x, EditedBody(c.tool, c.args, BodyAt(g, x)).value,
            if IsAbsent(c.args, "surface") then {"material_id"} else {"surface_materials"});
    hide OnlyTouches;
  }

  lemma SwapFinishMeans(g: Entities, c: Command)
    requires c.tool.SwapFinish? && NamesObject(g, c.args, "target_entity_id")
    ensures var x := c.args["target_entity_id"].s;
            FinishSwapped(g, c.args, g[x := g[x].(body := Obj(EditedBody(c.tool, c.args, BodyAt(g, x)).value))])
  {
    var x := c.args["target_entity_id"].s;
    BodySet(g, x, EditedBody(c.tool, c.args, BodyAt(g, x)).value, {"material_id"});
    hide OnlyTouches;
  }

  lemma UpdateCameraMeans(g: Entities, c: Command)
    requires c.tool.UpdateCamera? && NamesObject(g, c.args, "entity_id")
    ensures var x := c.args["entity_id"].s;
            CameraUpdated(g, c.args, g[x := g[x].(body := Obj(EditedBody(c.tool, c.args, BodyAt(g, x)).value))])
  {
    var x := c.args["entity_id"].s;
    BodySet(g, x, EditedBody(c.tool, c.args, BodyAt(g, x)).value, {"params"});
    hide OnlyTouches;
  }

  lemma UpdateMeans(s: EngineState, c: Command)
    requires IsUpdate(c.tool) && ForwardDeltas(s.entities, c).Ok?
    ensures ApplyStep(s, c).1.Done? && Meant(s.entities, c, ApplyStep(s, c).0.entities)
  {
    hide EditedBody, ForwardDeltas, ApplyStep, NamesObject, WallMoved, RoomModified, FloorModified, OpeningMoved,
      MaterialPainted, FinishSwapped, CameraUpdated;
    UpdateLeaves(s, c);
    match c.tool
    case MoveWall => MoveWallMeans(s.entities, c);
    case ModifyRoom => ModifyRoomMeans(s.entities, c);
    case ModifyFloor => ModifyFloorMeans(s.entities, c);
    case MoveOpening => MoveOpeningMeans(s.entities, c);
    case PaintMaterial => PaintMeans(s.entities, c);
    case SwapFinish => SwapFinishMeans(s.entities, c);
    case UpdateCamera => UpdateCameraMeans(s.entities, c);
  }

  lemma CreateDelta(g: Entities, c: Command)
    requires IsCreate(c.tool) && ForwardDeltas(g, c).Ok?
    ensures exists r: EntityRecord :: ForwardDeltas(g, c) == Ok([Create(r)]) && Meant(g, c, g[r.id := r])
  {
    var ds := ForwardDeltas(g, c).value;
    var r := ds[0].record;
    assert ds == [Create(r)];
    assert r.id == (if IsText(c.args, "entity_id") then c.args["entity_id"].s else c.nonce);
    var key := if c.tool.PlaceDoor? || c.tool.PlaceWindow? then "host_wall_id" else "parent";
    assert r.parent == if IsText(c.args, key) then Some(c.args[key].s) else None;
    assert r.body == if c.tool.AddLight? then c.args["light"] else Obj(c.args);
    assert r.kind == KindOf(c.tool);
    assert Created(g, c, g[r.id := r], r.kind, key, r.body);
  }

  lemma CreateMeans(s: EngineState, c: Command)
    requires IsCreate(c.tool) && ForwardDeltas(s.entities, c).Ok?
    ensures ApplyStep(s, c).1.Done? && Meant(s.entities, c, ApplyStep(s, c).0.entities)
  {
    hide ForwardDeltas, Meant;
    CreateDelta(s.entities, c);
    var r: EntityRecord :| ForwardDeltas(s.entities, c) == Ok([Create(r)]) && Meant(s.entities, c, s.entities[r.id := r]);
    OneDeltaLeaves(s, c, Create(r));
  }

  lemma DeleteDelta(g: Entities, c: Command)
    requires KeysMatch(g) && IsDelete(c.tool) && ForwardDeltas(g, c).Ok?
    ensures Names(g, c.args, "entity_id")
    ensures ForwardDeltas(g, c) == Ok([Delete(g[c.args["entity_id"].s])])
  { }

  lemma DeleteMeans(s: EngineState, c: Command)
    requires KeysMatch(s.entities) && IsDelete(c.tool) && ForwardDeltas(s.entities, c).Ok?
    ensures ApplyStep(s, c).1.Done? && Meant(s.entities, c, ApplyStep(s, c).0.entities)
  {
    hide ForwardDeltas;
    DeleteDelta(s.entities, c);
    OneDeltaLeaves(s, c, Delete(s.entities[c.args["entity_id"].s]));
  }

  lemma LightingMeans(s: EngineState, c: Command)
    requires !IsUpdate(c.tool) && !IsCreate(c.tool) && !IsDelete(c.tool) && ForwardDeltas(s.entities, c).Ok?
    ensures ApplyStep(s, c).1.Done? && Meant(s.entities, c, ApplyStep(s, c).0.entities)
  { }

  lemma AcceptedMeans(s: EngineState, c: Command)
    requires KeysMatch(s.entities) && ForwardDeltas(s.entities, c).Ok?
    ensures ApplyStep(s, c).1.Done? && Meant(s.entities, c, ApplyStep(s, c).0.entities)
  {
    hide Meant, ForwardDeltas, ApplyStep;
    if IsUpdate(c.tool) {
      UpdateMeans(s, c);
    } else if IsCreate(c.tool) {
      CreateMeans(s, c);
    } else if IsDelete(c.tool) {
      DeleteMeans(s, c);
    } else {
      LightingMeans(s, c);
    }
  }

  /** An accepted command does to the graph what its tool means, and a refused one changes nothing. */
  lemma AppliedCommandMeans(s: EngineState, c: Command)
    requires KeysMatch(s.entities)
    ensures ApplyStep(s, c).1.Done? ==> Meant(s.entities, c, ApplyStep(s, c).0.entities)
    ensures ApplyStep(s, c).1.Rejected? ==> ApplyStep(s, c).0 == s
  {
    hide Meant, ForwardDeltas;
    if ForwardDeltas(s.entities, c).Ok? {
      AcceptedMeans(s, c);
    }
  }

  /** Which commands are accepted. */
  lemma AcceptedIff(s: EngineState, c: Command)
    requires KeysMatch(s.entities)
    ensures ApplyStep(s, c).1.Done? <==> Acceptable(s.entities, c)
  {
    hide ForwardDeltas, Acceptable, Meant;
    if ForwardDeltas(s.entities, c).Ok? {
      AcceptedMeans(s, c);
    }
    DeltasIff(s.entities, c);
  }

  lemma DeltasIff(g: Entities, c: Command)
    ensures ForwardDeltas(g, c).Ok? <==> Acceptable(g, c)
  {
    if IsUpdate(c.tool) {
      UpdateDeltasIff(g, c);
    }
  }

  lemma UpdateDeltasIff(g: Entities, c: Command)
    requires IsUpdate(c.tool)
    ensures ForwardDeltas(g, c).Ok? <==> Acceptable(g, c)
  {
    hide MergedWalls;
  }

  // ----- Why a command is refused -----

  /** The key an update or delete reads its entity from. */
  predicate ReadsTargetFrom(t: Tool, key: string) {
    match t
    case PaintMaterial => key == "target_entity_id"
    case SwapFinish => key == "target_entity_id"
    case _ => key == "entity_id" && (IsUpdate(t) || IsDelete(t))
  }

  /** No id or an empty one, an id that names nothing, and a stored body that is no object. */
  lemma TargetRefusals(s: EngineState, c: Command, key: string)
    requires ReadsTargetFrom(c.tool, key)
    ensures IsAbsent(c.args, key) || (IsText(c.args, key) && c.args[key].s == "") ==> ApplyStep(s, c) == (s, Rejected(MissingId))
    ensures IsText(c.args, key) && c.args[key].s != "" && c.args[key].s !in s.entities ==>
              ApplyStep(s, c) == (s, Rejected(EntityNotFound(c.args[key].s)))
    ensures Names(s.entities, c.args, key) && IsUpdate(c.tool) && !c.tool.PaintMaterial? && !s.entities[c.args[key].s].body.Obj? ==>
              ApplyStep(s, c) == (s, Rejected(BodyNotObject))
  {
    hide EditedBody;
  }

  /** A material is looked at before the stored body is. */
  lemma PaintRefusals(s: EngineState, c: Command)
    requires c.tool.PaintMaterial? && Names(s.entities, c.args, "target_entity_id")
    ensures IsOptionalText(c.args, "material_id") && !IsWord(c.args, "material_id") ==> ApplyStep(s, c) == (s, Rejected(EmptyMaterial))
    ensures IsWord(c.args, "material_id") && !s.entities[c.args["target_entity_id"].s].body.Obj? ==>
              ApplyStep(s, c) == (s, Rejected(BodyNotObject))
  {
    hide EditedBody;
  }

  lemma OtherRefusals(s: EngineState, c: Command)
    ensures c.tool.AddLight? && IsOptionalText(c.args, "entity_id") && IsOptionalText(c.args, "parent") && Given(c.args, "light").None? ==>
              ApplyStep(s, c) == (s, Rejected(MissingLight))
    ensures c.tool.SetLighting? && IsOptionalText(c.args, "preset_id") && !IsWord(c.args, "preset_id") ==>
              ApplyStep(s, c) == (s, Rejected(EmptyPreset))
    ensures c.tool.Other? ==> ApplyStep(s, c) == (s, Rejected(UnsupportedTool(c.tool.name)))
  { }
}
