/**
 The in-process command engine: a graph of entity records, the deltas a command
 turns into, and the undo/redo journal that records them.
 */
module CommandJournal {
  import opened Basics

  // ----- Entities and deltas -----

  /** A JavaScript value as far as entity bodies and command arguments use it. */
  datatype JsValue =
    | Undefined
    | Null
    | Bool(b: bool)
    | Num(n: real)
    | Str(s: string)
    | Arr(items: seq<JsValue>)
    | Obj(fields: map<string, JsValue>)

  type Fields = map<string, JsValue>

  datatype EntityRecord = EntityRecord(id: string, kind: string, parent: Option<string>, body: JsValue)

  datatype EntityDelta =
    | Create(record: EntityRecord)
    | Update(id: string, before: JsValue, after: JsValue)
    | Delete(record: EntityRecord)

  type Entities = map<string, EntityRecord>

  datatype EngineError =
    | MissingId
    | EntityNotFound(id: string)
    | BodyNotObject
    | MissingLight
    | EmptyMaterial
    | EmptyPreset
    | IllTyped(field: string)
    | UnsupportedTool(name: string)
    | UpdateNotFound(id: string)
    | NothingToUndo
    | NothingToRedo
    | ScopeMismatch(expected: Scope, got: Scope)

  datatype Scope = Design | Draft | Bim | Render | Deliver

  /** Every record is filed under its own id. */
  ghost predicate KeysMatch(g: Entities) {
    forall k :: k in g ==> g[k].id == k
  }

  /** One delta; only an update can fail, and then nothing changed. */
  function ApplyOne(g: Entities, d: EntityDelta): Option<Entities> {
    match d
    case Create(r) => Some(g[r.id := r])
    case Update(id, _, after) => if id in g then Some(g[id := g[id].(body := after)]) else None
    case Delete(r) => Some(g - {r.id})
  }

  /** The graph a batch leaves behind, and the id of the update that stopped it. */
  datatype Applied = Applied(entities: Entities, missing: Option<string>)

  function ApplyAll(g: Entities, ds: seq<EntityDelta>): Applied
    decreases ds
  {
    if ds == [] then Applied(g, None)
    else
      match ApplyOne(g, ds[0])
      case None => Applied(g, Some(ds[0].id))
      case Some(g') => ApplyAll(g', ds[1..])
  }

  function Invert(d: EntityDelta): EntityDelta {
    match d
    case Create(r) => Delete(r)
    case Update(id, before, after) => Update(id, after, before)
    case Delete(r) => Create(r)
  }

  function InvertAll(ds: seq<EntityDelta>): seq<EntityDelta> {
    if ds == [] then [] else InvertAll(ds[1..]) + [Invert(ds[0])]
  }

  /** What a delta says about the graph is true of it. */
  ghost predicate FitsOne(g: Entities, d: EntityDelta) {
    match d
    case Create(r) => r.id !in g
    case Update(id, before, _) => id in g && g[id].body == before
    case Delete(r) => r.id in g && g[r.id] == r
  }

  /** Each delta of the batch fits the graph its predecessors leave. */
  ghost predicate Fits(g: Entities, ds: seq<EntityDelta>)
    decreases ds
  {
    ds == [] || (FitsOne(g, ds[0]) && Fits(ApplyOne(g, ds[0]).value, ds[1..]))
  }

  // ----- Reversal of delta batches -----

  lemma {:induction false} ApplyAllConcat(g: Entities, a: seq<EntityDelta>, b: seq<EntityDelta>)
    requires ApplyAll(g, a).missing.None?
    ensures ApplyAll(g, a + b) == ApplyAll(ApplyAll(g, a).entities, b)
    decreases a
  {
    if a == [] {
      assert a + b == b;
    } else {
      assert (a + b)[1..] == a[1..] + b;
      ApplyAllConcat(ApplyOne(g, a[0]).value, a[1..], b);
    }
  }

  lemma {:induction false} FitsConcat(g: Entities, a: seq<EntityDelta>, b: seq<EntityDelta>)
    requires Fits(g, a)
    ensures ApplyAll(g, a).missing.None?
    ensures Fits(g, a + b) <==> Fits(ApplyAll(g, a).entities, b)
    decreases a
  {
    if a == [] {
      assert a + b == b;
    } else {
      assert (a + b)[1..] == a[1..] + b;
      FitsConcat(ApplyOne(g, a[0]).value, a[1..], b);
    }
  }

  lemma {:induction false} InvertAllConcat(a: seq<EntityDelta>, b: seq<EntityDelta>)
    ensures InvertAll(a + b) == InvertAll(b) + InvertAll(a)
  {
    if a == [] {
      assert a + b == b;
    } else {
      assert (a + b)[1..] == a[1..] + b;
      InvertAllConcat(a[1..], b);
    }
  }

  /** Inverting a batch twice gives the batch back, order included. */
  lemma {:induction false} InvertAllTwice(ds: seq<EntityDelta>)
    ensures InvertAll(InvertAll(ds)) == ds
  {
    if ds != [] {
      InvertAllConcat(InvertAll(ds[1..]), [Invert(ds[0])]);
      InvertAllTwice(ds[1..]);
      assert InvertAll([Invert(ds[0])]) == [ds[0]];
    }
  }

  /** One delta and its inverse cancel exactly when the delta fits the graph. */
  lemma OneCancelsIffFits(g: Entities, d: EntityDelta)
    requires KeysMatch(g)
    requires ApplyOne(g, d).Some?
    ensures ApplyAll(ApplyOne(g, d).value, [Invert(d)]) == Applied(g, None) <==> FitsOne(g, d)
  {
    var g1 := ApplyOne(g, d).value;
    var back := ApplyOne(g1, Invert(d));
    assert back.Some?;
    assert [Invert(d)][1..] == [];
    match d
    case Create(r) =>
      assert back.value == g1 - {r.id};
      if r.id !in g { assert back.value == g; }
    case Update(id, before, after) =>
      assert back.value[id].body == before;
      if g[id].body == before {
        assert back.value[id] == g[id];
        assert back.value == g;
      }
    case Delete(r) =>
      assert back.value[r.id] == r;
      if r.id in g && g[r.id] == r { assert back.value == g; }
  }

  lemma OneReverses(g: Entities, d: EntityDelta)
    requires FitsOne(g, d)
    ensures FitsOne(ApplyOne(g, d).value, Invert(d))
    ensures ApplyOne(ApplyOne(g, d).value, Invert(d)) == Some(g)
  {
    var g1 := ApplyOne(g, d).value;
    var back := ApplyOne(g1, Invert(d)).value;
    match d
    case Create(r) => assert back == g;
    case Update(id, before, _) => assert back[id] == g[id]; assert back == g;
    case Delete(r) => assert back == g;
  }

  /**
   A batch that fits applies without throwing, its reversed inverse fits what it
   leaves, and applying that restores the exact entity map.
   */
  lemma {:induction false} BatchReverses(g: Entities, ds: seq<EntityDelta>)
    requires Fits(g, ds)
    ensures ApplyAll(g, ds).missing.None?
    ensures Fits(ApplyAll(g, ds).entities, InvertAll(ds))
    ensures ApplyAll(ApplyAll(g, ds).entities, InvertAll(ds)) == Applied(g, None)
    decreases ds
  {
    if ds != [] {
      var g1 := ApplyOne(g, ds[0]).value;
      OneReverses(g, ds[0]);
      BatchReverses(g1, ds[1..]);
      var last := [Invert(ds[0])];
      assert last[1..] == [];
      var end := ApplyAll(g1, ds[1..]).entities;
      FitsConcat(end, InvertAll(ds[1..]), last);
      ApplyAllConcat(end, InvertAll(ds[1..]), last);
    }
  }

  lemma {:induction false} ApplyAllKeepsKeys(g: Entities, ds: seq<EntityDelta>)
    requires KeysMatch(g)
    ensures KeysMatch(ApplyAll(g, ds).entities)
    decreases ds
  {
    if ds != [] {
      match ApplyOne(g, ds[0])
      case None =>
      case Some(g1) => ApplyAllKeepsKeys(g1, ds[1..]);
    }
  }

  // ----- From commands to deltas -----

  datatype Tool =
    | CreateWall | CreateRoom | CreateFloor | PlaceDoor | PlaceWindow | AddLight | SaveCamera
    | DeleteWall | DeleteOpening | RemoveLight | DeleteCamera
    | MoveWall | ModifyRoom | ModifyFloor | MoveOpening | PaintMaterial | SwapFinish | UpdateCamera
    | SetLighting
    | Other(name: string)

  /** `nonce` is the random id the engine would draw for a create without an id. */
  datatype Command = Command(commandId: string, scope: Scope, tool: Tool, args: Fields, nonce: string)

  predicate IsCreate(t: Tool) {
    t.CreateWall? || t.CreateRoom? || t.CreateFloor? || t.PlaceDoor? || t.PlaceWindow? || t.AddLight? || t.SaveCamera?
  }

  predicate IsDelete(t: Tool) {
    t.DeleteWall? || t.DeleteOpening? || t.RemoveLight? || t.DeleteCamera?
  }

  predicate IsUpdate(t: Tool) {
    t.MoveWall? || t.ModifyRoom? || t.ModifyFloor? || t.MoveOpening? || t.PaintMaterial? || t.SwapFinish? || t.UpdateCamera?
  }

  function KindOf(t: Tool): string
    requires IsCreate(t)
  {
    match t
    case CreateWall => "wall"
    case CreateRoom => "room"
    case CreateFloor => "floor"
    case PlaceDoor => "door"
    case PlaceWindow => "window"
    case AddLight => "light"
    case _ => "camera"
  }

  function Field(m: Fields, k: string): JsValue {
    if k in m then m[k] else Undefined
  }

  /** A string argument: absent, present, or of another type than the code casts it to. */
  function TextArg(args: Fields, k: string): Result<Option<string>, EngineError> {
    match Field(args, k)
    case Undefined => Ok(None)
    case Null => Ok(None)
    case Str(s) => Ok(Some(s))
    case _ => Err(IllTyped(k))
  }

  function ListArg(args: Fields, k: string): Result<seq<JsValue>, EngineError> {
    match Field(args, k)
    case Undefined => Ok([])
    case Null => Ok([])
    case Arr(items) => Ok(items)
    case _ => Err(IllTyped(k))
  }

  /** The whitespace that JavaScript's `trim` removes. */
  predicate IsJsSpace(c: char) {
    var n := c as int;
    9 <= n <= 13 || n == 32 || n == 0xA0 || n == 0x1680 || 0x2000 <= n <= 0x200A || n == 0x2028 || n == 0x2029
    || n == 0x202F || n == 0x205F || n == 0x3000 || n == 0xFEFF
  }

  predicate IsBlank(s: string) {
    forall c :: c in s ==> IsJsSpace(c)
  }

  function RequiredText(args: Fields, k: string, err: EngineError): Result<string, EngineError> {
    var t :- TextArg(args, k);
    match t
    case None => Err(err)
    case Some(s) => if IsBlank(s) then Err(err) else Ok(s)
  }

  function FindTarget(g: Entities, args: Fields, k: string): Result<(string, EntityRecord), EngineError> {
    var t :- TextArg(args, k);
    match t
    case None => Err(MissingId)
    case Some(id) => if id == "" then Err(MissingId) else if id !in g then Err(EntityNotFound(id)) else Ok((id, g[id]))
  }

  function ObjectBody(body: JsValue): Result<Fields, EngineError> {
    if body.Obj? then Ok(body.fields) else Err(BodyNotObject)
  }

  function Set(m: Fields, k: string, v: JsValue): Fields {
    m[k := v]
  }

  function SetIfDefined(m: Fields, k: string, v: JsValue): Fields {
    if v.Undefined? then m else m[k := v]
  }

  // The wall list of a room: drop the removed ids, then append the added ones not yet there.

  function Without(ws: seq<JsValue>, remove: seq<JsValue>): seq<JsValue> {
    if ws == [] then []
    else (if ws[0] in remove then [] else [ws[0]]) + Without(ws[1..], remove)
  }

  function AppendNew(ws: seq<JsValue>, add: seq<JsValue>): seq<JsValue>
    decreases add
  {
    if add == [] then ws
    else AppendNew(if add[0] in ws then ws else ws + [add[0]], add[1..])
  }

  function MergedWalls(ws: seq<JsValue>, remove: seq<JsValue>, add: seq<JsValue>): seq<JsValue> {
    AppendNew(Without(ws, remove), add)
  }

  method MergeWallIds(existing: seq<JsValue>, remove: seq<JsValue>, add: seq<JsValue>) returns (merged: seq<JsValue>)
    ensures merged == MergedWalls(existing, remove, add)
  {
    merged := Without(existing, remove);
    var i := 0;
    while i < |add|
      invariant 0 <= i <= |add|
      invariant AppendNew(merged, add[i..]) == MergedWalls(existing, remove, add)
    {
      assert add[i..][1..] == add[i + 1..];
      if add[i] !in merged {
        merged := merged + [add[i]];
      }
      i := i + 1;
    }
  }

  lemma {:induction false} WithoutMembers(ws: seq<JsValue>, remove: seq<JsValue>)
    ensures forall w :: w in Without(ws, remove) <==> w in ws && w !in remove
    ensures Distinct(ws) ==> Distinct(Without(ws, remove))
  {
    if ws != [] {
      WithoutMembers(ws[1..], remove);
      var rest := Without(ws[1..], remove);
      assert forall w :: w in ws <==> w == ws[0] || w in ws[1..];
      if Distinct(ws) {
        assert ws[0] !in ws[1..];
      }
    }
  }

  lemma {:induction false} AppendNewMembers(ws: seq<JsValue>, add: seq<JsValue>)
    ensures forall w :: w in AppendNew(ws, add) <==> w in ws || w in add
    ensures ws <= AppendNew(ws, add)
    ensures Distinct(ws) ==> Distinct(AppendNew(ws, add))
    decreases add
  {
    if add != [] {
      AppendNewMembers(if add[0] in ws then ws else ws + [add[0]], add[1..]);
    }
  }

  /**
   The merged list holds exactly the surviving and the added walls, keeps the
   survivors first and in order, and repeats no wall unless the stored list did.
   */
  lemma MergedWallsMeaning(ws: seq<JsValue>, remove: seq<JsValue>, add: seq<JsValue>)
    ensures forall w :: w in MergedWalls(ws, remove, add) <==> (w in ws && w !in remove) || w in add
    ensures Without(ws, remove) <= MergedWalls(ws, remove, add)
    ensures Distinct(ws) ==> Distinct(MergedWalls(ws, remove, add))
  {
    WithoutMembers(ws, remove);
    AppendNewMembers(Without(ws, remove), add);
  }

  /** The body an update command leaves, from the stored one. */
  function EditedBody(t: Tool, args: Fields, body: Fields): Result<Fields, EngineError>
    requires IsUpdate(t)
  {
    match t
    case MoveWall =>
      Ok(Set(Set(body, "start_mm", Field(args, "new_start_mm")), "end_mm", Field(args, "new_end_mm")))
    case ModifyRoom =>
      var remove :- ListArg(args, "remove_wall_ids");
      var add :- ListArg(args, "add_wall_ids");
      var named := if Field(args, "name").Str? then Set(body, "name", args["name"]) else body;
      var walls := match Field(body, "wall_ids") { case Arr(items) => items case _ => [] };
      Ok(Set(named, "wall_ids", Arr(MergedWalls(walls, remove, add))))
    case ModifyFloor =>
      var b1 := SetIfDefined(body, "boundary_mm", Field(args, "new_boundary_mm"));
      var b2 := SetIfDefined(b1, "thickness_mm", Field(args, "new_thickness_mm"));
      Ok(SetIfDefined(b2, "material_id", Field(args, "new_material_id")))
    case MoveOpening =>
      Ok(Set(body, "position_along_wall_mm", Field(args, "new_position_along_wall_mm")))
    case PaintMaterial =>
      var material :- RequiredText(args, "material_id", EmptyMaterial);
      var surface :- TextArg(args, "surface");
      (match surface
       case None => Ok(Set(body, "material_id", Str(material)))
       case Some(side) =>
         match Field(body, "surface_materials")
         case Obj(sides) => Ok(Set(body, "surface_materials", Obj(Set(sides, side, Str(material)))))
         case Str(_) => Err(IllTyped("surface_materials"))
         case Arr(_) => Err(IllTyped("surface_materials"))
         case _ => Ok(Set(body, "surface_materials", Obj(map[side := Str(material)]))))
    case SwapFinish => Ok(Set(body, "material_id", Field(args, "to_material_id")))
    case UpdateCamera => Ok(Set(body, "params", Field(args, "params")))
  }

  /** The body fields an update command may write. */
  function EditedKeys(t: Tool): set<string>
    requires IsUpdate(t)
  {
    match t
    case MoveWall => {"start_mm", "end_mm"}
    case ModifyRoom => {"name", "wall_ids"}
    case ModifyFloor => {"boundary_mm", "thickness_mm", "material_id"}
    case MoveOpening => {"position_along_wall_mm"}
    case PaintMaterial => {"material_id", "surface_materials"}
    case SwapFinish => {"material_id"}
    case UpdateCamera => {"params"}
  }

  function TargetKey(t: Tool): string {
    if t.PaintMaterial? || t.SwapFinish? then "target_entity_id" else "entity_id"
  }

  function CreateId(c: Command): Result<string, EngineError> {
    var t :- TextArg(c.args, "entity_id");
    Ok(match t case Some(id) => id case None => c.nonce)
  }

  function ForwardDeltas(g: Entities, c: Command): Result<seq<EntityDelta>, EngineError> {
    if IsCreate(c.tool) then
      var id :- CreateId(c);
      var parent :- TextArg(c.args, if c.tool.PlaceDoor? || c.tool.PlaceWindow? then "host_wall_id" else "parent");
      if c.tool.AddLight? then
        if Field(c.args, "light").Undefined? then Err(MissingLight)
        else Ok([Create(EntityRecord(id, KindOf(c.tool), parent, c.args["light"]))])
      else
        Ok([Create(EntityRecord(id, KindOf(c.tool), parent, Obj(c.args)))])
    else if IsDelete(c.tool) then
      var (_, existing) :- FindTarget(g, c.args, "entity_id");
      Ok([Delete(existing)])
    else if IsUpdate(c.tool) then
      var (id, existing) :- FindTarget(g, c.args, TargetKey(c.tool));
      // Paint looks at its material before it looks at the stored body.
      var _ :- if c.tool.PaintMaterial? then RequiredText(c.args, "material_id", EmptyMaterial) else Ok("");
      var body :- ObjectBody(existing.body);
      var after :- EditedBody(c.tool, c.args, body);
      Ok([Update(id, existing.body, Obj(after))])
    else if c.tool.SetLighting? then
      var _ :- RequiredText(c.args, "preset_id", EmptyPreset);
      Ok([])
    else
      Err(UnsupportedTool(c.tool.name))
  }

  /** The caller's side of a create: the id it uses names nothing yet. */
  predicate UsesFreshId(g: Entities, c: Command) {
    IsCreate(c.tool) ==> match CreateId(c) { case Ok(id) => id !in g case Err(_) => true }
  }

  lemma UpdateShape(g: Entities, c: Command)
    requires KeysMatch(g) && IsUpdate(c.tool) && ForwardDeltas(g, c).Ok?
    ensures exists r: EntityRecord, after: Fields ::
              r.id in g && g[r.id] == r && r.body.Obj?
              && EditedBody(c.tool, c.args, r.body.fields) == Ok(after)
              && ForwardDeltas(g, c) == Ok([Update(r.id, r.body, Obj(after))])
  {
    var (_, r) := FindTarget(g, c.args, TargetKey(c.tool)).value;
    var after := EditedBody(c.tool, c.args, r.body.fields).value;
    assert ForwardDeltas(g, c) == Ok([Update(r.id, r.body, Obj(after))]);
  }

  lemma EditedFrame(t: Tool, args: Fields, body: Fields)
    requires IsUpdate(t) && EditedBody(t, args, body).Ok?
    ensures forall f :: f !in EditedKeys(t) ==> Field(EditedBody(t, args, body).value, f) == Field(body, f)
  { }

  /** Update commands change the declared body fields of one entity and nothing else in the graph. */
  lemma UpdateFrame(g: Entities, c: Command)
    requires KeysMatch(g) && IsUpdate(c.tool) && ForwardDeltas(g, c).Ok?
    ensures var ds := ForwardDeltas(g, c).value;
            var after := ApplyAll(g, ds).entities;
            && |ds| == 1 && ds[0].Update? && ds[0].id in g
            && after.Keys == g.Keys
            && (forall k :: k in g && k != ds[0].id ==> after[k] == g[k])
            && var r, r' := g[ds[0].id], after[ds[0].id];
               && r'.(body := r.body) == r
               && r.body.Obj? && r'.body.Obj?
               && forall f :: f !in EditedKeys(c.tool) ==> Field(r'.body.fields, f) == Field(r.body.fields, f)
  {
    hide EditedBody, EditedKeys, ForwardDeltas, Field;
    UpdateShape(g, c);
    var ds := ForwardDeltas(g, c).value;
    var r: EntityRecord, after: Fields :|
      r.id in g && g[r.id] == r && r.body.Obj?
      && EditedBody(c.tool, c.args, r.body.fields) == Ok(after) && ds == [Update(r.id, r.body, Obj(after))];
    EditedFrame(c.tool, c.args, r.body.fields);
    assert ds[1..] == [];
  }

  lemma ForwardShape(g: Entities, c: Command)
    requires KeysMatch(g) && ForwardDeltas(g, c).Ok?
    ensures var ds := ForwardDeltas(g, c).value;
            || ds == []
            || (|ds| == 1 && ApplyOne(g, ds[0]).Some? && (FitsOne(g, ds[0]) <==> UsesFreshId(g, c)))
    ensures ForwardDeltas(g, c).value == [] ==> c.tool.SetLighting?
  {
    if IsUpdate(c.tool) {
      UpdateShape(g, c);
    }
  }

  /**
   Undoing a command restores the graph exactly when the command is not a create
   over an id already in use; the engine itself does not check that.
   */
  lemma UndoRestoresIffFresh(g: Entities, c: Command)
    requires KeysMatch(g) && ForwardDeltas(g, c).Ok?
    ensures var ds := ForwardDeltas(g, c).value;
            && ApplyAll(g, ds).missing.None?
            && (ApplyAll(ApplyAll(g, ds).entities, InvertAll(ds)) == Applied(g, None) <==> UsesFreshId(g, c))
  {
    ForwardShape(g, c);
    var ds := ForwardDeltas(g, c).value;
    if ds != [] {
      assert ds[1..] == [];
      assert InvertAll(ds) == [Invert(ds[0])];
      OneCancelsIffFits(g, ds[0]);
    }
  }

  lemma FreshCommandFits(g: Entities, c: Command)
    requires KeysMatch(g) && ForwardDeltas(g, c).Ok? && UsesFreshId(g, c)
    ensures Fits(g, ForwardDeltas(g, c).value)
  {
    ForwardShape(g, c);
  }

  // ----- The journal -----

  datatype JournalEntry =
    JournalEntry(commandId: string, scope: Scope, forward: seq<EntityDelta>, inverse: seq<EntityDelta>)

  /** The top of each stack is its last element. */
  datatype EngineState = EngineState(entities: Entities, undo: seq<JournalEntry>, redo: seq<JournalEntry>)

  const FreshEngine := EngineState(map[], [], [])

  datatype Reply =
    | Done(commandId: string, applied: seq<EntityDelta>, undoLen: nat, redoLen: nat)
    | Rejected(error: EngineError)

  datatype Op = Apply(command: Command) | UndoLast(scope: Scope) | RedoLast(scope: Scope)

  function Top(stack: seq<JournalEntry>): JournalEntry
    requires stack != []
  {
    stack[|stack| - 1]
  }

  function Popped(stack: seq<JournalEntry>): seq<JournalEntry>
    requires stack != []
  {
    stack[..|stack| - 1]
  }

  function ApplyStep(s: EngineState, c: Command): (EngineState, Reply) {
    match ForwardDeltas(s.entities, c)
    case Err(e) => (s, Rejected(e))
    case Ok(ds) =>
      match ApplyAll(s.entities, ds)
      case Applied(g, Some(id)) => (s.(entities := g), Rejected(UpdateNotFound(id)))
      case Applied(g, None) =>
        var entry := JournalEntry(c.commandId, c.scope, ds, InvertAll(ds));
        (EngineState(g, s.undo + [entry], []), Done(c.commandId, ds, |s.undo| + 1, 0))
  }

  function UndoStep(s: EngineState, scope: Scope): (EngineState, Reply) {
    if s.undo == [] then (s, Rejected(NothingToUndo))
    else
      var top := Top(s.undo);
      if top.scope != scope then (s, Rejected(ScopeMismatch(top.scope, scope)))
      else
        match ApplyAll(s.entities, top.inverse)
        // The entry has left the undo stack by the time the batch fails.
        case Applied(g, Some(id)) => (EngineState(g, Popped(s.undo), s.redo), Rejected(UpdateNotFound(id)))
        case Applied(g, None) =>
          (EngineState(g, Popped(s.undo), s.redo + [top]),
           Done(top.commandId, top.inverse, |s.undo| - 1, |s.redo| + 1))
  }

  function RedoStep(s: EngineState, scope: Scope): (EngineState, Reply) {
    if s.redo == [] then (s, Rejected(NothingToRedo))
    else
      var top := Top(s.redo);
      if top.scope != scope then (s, Rejected(ScopeMismatch(top.scope, scope)))
      else
        match ApplyAll(s.entities, top.forward)
        case Applied(g, Some(id)) => (EngineState(g, s.undo, Popped(s.redo)), Rejected(UpdateNotFound(id)))
        case Applied(g, None) =>
          (EngineState(g, s.undo + [top], Popped(s.redo)),
           Done(top.commandId, top.forward, |s.undo| + 1, |s.redo| - 1))
  }

  function Step(s: EngineState, op: Op): (EngineState, Reply) {
    match op
    case Apply(c) => ApplyStep(s, c)
    case UndoLast(scope) => UndoStep(s, scope)
    case RedoLast(scope) => RedoStep(s, scope)
  }

  /** The graph and journal of one open project. */
  class InProcessGraph {
    var entities: Entities
    var undo: seq<JournalEntry>
    var redo: seq<JournalEntry>

    ghost function State(): EngineState
      reads this
    {
      EngineState(entities, undo, redo)
    }

    constructor ()
      ensures State() == FreshEngine
    {
      entities, undo, redo := map[], [], [];
    }

    method ApplyDeltas(deltas: seq<EntityDelta>) returns (r: Result<seq<EntityDelta>, EngineError>)
      modifies this`entities
      ensures r.Err? ==> r.error.UpdateNotFound?
      ensures Applied(entities, if r.Ok? then None else Some(r.error.id)) == ApplyAll(old(entities), deltas)
      ensures r.Ok? ==> r.value == InvertAll(deltas)
    {
      var inverse: seq<EntityDelta> := [];
      var i := 0;
      while i < |deltas|
        invariant 0 <= i <= |deltas|
        invariant ApplyAll(old(entities), deltas) == ApplyAll(entities, deltas[i..])
        invariant inverse == InvertAll(deltas[..i])
      {
        var d := deltas[i];
        assert deltas[i..][0] == d && deltas[i..][1..] == deltas[i + 1..];
        match d {
          case Create(r) =>
            entities := entities[r.id := r];
          case Update(id, _, after) =>
            if id !in entities {
              return Err(UpdateNotFound(id));
            }
            entities := entities[id := entities[id].(body := after)];
          case Delete(r) =>
            entities := entities - {r.id};
        }
        inverse := [Invert(d)] + inverse;
        assert deltas[..i + 1] == deltas[..i] + [d];
        InvertAllConcat(deltas[..i], [d]);
        assert InvertAll([d]) == [Invert(d)];
        i := i + 1;
      }
      assert deltas[..i] == deltas;
      r := Ok(inverse);
    }

    method CommandApply(c: Command) returns (reply: Reply)
      modifies this
      ensures (State(), reply) == ApplyStep(old(State()), c)
    {
      var deltas := ForwardDeltas(entities, c);
      if deltas.Err? {
        return Rejected(deltas.error);
      }
      var r := ApplyDeltas(deltas.value);
      if r.Err? {
        return Rejected(r.error);
      }
      undo := undo + [JournalEntry(c.commandId, c.scope, deltas.value, r.value)];
      redo := [];
      reply := Done(c.commandId, deltas.value, |undo|, |redo|);
    }

    method CommandUndo(activeScope: Scope) returns (reply: Reply)
      modifies this
      ensures (State(), reply) == UndoStep(old(State()), activeScope)
    {
      if undo == [] {
        return Rejected(NothingToUndo);
      }
      var entry := undo[|undo| - 1];
      if entry.scope != activeScope {
        return Rejected(ScopeMismatch(entry.scope, activeScope));
      }
      undo := undo[..|undo| - 1];
      var r := ApplyDeltas(entry.inverse);
      if r.Err? {
        return Rejected(r.error);
      }
      redo := redo + [entry];
      reply := Done(entry.commandId, entry.inverse, |undo|, |redo|);
    }

    method CommandRedo(activeScope: Scope) returns (reply: Reply)
      modifies this
      ensures (State(), reply) == RedoStep(old(State()), activeScope)
    {
      if redo == [] {
        return Rejected(NothingToRedo);
      }
      var entry := redo[|redo| - 1];
      if entry.scope != activeScope {
        return Rejected(ScopeMismatch(entry.scope, activeScope));
      }
      redo := redo[..|redo| - 1];
      var r := ApplyDeltas(entry.forward);
      if r.Err? {
        return Rejected(r.error);
      }
      undo := undo + [entry];
      reply := Done(entry.commandId, entry.forward, |undo|, |redo|);
    }
  }

  /** The backend's projects, created on first use and kept apart by path. */
  class Backend {
    var graphs: map<string, InProcessGraph>

    ghost predicate Valid()
      reads this
    {
      forall p, q :: p in graphs && q in graphs && p != q ==> graphs[p] != graphs[q]
    }

    ghost function View(path: string): EngineState
      reads this, graphs.Values
    {
      if path in graphs then graphs[path].State() else FreshEngine
    }

    constructor ()
      ensures Valid() && graphs == map[]
    {
      graphs := map[];
    }

    method EnsureInProcessGraph(path: string) returns (g: InProcessGraph)
      requires Valid()
      modifies this
      ensures Valid()
      ensures path in graphs && graphs[path] == g
      ensures fresh(graphs.Values - old(graphs.Values))
      ensures forall p :: View(p) == old(View(p))
    {
      if path !in graphs {
        var g' := new InProcessGraph();
        graphs := graphs[path := g'];
      }
      g := graphs[path];
    }

    /** A command on one project is the engine's step there and no other project notices it. */
    method Execute(path: string, op: Op) returns (reply: Reply)
      requires Valid()
      modifies this, graphs.Values
      ensures Valid()
      ensures (View(path), reply) == Step(old(View(path)), op)
      ensures forall p :: p != path ==> View(p) == old(View(p))
    {
      var g := EnsureInProcessGraph(path);
      match op
      case Apply(c) => reply := g.CommandApply(c);
      case UndoLast(scope) => reply := g.CommandUndo(scope);
      case RedoLast(scope) => reply := g.CommandRedo(scope);
    }
  }
}
