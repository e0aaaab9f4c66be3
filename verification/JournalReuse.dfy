/** What a create over a used id does to the journal, and when a later undo throws for it. */
module JournalReuse {
  import opened Basics
  import opened CommandJournal
  import opened JournalRuns

  // ----- Why creates must be fresh -----

  function WallArgs(w: string, m: string): Fields {
    map["entity_id" := Str(w), "target_entity_id" := Str(w), "to_material_id" := Str(m)]
  }

  function CreateCommand(w: string, m: string): Command {
    Command("create", Design, CreateWall, WallArgs(w, m), "")
  }

  function PaintCommand(w: string, m: string): Command {
    Command("paint", Design, SwapFinish, WallArgs(w, m), "")
  }

  function Wall(w: string, m: string): EntityRecord {
    EntityRecord(w, "wall", None, Obj(WallArgs(w, m)))
  }

  function Painted(w: string, m: string): EntityRecord {
    Wall(w, m).(body := Obj(WallArgs(w, m)["material_id" := Str(m)]))
  }

  function Painting(w: string, m: string): EntityDelta {
    Update(w, Wall(w, m).body, Painted(w, m).body)
  }

  function CreateEntry(w: string, m: string): JournalEntry {
    JournalEntry("create", Design, [Create(Wall(w, m))], [Delete(Wall(w, m))])
  }

  function PaintEntry(w: string, m: string): JournalEntry {
    JournalEntry("paint", Design, [Painting(w, m)], [Invert(Painting(w, m))])
  }

  lemma ApplySingle(g: Entities, d: EntityDelta)
    requires ApplyOne(g, d).Some?
    ensures ApplyAll(g, [d]) == Applied(ApplyOne(g, d).value, None)
    ensures InvertAll([d]) == [Invert(d)]
  {
    assert [d][1..] == [];
  }

  lemma CreateWallDeltas(g: Entities, w: string, m: string)
    ensures ForwardDeltas(g, CreateCommand(w, m)) == Ok([Create(Wall(w, m))])
  {
  }

  lemma PaintDeltas(w: string, m: string)
    requires w != ""
    ensures ForwardDeltas(map[w := Wall(w, m)], PaintCommand(w, m)) == Ok([Painting(w, m)])
  {
  }

  lemma CreateStep(s: EngineState, w: string, m: string)
    ensures ApplyStep(s, CreateCommand(w, m)).0 == EngineState(s.entities[w := Wall(w, m)], s.undo + [CreateEntry(w, m)], [])
  {
    hide ForwardDeltas, ApplyAll, InvertAll;
    CreateWallDeltas(s.entities, w, m);
    ApplySingle(s.entities, Create(Wall(w, m)));
  }

  lemma PaintStep(undo: seq<JournalEntry>, w: string, m: string)
    requires w != ""
    ensures ApplyStep(EngineState(map[w := Wall(w, m)], undo, []), PaintCommand(w, m)).0
         == EngineState(map[w := Painted(w, m)], undo + [PaintEntry(w, m)], [])
  {
    hide ForwardDeltas, ApplyAll, InvertAll;
    var g := map[w := Wall(w, m)];
    PaintDeltas(w, m);
    ApplySingle(g, Painting(w, m));
    assert g[w := Painted(w, m)] == map[w := Painted(w, m)];
  }

  /**
   Without the hypothesis: create any wall, paint it, create it again. The first undo
   deletes the wall, the second throws, and the paint entry is then on neither stack.
   */
  lemma ReusedIdLosesAnEntry(w: string, m: string)
    requires w != ""
    ensures var create, paint := CreateEntry(w, m), PaintEntry(w, m);
            var s1 := UndoStep(AfterReuse(w, m), Design).0;
            && s1 == EngineState(map[], [create, paint], [create])
            && UndoStep(s1, Design) == (EngineState(map[], [create], [create]), Rejected(UpdateNotFound(w)))
  {
    hide *;
    CreatedAgain(w, m);
    FirstUndo(w, m);
    SecondUndo(w, m);
  }

  function AfterReuse(w: string, m: string): EngineState {
    ApplyStep(ApplyStep(ApplyStep(FreshEngine, CreateCommand(w, m)).0, PaintCommand(w, m)).0, CreateCommand(w, m)).0
  }

  lemma CreatedAgain(w: string, m: string)
    requires w != ""
    ensures AfterReuse(w, m)
         == EngineState(map[w := Wall(w, m)], [CreateEntry(w, m), PaintEntry(w, m), CreateEntry(w, m)], [])
  {
    hide ApplyStep, CreateCommand, PaintCommand, CreateEntry, PaintEntry, Wall, Painted;
    var create, paint := CreateEntry(w, m), PaintEntry(w, m);
    CreateStep(FreshEngine, w, m);
    assert map[][w := Wall(w, m)] == map[w := Wall(w, m)] && [] + [create] == [create];
    PaintStep([create], w, m);
    assert [create] + [paint] == [create, paint];
    CreateStep(EngineState(map[w := Painted(w, m)], [create, paint], []), w, m);
    assert map[w := Painted(w, m)][w := Wall(w, m)] == map[w := Wall(w, m)];
    assert [create, paint] + [create] == [create, paint, create];
  }

  lemma FirstUndo(w: string, m: string)
    ensures var create, paint := CreateEntry(w, m), PaintEntry(w, m);
            UndoStep(EngineState(map[w := Wall(w, m)], [create, paint, create], []), Design).0
            == EngineState(map[], [create, paint], [create])
  {
    var create, paint := CreateEntry(w, m), PaintEntry(w, m);
    var g := map[w := Wall(w, m)];
    ApplySingle(g, Delete(Wall(w, m)));
    assert g - {w} == map[];
    assert Popped([create, paint, create]) == [create, paint];
  }

  lemma SecondUndo(w: string, m: string)
    ensures var create, paint := CreateEntry(w, m), PaintEntry(w, m);
            UndoStep(EngineState(map[], [create, paint], [create]), Design)
            == (EngineState(map[], [create], [create]), Rejected(UpdateNotFound(w)))
  {
    assert Popped([CreateEntry(w, m), PaintEntry(w, m)]) == [CreateEntry(w, m)];
  }

  // ----- When a reused id makes a later undo throw -----

  function IdOf(d: EntityDelta): string {
    match d
    case Create(r) => r.id
    case Update(id, _, _) => id
    case Delete(r) => r.id
  }

  function FirstTouch(ds: seq<EntityDelta>, x: string): Option<EntityDelta> {
    if ds == [] then None else if IdOf(ds[0]) == x then Some(ds[0]) else FirstTouch(ds[1..], x)
  }

  function LastTouch(ds: seq<EntityDelta>, x: string): Option<EntityDelta> {
    if ds == [] then None
    else
      var later := LastTouch(ds[1..], x);
      if later.Some? then later else if IdOf(ds[0]) == x then Some(ds[0]) else None
  }

  /** The most recent delta on `x` among the commands done. */
  function NewestTouch(undo: seq<JournalEntry>, x: string): Option<EntityDelta>
    decreases |undo|
  {
    if undo == [] then None
    else
      var t := LastTouch(Top(undo).forward, x);
      if t.Some? then t else NewestTouch(Popped(undo), x)
  }

  /** Undoing to the bottom, each time in the scope of the entry it meets, is refused on the way. */
  predicate BackThrows(s: EngineState)
    decreases |s.undo|
  {
    s.undo != []
    && var (s', reply) := UndoStep(s, Top(s.undo).scope);
       reply.Rejected? || BackThrows(s')
  }

  lemma {:induction false} FirstTouchConcat(a: seq<EntityDelta>, b: seq<EntityDelta>, x: string)
    ensures FirstTouch(a + b, x) == if FirstTouch(a, x).Some? then FirstTouch(a, x) else FirstTouch(b, x)
  {
    if a == [] {
      assert a + b == b;
    } else {
      assert (a + b)[1..] == a[1..] + b;
      FirstTouchConcat(a[1..], b, x);
    }
  }

  /** A batch touches `x` last where its inverse touches it first. */
  lemma {:induction false} InvertedTouch(ds: seq<EntityDelta>, x: string)
    ensures FirstTouch(InvertAll(ds), x) == match LastTouch(ds, x) { case None => None case Some(d) => Some(Invert(d)) }
  {
    if ds != [] {
      InvertedTouch(ds[1..], x);
      FirstTouchConcat(InvertAll(ds[1..]), [Invert(ds[0])], x);
      assert [Invert(ds[0])][1..] == [];
    }
  }

  /** A batch made for `h`, on `h` without `x`: the first delta on `x` decides. */
  lemma {:induction false} BatchWithout(h: Entities, ds: seq<EntityDelta>, x: string)
    requires Fits(h, ds) && x in h
    ensures match FirstTouch(ds, x)
            case None =>
              && ApplyAll(h - {x}, ds) == Applied(ApplyAll(h, ds).entities - {x}, None)
              && x in ApplyAll(h, ds).entities
            case Some(Update(_, _, _)) => ApplyAll(h - {x}, ds).missing.Some?
            case Some(_) => ApplyAll(h - {x}, ds) == ApplyAll(h, ds)
    decreases ds
  {
    if ds != [] {
      var d := ds[0];
      if IdOf(d) != x {
        DeltaElsewhere(h, d, x);
        BatchWithout(ApplyOne(h, d).value, ds[1..], x);
      } else if d.Delete? {
        assert (h - {x}) - {x} == h - {x};
      }
    }
  }

  lemma DeltaElsewhere(h: Entities, d: EntityDelta, x: string)
    requires FitsOne(h, d) && x in h && IdOf(d) != x
    ensures x in ApplyOne(h, d).value
    ensures ApplyOne(h - {x}, d) == Some(ApplyOne(h, d).value - {x})
  {
    var without := ApplyOne(h - {x}, d).value;
    assert without == ApplyOne(h, d).value - {x};
  }

  lemma WithoutRedo(s: EngineState)
    requires Consistent(s)
    ensures Consistent(s.(redo := []))
  {
    ReplayConcat(map[], s.undo, Reverse(s.redo));
    assert Timeline(s.(redo := [])) == s.undo;
  }

  /** The entry on top of a consistent state, and the consistent state below it. */
  lemma Below(h: Entities, undo: seq<JournalEntry>)
    requires undo != [] && Consistent(EngineState(h, undo, []))
    ensures var e, u := Top(undo), Popped(undo);
            && e.inverse == InvertAll(e.forward) && Fits(h, e.inverse)
            && ApplyAll(h, e.inverse) == Applied(Replay(map[], u), None)
            && Consistent(EngineState(Replay(map[], u), u, []))
  {
    hide Consistent, Fits;
    var s := EngineState(h, undo, []);
    var e, u := Top(undo), Popped(undo);
    UndoTop(s);
    BatchReverses(Replay(map[], u), e.forward);
    UndoKeepsConsistent(s, e.scope);
    WithoutRedo(UndoStep(s, e.scope).0);
  }

  lemma {:induction false} ConsistentNeverThrows(h: Entities, undo: seq<JournalEntry>, redo: seq<JournalEntry>)
    requires Consistent(EngineState(h, undo, []))
    ensures !BackThrows(EngineState(h, undo, redo))
    decreases |undo|
  {
    hide Consistent, Fits, InvertAll;
    if undo != [] {
      Below(h, undo);
      ConsistentNeverThrows(Replay(map[], Popped(undo)), Popped(undo), redo + [Top(undo)]);
    }
  }

  lemma {:induction false} ThrowsWithout(h: Entities, undo: seq<JournalEntry>, redo: seq<JournalEntry>, x: string)
    requires Consistent(EngineState(h, undo, [])) && x in h
    ensures BackThrows(EngineState(h - {x}, undo, redo)) <==> NewestTouch(undo, x).Some? && NewestTouch(undo, x).value.Update?
    decreases |undo|
  {
    hide Consistent, Fits, InvertAll, Replay, ApplyAll;
    if undo != [] {
      var e, u := Top(undo), Popped(undo);
      Below(h, undo);
      var h' := Replay(map[], u);
      InvertedTouch(e.forward, x);
      BatchWithout(h, e.inverse, x);
      if LastTouch(e.forward, x).None? {
        ThrowsWithout(h', u, redo + [e], x);
      } else if !LastTouch(e.forward, x).value.Update? {
        ConsistentNeverThrows(h', u, redo + [e]);
      }
    }
  }

  /** The entity an accepted create overwrites. */
  function OverwrittenId(c: Command): string {
    match CreateId(c) { case Ok(id) => id case Err(_) => "" }
  }

  lemma CreateDelta(g: Entities, c: Command)
    requires !FreshCommand(g, c)
    ensures OverwrittenId(c) in g
    ensures exists r: EntityRecord :: r.id == OverwrittenId(c) && ForwardDeltas(g, c) == Ok([Create(r)])
  {
    var ds := ForwardDeltas(g, c).value;
    assert ds[0].Create? && ds == [ds[0]];
    var r := ds[0].record;
    assert r.id == OverwrittenId(c) && ForwardDeltas(g, c) == Ok([Create(r)]);
  }

  lemma CreatedOver(s: EngineState, c: Command, r: EntityRecord)
    requires r.id in s.entities && ForwardDeltas(s.entities, c) == Ok([Create(r)])
    ensures var s1 := ApplyStep(s, c).0;
            s1.undo != [] && UndoStep(s1, Top(s1.undo).scope).1.Done?
            && UndoStep(s1, Top(s1.undo).scope).0 == EngineState(s.entities - {r.id}, s.undo, [Top(s1.undo)])
  {
    hide ForwardDeltas;
    var e := JournalEntry(c.commandId, c.scope, [Create(r)], [Delete(r)]);
    ApplySingle(s.entities, Create(r));
    ApplySingle(s.entities[r.id := r], Delete(r));
    var s1 := ApplyStep(s, c).0;
    assert s1 == EngineState(s.entities[r.id := r], s.undo + [e], []);
    assert Popped(s.undo + [e]) == s.undo;
    assert s.entities[r.id := r] - {r.id} == s.entities - {r.id};
  }

  /**
   After an accepted create over a used id, undoing to the bottom throws if and only if
   the newest thing done to the entity it overwrote was an update.
   */
  lemma ReusedIdThrowsIff(s: EngineState, c: Command)
    requires Consistent(s) && !FreshCommand(s.entities, c)
    ensures BackThrows(ApplyStep(s, c).0)
       <==> var t := NewestTouch(s.undo, OverwrittenId(c)); t.Some? && t.value.Update?
  {
    hide Consistent, ForwardDeltas, FreshCommand, ApplyStep, UndoStep;
    CreateDelta(s.entities, c);
    var r: EntityRecord :| r.id == OverwrittenId(c) && ForwardDeltas(s.entities, c) == Ok([Create(r)]);
    CreatedOver(s, c, r);
    WithoutRedo(s);
    var s1 := ApplyStep(s, c).0;
    ThrowsWithout(s.entities, s.undo, [Top(s1.undo)], r.id);
  }
}
