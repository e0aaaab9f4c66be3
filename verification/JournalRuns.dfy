/**
 Whole runs of the command engine: the graph is always the replay of the undo
 stack, and the delta journal behaves like one that stores full graph snapshots.
 */
module JournalRuns {
  import opened Basics
  import opened CommandJournal

  // ----- The timeline invariant -----

  function Reverse<T>(s: seq<T>): (r: seq<T>)
    ensures |r| == |s|
    ensures forall i :: 0 <= i < |s| ==> r[i] == s[|s| - 1 - i]
  {
    if s == [] then [] else Reverse(s[1..]) + [s[0]]
  }

  /** The graph after the forward deltas of `es`, oldest first. */
  function Replay(g: Entities, es: seq<JournalEntry>): Entities
    decreases es
  {
    if es == [] then g else Replay(ApplyAll(g, es[0].forward).entities, es[1..])
  }

  /** Every entry fits the graph the earlier ones leave and carries its own inverse. */
  ghost predicate Chained(g: Entities, es: seq<JournalEntry>)
    decreases es
  {
    es == []
    || (&& Fits(g, es[0].forward)
        && es[0].inverse == InvertAll(es[0].forward)
        && Chained(ApplyAll(g, es[0].forward).entities, es[1..]))
  }

  /** Done commands oldest first, then undone ones in the order redo takes them. */
  function Timeline(s: EngineState): seq<JournalEntry> {
    s.undo + Reverse(s.redo)
  }

  ghost predicate Consistent(s: EngineState) {
    && KeysMatch(s.entities)
    && Chained(map[], Timeline(s))
    && s.entities == Replay(map[], s.undo)
  }

  lemma {:induction false} ReplayConcat(g: Entities, a: seq<JournalEntry>, b: seq<JournalEntry>)
    ensures Replay(g, a + b) == Replay(Replay(g, a), b)
    ensures Chained(g, a + b) <==> Chained(g, a) && Chained(Replay(g, a), b)
    decreases a
  {
    if a == [] {
      assert a + b == b;
    } else {
      assert (a + b)[1..] == a[1..] + b;
      ReplayConcat(ApplyAll(g, a[0].forward).entities, a[1..], b);
    }
  }

  /** What the undo and redo tops are worth in a consistent state. */
  lemma UndoTop(s: EngineState)
    requires Consistent(s) && s.undo != []
    ensures var u, e := Popped(s.undo), Top(s.undo);
            && Fits(Replay(map[], u), e.forward)
            && e.inverse == InvertAll(e.forward)
            && ApplyAll(Replay(map[], u), e.forward) == Applied(s.entities, None)
            && ApplyAll(s.entities, e.inverse) == Applied(Replay(map[], u), None)
            && Timeline(s) == u + Reverse(s.redo + [e])
  {
    var u, e := Popped(s.undo), Top(s.undo);
    assert s.undo == u + [e];
    ReplayConcat(map[], s.undo, Reverse(s.redo));
    ReplayConcat(map[], u, [e]);
    assert [e][1..] == [];
    BatchReverses(Replay(map[], u), e.forward);
    assert Reverse(s.redo + [e]) == [e] + Reverse(s.redo);
  }

  lemma RedoTop(s: EngineState)
    requires Consistent(s) && s.redo != []
    ensures var r, e := Popped(s.redo), Top(s.redo);
            && s.entities == Replay(map[], s.undo)
            && Fits(s.entities, e.forward)
            && e.inverse == InvertAll(e.forward)
            && ApplyAll(s.entities, e.forward) == Applied(Replay(map[], s.undo + [e]), None)
            && ApplyAll(Replay(map[], s.undo + [e]), e.inverse) == Applied(s.entities, None)
            && Timeline(s) == (s.undo + [e]) + Reverse(r)
  {
    var r, e := Popped(s.redo), Top(s.redo);
    assert Reverse(s.redo) == [e] + Reverse(r);
    assert Timeline(s) == (s.undo + [e]) + Reverse(r);
    ReplayConcat(map[], s.undo + [e], Reverse(r));
    ReplayConcat(map[], s.undo, [e]);
    assert [e][1..] == [];
    BatchReverses(s.entities, e.forward);
  }

  /** The hypothesis on callers: a create that is accepted names an entity that is not in the graph. */
  predicate FreshOp(s: EngineState, op: Op) {
    op.Apply? ==> FreshCommand(s.entities, op.command)
  }

  predicate FreshCommand(g: Entities, c: Command) {
    ForwardDeltas(g, c).Ok? ==> UsesFreshId(g, c)
  }

  lemma ApplyKeepsConsistent(s: EngineState, c: Command)
    requires Consistent(s) && FreshCommand(s.entities, c)
    ensures Consistent(ApplyStep(s, c).0)
    ensures ApplyStep(s, c).1.Rejected? ==> !ApplyStep(s, c).1.error.UpdateNotFound? && ApplyStep(s, c).0 == s
  {
    hide ForwardDeltas;
    ErrorsOfDeltas(s.entities, c);
    if ForwardDeltas(s.entities, c).Ok? {
      var ds := ForwardDeltas(s.entities, c).value;
      FreshCommandFits(s.entities, c);
      BatchReverses(s.entities, ds);
      ApplyAllKeepsKeys(s.entities, ds);
      var e := JournalEntry(c.commandId, c.scope, ds, InvertAll(ds));
      assert [e][1..] == [];
      ReplayConcat(map[], s.undo, Reverse(s.redo));
      ReplayConcat(map[], s.undo, [e]);
      assert Timeline(ApplyStep(s, c).0) == s.undo + [e];
    }
  }

  lemma ErrorsOfDeltas(g: Entities, c: Command)
    ensures ForwardDeltas(g, c).Err? ==> !ForwardDeltas(g, c).error.UpdateNotFound?
  {
  }

  lemma UndoKeepsConsistent(s: EngineState, scope: Scope)
    requires Consistent(s)
    ensures Consistent(UndoStep(s, scope).0) && Timeline(UndoStep(s, scope).0) == Timeline(s)
    ensures UndoStep(s, scope).1.Rejected? ==> !UndoStep(s, scope).1.error.UpdateNotFound? && UndoStep(s, scope).0 == s
  {
    hide Fits, InvertAll, Chained, Replay;
    if s.undo != [] {
      UndoTop(s);
      ApplyAllKeepsKeys(s.entities, Top(s.undo).inverse);
    }
  }

  lemma RedoKeepsConsistent(s: EngineState, scope: Scope)
    requires Consistent(s)
    ensures Consistent(RedoStep(s, scope).0) && Timeline(RedoStep(s, scope).0) == Timeline(s)
    ensures RedoStep(s, scope).1.Rejected? ==> !RedoStep(s, scope).1.error.UpdateNotFound? && RedoStep(s, scope).0 == s
  {
    hide Fits, InvertAll, Chained, Replay;
    if s.redo != [] {
      RedoTop(s);
      ApplyAllKeepsKeys(s.entities, Top(s.redo).forward);
    }
  }

  lemma StepKeepsConsistent(s: EngineState, op: Op)
    requires Consistent(s) && FreshOp(s, op)
    ensures Consistent(Step(s, op).0)
    ensures Step(s, op).1.Rejected? ==> !Step(s, op).1.error.UpdateNotFound? && Step(s, op).0 == s
    ensures !op.Apply? ==> Timeline(Step(s, op).0) == Timeline(s)
  {
    hide Consistent, ApplyStep, UndoStep, RedoStep, FreshCommand;
    match op
    case Apply(c) => ApplyKeepsConsistent(s, c);
    case UndoLast(scope) => UndoKeepsConsistent(s, scope);
    case RedoLast(scope) => RedoKeepsConsistent(s, scope);
  }

  // ----- Runs -----

  function Run(s: EngineState, ops: seq<Op>): EngineState
    decreases ops
  {
    if ops == [] then s else Run(Step(s, ops[0]).0, ops[1..])
  }

  ghost predicate FreshRun(s: EngineState, ops: seq<Op>)
    decreases ops
  {
    ops == [] || (FreshOp(s, ops[0]) && FreshRun(Step(s, ops[0]).0, ops[1..]))
  }

  /**
   After every run of a new engine the graph is the replay of the undo stack, the
   redo stack chains on from there, and no undo, redo or command loses an update target.
   */
  lemma EveryRunConsistent(ops: seq<Op>, next: Op)
    requires FreshRun(FreshEngine, ops) && FreshOp(Run(FreshEngine, ops), next)
    ensures Consistent(Run(FreshEngine, ops))
    ensures var (s', reply) := Step(Run(FreshEngine, ops), next);
            reply.Rejected? ==> !reply.error.UpdateNotFound? && s' == Run(FreshEngine, ops)
  {
    assert Reverse<JournalEntry>([]) == [];
    RunKeepsConsistent(FreshEngine, ops);
    StepKeepsConsistent(Run(FreshEngine, ops), next);
  }

  lemma {:induction false} RunKeepsConsistent(s: EngineState, ops: seq<Op>)
    requires Consistent(s) && FreshRun(s, ops)
    ensures Consistent(Run(s, ops))
    decreases ops
  {
    if ops != [] {
      StepKeepsConsistent(s, ops[0]);
      RunKeepsConsistent(Step(s, ops[0]).0, ops[1..]);
    }
  }

  /** A create over a used id breaks the invariant at once. */
  lemma ReusedIdBreaksConsistency(s: EngineState, c: Command)
    requires Consistent(s) && !FreshCommand(s.entities, c)
    ensures !Consistent(ApplyStep(s, c).0)
  {
    hide ForwardDeltas, UsesFreshId;
    var ds := ForwardDeltas(s.entities, c).value;
    CreateIsNotEmpty(s.entities, c);
    ForwardShape(s.entities, c);
    assert !Fits(s.entities, ds);
    var e := JournalEntry(c.commandId, c.scope, ds, InvertAll(ds));
    assert ds[1..] == [];
    assert ApplyAll(s.entities, ds).missing.None?;
    ReplayConcat(map[], s.undo, Reverse(s.redo));
    ReplayConcat(map[], s.undo, [e]);
    assert Timeline(ApplyStep(s, c).0) == s.undo + [e];
  }

  lemma CreateIsNotEmpty(g: Entities, c: Command)
    requires KeysMatch(g) && !FreshCommand(g, c)
    ensures ForwardDeltas(g, c).Ok? && ForwardDeltas(g, c).value != []
  {
    ForwardShape(g, c);
  }

  /** The invariant holds all along a run exactly when every create the run gets accepted is fresh. */
  lemma {:induction false} ConsistentThroughoutIffFresh(s: EngineState, ops: seq<Op>)
    requires Consistent(s)
    ensures (forall n: nat :: n <= |ops| ==> Consistent(Run(s, ops[..n]))) <==> FreshRun(s, ops)
    decreases |ops|
  {
    hide Consistent, Step, FreshCommand;
    if ops == [] {
      assert forall n: nat :: n <= |ops| ==> ops[..n] == [];
    } else {
      var next := Step(s, ops[0]).0;
      forall n: nat | 0 < n <= |ops| ensures Run(s, ops[..n]) == Run(next, ops[1..][..n - 1]) {
        assert ops[..n][0] == ops[0] && ops[..n][1..] == ops[1..][..n - 1];
      }
      if FreshOp(s, ops[0]) {
        StepKeepsConsistent(s, ops[0]);
        ConsistentThroughoutIffFresh(next, ops[1..]);
        assert ops[..0] == [];
        forall m: nat | m <= |ops[1..]| ensures Run(next, ops[1..][..m]) == Run(s, ops[..m + 1]) {
          assert m + 1 - 1 == m;
        }
      } else {
        StaleOpBreaks(s, ops[0]);
        assert ops[1..][..0] == [];
        assert Run(s, ops[..1]) == next;
      }
    }
  }

  lemma StaleOpBreaks(s: EngineState, op: Op)
    requires Consistent(s) && !FreshOp(s, op)
    ensures !Consistent(Step(s, op).0)
  {
    hide Consistent, ApplyStep, FreshCommand;
    ReusedIdBreaksConsistency(s, op.command);
  }

  /** `k` undos, each in the scope of the entry it meets. */
  function UndoMany(s: EngineState, k: nat): EngineState
    decreases k
  {
    if k == 0 || s.undo == [] then s else UndoMany(UndoStep(s, Top(s.undo).scope).0, k - 1)
  }

  function RedoMany(s: EngineState, k: nat): EngineState
    decreases k
  {
    if k == 0 || s.redo == [] then s else RedoMany(RedoStep(s, Top(s.redo).scope).0, k - 1)
  }

  /** One undo, and the redo that takes it back. */
  lemma UndoOnce(s: EngineState)
    requires Consistent(s) && s.undo != []
    ensures var s1 := UndoStep(s, Top(s.undo).scope).0;
            && Consistent(s1)
            && s1.undo == Popped(s.undo) && s1.redo == s.redo + [Top(s.undo)]
            && RedoStep(s1, Top(s.undo).scope).0 == s
  {
    UndoTop(s);
    StepKeepsConsistent(s, UndoLast(Top(s.undo).scope));
    var s1 := UndoStep(s, Top(s.undo).scope).0;
    assert Top(s1.redo) == Top(s.undo) && Popped(s1.redo) == s.redo;
    assert s1.undo + [Top(s1.redo)] == s.undo;
  }

  lemma RedoOnce(s: EngineState)
    requires Consistent(s) && s.redo != []
    ensures var s1 := RedoStep(s, Top(s.redo).scope).0;
            Consistent(s1) && s1.redo == Popped(s.redo)
  {
    RedoTop(s);
    StepKeepsConsistent(s, RedoLast(Top(s.redo).scope));
  }

  lemma {:induction false} RedoManyLast(s: EngineState, k: nat)
    requires Consistent(s) && k < |s.redo|
    ensures var s' := RedoMany(s, k);
            s'.redo != [] && RedoMany(s, k + 1) == RedoStep(s', Top(s'.redo).scope).0
    decreases k
  {
    RedoOnce(s);
    var s1 := RedoStep(s, Top(s.redo).scope).0;
    if k == 0 {
      assert RedoMany(s1, 0) == s1;
    } else {
      RedoManyLast(s1, k - 1);
    }
  }

  lemma ConsistentGraph(s: EngineState)
    requires Consistent(s)
    ensures s.entities == Replay(map[], s.undo)
  {
  }

  /** Undo `k` commands and redo `k`: journal and graph are what they were. */
  lemma {:induction false} UndoManyRedoMany(s: EngineState, k: nat)
    requires Consistent(s) && k <= |s.undo|
    ensures var back := UndoMany(s, k);
            && Consistent(back)
            && |back.redo| == |s.redo| + k
            && back.undo == s.undo[..|s.undo| - k]
            && back.entities == Replay(map[], s.undo[..|s.undo| - k])
            && RedoMany(back, k) == s
    decreases k
  {
    hide Consistent, UndoStep, RedoStep;
    if k == 0 {
      assert Replay(map[], s.undo) == s.entities by { ConsistentGraph(s); }
      assert s.undo[..|s.undo|] == s.undo;
    } else {
      UndoOnce(s);
      var s1 := UndoStep(s, Top(s.undo).scope).0;
      UndoManyRedoMany(s1, k - 1);
      assert s1.undo[..|s1.undo| - (k - 1)] == s.undo[..|s.undo| - k];
      var back := UndoMany(s1, k - 1);
      assert UndoMany(s, k) == back;
      RedoManyLast(back, k - 1);
    }
  }

  // ----- Refinement of a snapshot history -----

  /** A command as a snapshot editor keeps it: the graph on the other side of it. */
  datatype Mark = Mark(commandId: string, scope: Scope, graph: Entities)

  datatype History = History(past: seq<Mark>, present: Entities, future: seq<Mark>)

  datatype Verdict = Accepted(commandId: string, undoLen: nat, redoLen: nat) | Refused(error: EngineError)

  function HistoryApply(h: History, c: Command): (History, Verdict) {
    match ForwardDeltas(h.present, c)
    case Err(e) => (h, Refused(e))
    case Ok(ds) =>
      (History(h.past + [Mark(c.commandId, c.scope, h.present)], ApplyAll(h.present, ds).entities, []),
       Accepted(c.commandId, |h.past| + 1, 0))
  }

  function HistoryUndo(h: History, scope: Scope): (History, Verdict) {
    if h.past == [] then (h, Refused(NothingToUndo))
    else
      var m := h.past[|h.past| - 1];
      if m.scope != scope then (h, Refused(ScopeMismatch(m.scope, scope)))
      else
        (History(h.past[..|h.past| - 1], m.graph, h.future + [m.(graph := h.present)]),
         Accepted(m.commandId, |h.past| - 1, |h.future| + 1))
  }

  function HistoryRedo(h: History, scope: Scope): (History, Verdict) {
    if h.future == [] then (h, Refused(NothingToRedo))
    else
      var m := h.future[|h.future| - 1];
      if m.scope != scope then (h, Refused(ScopeMismatch(m.scope, scope)))
      else
        (History(h.past + [m.(graph := h.present)], m.graph, h.future[..|h.future| - 1]),
         Accepted(m.commandId, |h.past| + 1, |h.future| - 1))
  }

  function HistoryStep(h: History, op: Op): (History, Verdict) {
    match op
    case Apply(c) => HistoryApply(h, c)
    case UndoLast(scope) => HistoryUndo(h, scope)
    case RedoLast(scope) => HistoryRedo(h, scope)
  }

  function VerdictOf(r: Reply): Verdict {
    match r
    case Done(id, _, u, v) => Accepted(id, u, v)
    case Rejected(e) => Refused(e)
  }

  function PastMarks(undo: seq<JournalEntry>): (marks: seq<Mark>)
    ensures |marks| == |undo|
  {
    seq(|undo|, i requires 0 <= i < |undo| => Mark(undo[i].commandId, undo[i].scope, Replay(map[], undo[..i])))
  }

  function FutureMarks(g: Entities, redo: seq<JournalEntry>): (marks: seq<Mark>)
    ensures |marks| == |redo|
  {
    seq(|redo|, i requires 0 <= i < |redo| =>
      Mark(redo[i].commandId, redo[i].scope, Replay(g, Reverse(redo[i..]))))
  }

  function Snapshots(s: EngineState): History {
    History(PastMarks(s.undo), s.entities, FutureMarks(s.entities, s.redo))
  }

  lemma PastMarksAppend(undo: seq<JournalEntry>, e: JournalEntry)
    ensures PastMarks(undo + [e]) == PastMarks(undo) + [Mark(e.commandId, e.scope, Replay(map[], undo))]
  {
    var es := undo + [e];
    assert es[..|undo|] == undo;
    assert forall i :: 0 <= i < |undo| ==> es[..i] == undo[..i];
  }

  /** `g` is the graph before entry `e`, `g'` the one after it. */
  lemma FutureMarksAppend(g: Entities, g': Entities, redo: seq<JournalEntry>, e: JournalEntry)
    requires g' == ApplyAll(g, e.forward).entities
    ensures FutureMarks(g, redo + [e]) == FutureMarks(g', redo) + [Mark(e.commandId, e.scope, g')]
  {
    var es := redo + [e];
    forall i | 0 <= i <= |redo|
      ensures Replay(g, Reverse(es[i..])) == Replay(g', Reverse(redo[i..]))
    {
      assert es[i..] == redo[i..] + [e];
      assert Reverse(es[i..]) == [e] + Reverse(redo[i..]);
      assert ([e] + Reverse(redo[i..]))[1..] == Reverse(redo[i..]);
    }
    assert redo[|redo|..] == [];
    var marks := FutureMarks(g', redo) + [Mark(e.commandId, e.scope, g')];
    assert |FutureMarks(g, es)| == |marks|;
    assert forall i :: 0 <= i < |es| ==> FutureMarks(g, es)[i] == marks[i];
  }

  lemma ApplyRefinesHistory(s: EngineState, c: Command)
    requires Consistent(s) && FreshCommand(s.entities, c)
    ensures HistoryApply(Snapshots(s), c) == (Snapshots(ApplyStep(s, c).0), VerdictOf(ApplyStep(s, c).1))
  {
    hide Chained, Timeline, InvertAll, ForwardDeltas;
    if ForwardDeltas(s.entities, c).Ok? {
      var ds := ForwardDeltas(s.entities, c).value;
      FreshCommandFits(s.entities, c);
      BatchReverses(s.entities, ds);
      PastMarksAppend(s.undo, JournalEntry(c.commandId, c.scope, ds, InvertAll(ds)));
      assert FutureMarks(ApplyAll(s.entities, ds).entities, []) == [];
    }
  }

  /** Moving entry `e` from the undo stack `u + [e]` to the redo stack moves one mark. */
  lemma MarkMoves(u: seq<JournalEntry>, e: JournalEntry, redo: seq<JournalEntry>, after: Entities)
    requires ApplyAll(Replay(map[], u), e.forward).entities == after
    ensures var before := Replay(map[], u);
            && Snapshots(EngineState(after, u + [e], redo))
               == History(PastMarks(u) + [Mark(e.commandId, e.scope, before)], after, FutureMarks(after, redo))
            && Snapshots(EngineState(before, u, redo + [e]))
               == History(PastMarks(u), before, FutureMarks(after, redo) + [Mark(e.commandId, e.scope, after)])
  {
    PastMarksAppend(u, e);
    FutureMarksAppend(Replay(map[], u), after, redo, e);
  }

  lemma UndoRefinesHistory(s: EngineState, scope: Scope)
    requires Consistent(s)
    ensures HistoryUndo(Snapshots(s), scope) == (Snapshots(UndoStep(s, scope).0), VerdictOf(UndoStep(s, scope).1))
  {
    hide Consistent, Replay, ApplyAll, PastMarks, FutureMarks, Fits, InvertAll, Timeline;
    if s.undo != [] {
      var u, e := Popped(s.undo), Top(s.undo);
      assert s == EngineState(s.entities, u + [e], s.redo);
      UndoTop(s);
      MarkMoves(u, e, s.redo, s.entities);
      var marks, m := PastMarks(u), Mark(e.commandId, e.scope, Replay(map[], u));
      assert (marks + [m])[..|marks|] == marks;
    }
  }

  lemma RedoRefinesHistory(s: EngineState, scope: Scope)
    requires Consistent(s)
    ensures HistoryRedo(Snapshots(s), scope) == (Snapshots(RedoStep(s, scope).0), VerdictOf(RedoStep(s, scope).1))
  {
    hide Consistent, Replay, ApplyAll, PastMarks, FutureMarks, Fits, InvertAll, Timeline;
    if s.redo != [] {
      var r, e := Popped(s.redo), Top(s.redo);
      assert s == EngineState(s.entities, s.undo, r + [e]);
      RedoTop(s);
      var after := ApplyAll(s.entities, e.forward).entities;
      MarkMoves(s.undo, e, r, after);
      var marks, m := FutureMarks(after, r), Mark(e.commandId, e.scope, after);
      assert (marks + [m])[..|marks|] == marks;
    }
  }

  /** One step of the engine is one step of the snapshot editor, verdict included. */
  lemma StepRefinesHistory(s: EngineState, op: Op)
    requires Consistent(s) && FreshOp(s, op)
    ensures HistoryStep(Snapshots(s), op) == (Snapshots(Step(s, op).0), VerdictOf(Step(s, op).1))
  {
    match op
    case Apply(c) => ApplyRefinesHistory(s, c);
    case UndoLast(scope) => UndoRefinesHistory(s, scope);
    case RedoLast(scope) => RedoRefinesHistory(s, scope);
  }

  function HistoryRun(h: History, ops: seq<Op>): History
    decreases ops
  {
    if ops == [] then h else HistoryRun(HistoryStep(h, ops[0]).0, ops[1..])
  }

  /** Every run of the delta journal is a run of the snapshot editor. */
  lemma {:induction false} RunRefinesHistory(s: EngineState, ops: seq<Op>)
    requires Consistent(s) && FreshRun(s, ops)
    ensures HistoryRun(Snapshots(s), ops) == Snapshots(Run(s, ops))
    decreases ops
  {
    if ops != [] {
      StepRefinesHistory(s, ops[0]);
      StepKeepsConsistent(s, ops[0]);
      RunRefinesHistory(Step(s, ops[0]).0, ops[1..]);
    }
  }
}
