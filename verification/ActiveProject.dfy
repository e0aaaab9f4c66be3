/** The tracker of the open project, whose lookup is suspended across an await. */
module ActiveProject {
  import opened Basics
  import opened Ordering

  datatype Summary = Summary(projectId: Text, name: Text, path: Text, templateKey: Option<Text>, modifiedAt: Text)

  datatype Failure = EmptyPath | LookupFailed

  /** The two slots and every notification sent so far. */
  datatype State = State(path: Option<Text>, summary: Option<Summary>, notified: seq<Option<Summary>>)

  const Initial := State(None, None, [])

  /** What a resolve does before its await: answer at once, or wait with the path it read. */
  datatype Entry = Answered(summary: Option<Summary>) | Waiting(pathAtEntry: Text)

  // ----- One call -----

  function Activated(s: State, summary: Summary): State {
    State(Some(summary.path), Some(summary), s.notified + [Some(summary)])
  }

  function Closed(s: State): State {
    State(None, None, s.notified + [None])
  }

  function PathOnly(s: State, path: Text): State {
    s.(path := Some(path),
       summary := if s.summary.Some? && s.summary.value.path != path then None else s.summary)
  }

  function EntryOf(s: State): Entry {
    if s.summary.Some? then Answered(s.summary)
    else if s.path.None? then Answered(None)
    else Waiting(s.path.value)
  }

  ghost predicate FirstFor(recents: seq<Summary>, path: Text, i: int) {
    0 <= i < |recents| && recents[i].path == path && forall j :: 0 <= j < i ==> recents[j].path != path
  }

  /** `recents.find` on the captured path. */
  function FirstRecent(recents: seq<Summary>, path: Text): (r: Option<Summary>)
    ensures r.Some? ==> exists i :: FirstFor(recents, path, i) && r == Some(recents[i])
    ensures r.None? ==> forall i :: 0 <= i < |recents| ==> recents[i].path != path
  {
    if recents == [] then None
    else if recents[0].path == path then
      assert FirstFor(recents, path, 0);
      Some(recents[0])
    else
      var r := FirstRecent(recents[1..], path);
      assert r.Some? ==> exists i :: FirstFor(recents, path, i) && r == Some(recents[i]) by {
        if r.Some? {
          var i :| FirstFor(recents[1..], path, i) && r == Some(recents[1..][i]);
          assert forall j :: 0 < j < i + 1 ==> recents[j] == recents[1..][j - 1];
          assert FirstFor(recents, path, i + 1) && r == Some(recents[i + 1]);
        }
      }
      r
  }

  /** The outcome of a resolve whose lookup brought `recents`. */
  function Found(s: State, pathAtEntry: Text, recents: seq<Summary>): Option<Summary> {
    if s.path != Some(pathAtEntry) then None else FirstRecent(recents, pathAtEntry)
  }

  function Finished(s: State, pathAtEntry: Text, recents: seq<Summary>): State {
    var found := Found(s, pathAtEntry, recents);
    if found.Some? then Activated(s, found.value) else s
  }

  class Tracker {
    var activeProjectPath: Option<Text>
    var activeProjectSummary: Option<Summary>
    /** What the listeners have been sent. */
    var notified: seq<Option<Summary>>

    function Now(): State
      reads this
    {
      State(activeProjectPath, activeProjectSummary, notified)
    }

    constructor ()
      ensures Now() == Initial
    {
      activeProjectPath, activeProjectSummary, notified := None, None, [];
    }

    method Notify()
      modifies this`notified
      ensures notified == old(notified) + [activeProjectSummary]
    {
      notified := notified + [activeProjectSummary];
    }

    method SetActiveProjectPath(path: Text) returns (r: Result<(), Failure>)
      modifies this
      ensures r == if path == [] then Err(EmptyPath) else Ok(())
      ensures Now() == if path == [] then old(Now()) else PathOnly(old(Now()), path)
    {
      if path == [] {
        return Err(EmptyPath);
      }
      activeProjectPath := Some(path);
      if activeProjectSummary.Some? && activeProjectSummary.value.path != path {
        activeProjectSummary := None;
      }
      return Ok(());
    }

    method SetActiveProject(summary: Summary) returns (r: Result<(), Failure>)
      modifies this
      ensures r == if summary.path == [] then Err(EmptyPath) else Ok(())
      ensures Now() == if summary.path == [] then old(Now()) else Activated(old(Now()), summary)
    {
      if summary.path == [] {
        return Err(EmptyPath);
      }
      activeProjectPath := Some(summary.path);
      activeProjectSummary := Some(summary);
      Notify();
      return Ok(());
    }

    method SetActiveProjectIfMatchesActive(summary: Summary) returns (r: Result<bool, Failure>)
      modifies this
      ensures r == if activeProjectPath != Some(summary.path) then Ok(false)
                   else if summary.path == [] then Err(EmptyPath) else Ok(true)
      ensures Now() == if r == Ok(true) then Activated(old(Now()), summary) else old(Now())
    {
      if activeProjectPath != Some(summary.path) {
        return Ok(false);
      }
      var _ :- SetActiveProject(summary);
      return Ok(true);
    }

    method ClearActiveProjectPath()
      modifies this
      ensures Now() == Closed(old(Now()))
    {
      activeProjectPath := None;
      activeProjectSummary := None;
      Notify();
    }

    /** A resolve up to its await. */
    method BeginResolve() returns (e: Entry)
      ensures e == EntryOf(Now())
    {
      var summary, pathAtEntry := activeProjectSummary, activeProjectPath;
      if summary.Some? {
        return Answered(summary);
      }
      if pathAtEntry.None? {
        return Answered(None);
      }
      return Waiting(pathAtEntry.value);
    }

    /** A resolve from its await on; a lookup that failed brings None. */
    method FinishResolve(pathAtEntry: Text, lookup: Option<seq<Summary>>) returns (r: Result<Option<Summary>, Failure>)
      requires pathAtEntry != []
      modifies this
      ensures r == if lookup.None? then Err(LookupFailed) else Ok(Found(old(Now()), pathAtEntry, lookup.value))
      ensures Now() == if lookup.None? then old(Now()) else Finished(old(Now()), pathAtEntry, lookup.value)
    {
      if lookup.None? {
        return Err(LookupFailed);
      }
      var pathNow := activeProjectPath;
      if pathNow != Some(pathAtEntry) {
        return Ok(None);
      }
      var found := FirstRecent(lookup.value, pathAtEntry);
      if found.Some? {
        var activated := SetActiveProject(found.value);
        assert activated.Ok?;
        return Ok(found);
      }
      return Ok(None);
    }
  }

  // ----- Runs: any interleaving, with any number of resolves suspended -----

  datatype Op =
    | Open(summary: Summary)
    | Save(summary: Summary)
    | Close
    | SetPath(path: Text)
    | Begin
    | Finish(slot: nat, lookup: Option<seq<Summary>>)

  /** The tracker and the path each suspended resolve read at its entry. */
  datatype World = World(state: State, pending: seq<Text>)

  function Step(w: World, op: Op): World {
    match op
    case Open(summary) =>
      if summary.path == [] then w else w.(state := Activated(w.state, summary))
    case Save(summary) =>
      if w.state.path != Some(summary.path) || summary.path == [] then w
      else w.(state := Activated(w.state, summary))
    case Close => w.(state := Closed(w.state))
    case SetPath(path) => if path == [] then w else w.(state := PathOnly(w.state, path))
    case Begin =>
      var e := EntryOf(w.state);
      if e.Waiting? then w.(pending := w.pending + [e.pathAtEntry]) else w
    case Finish(slot, lookup) =>
      if slot >= |w.pending| then w
      else World(if lookup.None? then w.state else Finished(w.state, w.pending[slot], lookup.value),
                 w.pending[..slot] + w.pending[slot + 1..])
  }

  function Run(w: World, ops: seq<Op>): World
    decreases |ops|
  {
    if ops == [] then w else Run(Step(w, ops[0]), ops[1..])
  }

  ghost predicate Coherent(w: World) {
    && (w.state.summary.Some? ==> w.state.path == Some(w.state.summary.value.path))
    && w.state.path != Some([])
    && (forall i :: 0 <= i < |w.pending| ==> w.pending[i] != [])
  }

  lemma {:induction false} RunsStayCoherent(w: World, ops: seq<Op>)
    requires Coherent(w)
    ensures Coherent(Run(w, ops))
    decreases |ops|
  {
    if ops != [] {
      RunsStayCoherent(Step(w, ops[0]), ops[1..]);
    }
  }

  /** The project the user last asked for, read off the end of the history. */
  function Intent(start: Option<Text>, ops: seq<Op>): Option<Text> {
    if ops == [] then start
    else match ops[|ops| - 1]
      case Open(summary) => if summary.path == [] then Intent(start, ops[..|ops| - 1]) else Some(summary.path)
      case SetPath(path) => if path == [] then Intent(start, ops[..|ops| - 1]) else Some(path)
      case Close => None
      case _ => Intent(start, ops[..|ops| - 1])
  }

  lemma {:induction false} RunSnoc(w: World, ops: seq<Op>, op: Op)
    ensures Run(w, ops + [op]) == Step(Run(w, ops), op)
    decreases |ops|
  {
    if ops == [] {
      assert Run(w, [op]) == Run(Step(w, op), []);
    } else {
      assert (ops + [op])[0] == ops[0] && (ops + [op])[1..] == ops[1..] + [op];
      RunSnoc(Step(w, ops[0]), ops[1..], op);
    }
  }

  /** Whatever saves and resolves are interleaved, the active path is the one last asked for. */
  lemma {:induction false} ActivePathIsIntent(w: World, ops: seq<Op>)
    requires Coherent(w)
    ensures Run(w, ops).state.path == Intent(w.state.path, ops)
  {
    if ops != [] {
      var n := |ops| - 1;
      ActivePathIsIntent(w, ops[..n]);
      RunsStayCoherent(w, ops[..n]);
      RunSnoc(w, ops[..n], ops[n]);
      assert ops[..n] + [ops[n]] == ops;
    }
  }

  /**
    * A resolve suspended with `path`, resumed after any run: it hands out a summary exactly when the
    * user's last request is still that path and the lookup knows it; what it hands out and caches
    * belongs to that path; the active path stays; otherwise nothing changes.
    */
  lemma ResumedResolve(w: World, ops: seq<Op>, path: Text, recents: seq<Summary>)
    requires Coherent(w)
    ensures var s := Run(w, ops).state;
            var found := Found(s, path, recents);
            var after := Finished(s, path, recents);
            && (found.Some? <==> Intent(w.state.path, ops) == Some(path) && exists i :: 0 <= i < |recents| && recents[i].path == path)
            && (found.Some? ==> found.value in recents && found.value.path == path && after.summary == found)
            && after.path == s.path
            && (found.None? ==> after == s)
  {
    ActivePathIsIntent(w, ops);
    var f := FirstRecent(recents, path);
    if f.Some? {
      var i :| FirstFor(recents, path, i) && f == Some(recents[i]);
      assert recents[i].path == path;
    }
  }

  // ----- Without the path-only setter -----

  /** The one slot that opening, saving and closing are about. */
  function Slot(start: Option<Summary>, ops: seq<Op>): Option<Summary>
    decreases |ops|
  {
    if ops == [] then start else Slot(NextSlot(start, ops[0]), ops[1..])
  }

  function NextSlot(slot: Option<Summary>, op: Op): Option<Summary> {
    match op
    case Open(summary) => if summary.path == [] then slot else Some(summary)
    case Save(summary) => if slot.Some? && slot.value.path == summary.path then Some(summary) else slot
    case Close => None
    case _ => slot
  }

  ghost predicate Settled(w: World) {
    && Coherent(w)
    && (w.state.path.Some? ==> w.state.summary.Some?)
    && w.pending == []
  }

  ghost predicate UsesPathSetter(ops: seq<Op>) {
    exists i :: 0 <= i < |ops| && ops[i].SetPath?
  }

  /** The listeners' last word, or the start value when nothing was sent. */
  function LastWord(start: Option<Summary>, notified: seq<Option<Summary>>): Option<Summary> {
    if notified == [] then start else notified[|notified| - 1]
  }

  /** The two slots and the listeners follow the single slot, and no resolve ever waits. */
  lemma {:induction false} WithoutPathSetterOneSlot(w: World, ops: seq<Op>)
    requires Settled(w) && LastWord(None, w.state.notified) == w.state.summary
    requires !UsesPathSetter(ops)
    ensures var after := Run(w, ops);
            && Settled(after)
            && after.state.summary == Slot(w.state.summary, ops)
            && LastWord(None, after.state.notified) == after.state.summary
            && EntryOf(after.state) == Answered(after.state.summary)
    decreases |ops|
  {
    if ops != [] {
      assert !ops[0].SetPath?;
      assert forall i :: 0 <= i < |ops[1..]| ==> ops[1..][i] == ops[i + 1];
      CallKeepsOneSlot(w, ops[0]);
      hide Step, NextSlot, Settled, LastWord, EntryOf;
      WithoutPathSetterOneSlot(Step(w, ops[0]), ops[1..]);
    }
  }

  lemma CallKeepsOneSlot(w: World, op: Op)
    requires Settled(w) && LastWord(None, w.state.notified) == w.state.summary && !op.SetPath?
    ensures var after := Step(w, op);
            && Settled(after) && after.state.summary == NextSlot(w.state.summary, op)
            && LastWord(None, after.state.notified) == after.state.summary
  { }

  /** Before any path-only call nothing waits; after one, the next resolve may. */
  lemma WaitsOnlyAfterPathSetter(ops: seq<Op>)
    requires Run(World(Initial, []), ops).pending != [] || EntryOf(Run(World(Initial, []), ops).state).Waiting?
    ensures UsesPathSetter(ops)
  {
    if !UsesPathSetter(ops) {
      WithoutPathSetterOneSlot(World(Initial, []), ops);
    }
  }

  /** The re-check compares paths only: closing and reopening in between lets an older record in. */
  lemma ReopenedProjectMayGoStale(older: Summary, newer: Summary)
    requires older.path == newer.path != [] && older != newer
    ensures var ops := [SetPath(older.path), Begin, Close, Open(newer), Finish(0, Some([older]))];
            var before, after := Run(World(Initial, []), ops[..4]).state, Run(World(Initial, []), ops).state;
            before.summary == Some(newer) && after.summary == Some(older) && after.path == before.path
  {
    var ops := [SetPath(older.path), Begin, Close, Open(newer), Finish(0, Some([older]))];
    var w0 := World(Initial, []);
    var w1 := Step(w0, ops[0]);
    var w2 := Step(w1, Begin);
    var w3 := Step(w2, Close);
    var w4 := Step(w3, Open(newer));
    assert w4.pending == [older.path];
    assert ops[..0] == [] && ops[..1] == ops[..0] + [ops[0]] && ops[..2] == ops[..1] + [Begin]
        && ops[..3] == ops[..2] + [Close] && ops[..4] == ops[..3] + [Open(newer)] && ops == ops[..4] + [ops[4]];
    RunSnoc(w0, ops[..0], ops[0]);
    RunSnoc(w0, ops[..1], Begin);
    RunSnoc(w0, ops[..2], Close);
    RunSnoc(w0, ops[..3], Open(newer));
    RunSnoc(w0, ops[..4], ops[4]);
  }

  // ----- What a resumption can replace -----

  /** The summary a call makes current, if it does. */
  function Offered(w: World, op: Op): Option<Summary> {
    match op
    case Open(summary) => if summary.path == [] then None else Some(summary)
    case Save(summary) => if w.state.path != Some(summary.path) || summary.path == [] then None else Some(summary)
    case Finish(slot, lookup) =>
      if slot >= |w.pending| || lookup.None? then None else Found(w.state, w.pending[slot], lookup.value)
    case _ => None
  }

  /** A call that leaves no summary of `path`: a close, or a move to another path. */
  predicate Leaves(op: Op, path: Text) {
    match op
    case Open(summary) => summary.path != [] && summary.path != path
    case SetPath(other) => other != [] && other != path
    case Close => true
    case _ => false
  }

  /** Call `k` offers `summary`, and no later one offers another or leaves its path. */
  ghost predicate LastOffer(w: World, ops: seq<Op>, k: int, summary: Summary) {
    && 0 <= k < |ops| && Offered(Run(w, ops[..k]), ops[k]) == Some(summary)
    && forall m :: k < m < |ops| ==> Offered(Run(w, ops[..m]), ops[m]).None? && !Leaves(ops[m], summary.path)
  }

  lemma OneCall(w: World, op: Op)
    requires Coherent(w)
    ensures var before, after := w.state.summary, Step(w, op).state.summary;
            after == if Offered(w, op).Some? then Offered(w, op)
                     else if before.Some? && Leaves(op, before.value.path) then None else before
  { }

  /** A tracker without a summary has one after a run exactly when some call of the run offered it for good. */
  lemma {:induction false} CachedIffLastOffer(w: World, ops: seq<Op>, summary: Summary)
    requires Coherent(w) && w.state.summary.None?
    ensures Run(w, ops).state.summary == Some(summary) <==> exists k :: LastOffer(w, ops, k, summary)
    decreases |ops|
  {
    hide Offered, Leaves, Step, Coherent;
    if ops == [] {
      assert Run(w, ops) == w;
    } else {
      var n := |ops| - 1;
      var init, last := ops[..n], ops[n];
      assert init + [last] == ops;
      CachedIffLastOffer(w, init, summary);
      RunsStayCoherent(w, init);
      RunSnoc(w, init, last);
      OneCall(Run(w, init), last);
      forall m | 0 <= m <= n ensures init[..m] == ops[..m] { }
      if k :| LastOffer(w, init, k, summary) {
        assert Offered(Run(w, init), last).None? && !Leaves(last, summary.path) ==> LastOffer(w, ops, k, summary);
      }
      if k :| LastOffer(w, ops, k, summary) {
        assert k < n ==> LastOffer(w, init, k, summary);
      }
      assert Offered(Run(w, init), last) == Some(summary) ==> LastOffer(w, ops, n, summary);
    }
  }

  /** Finishing a resolve in this state takes the cached `newer` away. */
  ghost predicate Replaces(before: State, path: Text, recents: seq<Summary>, newer: Summary) {
    before.summary == Some(newer) && Finished(before, path, recents).summary != Some(newer)
  }

  /**
   A suspended resolve replaces a summary on its resumption if and only if an open, a save or
   another resumption put one of the captured path there meanwhile, nothing left that path
   since, and the lookup's first record of it is a different one.
   */
  lemma ResumptionReplacesIff(w: World, ops: seq<Op>, path: Text, recents: seq<Summary>, newer: Summary)
    requires Coherent(w) && EntryOf(w.state) == Waiting(path)
    ensures Replaces(Run(w, ops).state, path, recents, newer)
       <==> newer.path == path && (exists k :: LastOffer(w, ops, k, newer))
            && exists i :: FirstFor(recents, path, i) && recents[i] != newer
  {
    hide LastOffer;
    CachedIffLastOffer(w, ops, newer);
    RunsStayCoherent(w, ops);
    var f := FirstRecent(recents, path);
    if f.Some? {
      var i :| FirstFor(recents, path, i) && f == Some(recents[i]);
      forall j | FirstFor(recents, path, j) ensures j == i {
        assert j < i || i < j || i == j;
      }
    }
  }

  // ----- Who is told -----

  /** One call sends at most one notification: the summary it makes current, or none after a close. */
  lemma StepNotifies(w: World, op: Op)
    ensures Step(w, op).state.notified
         == w.state.notified + (if Offered(w, op).Some? then [Offered(w, op)] else if op.Close? then [None] else [])
  { }

  /** A cached summary answers at once, a closed project answers none, and a path alone waits for the lookup. */
  lemma EntrySays(s: State)
    ensures s.summary.Some? ==> EntryOf(s) == Answered(s.summary)
    ensures s.summary.None? && s.path.None? ==> EntryOf(s) == Answered(None)
    ensures s.summary.None? && s.path.Some? ==> EntryOf(s) == Waiting(s.path.value)
  { }
}
