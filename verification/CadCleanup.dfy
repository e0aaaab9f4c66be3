/**
 CAD cleanup: grouping duplicate lines and merging collinear ones. Coordinates are
 reals, and lengths are compared through their squares.
 */
module CadCleanup {
  import opened Basics
  import opened Ordering

  datatype Point = Point(x: real, y: real)

  datatype LineEntity = LineEntity(id: nat, start: Point, end: Point)

  function Abs(r: real): real {
    if r < 0.0 then -r else r
  }

  predicate ApproxEqual(a: Point, b: Point, tol: real) {
    Abs(a.x - b.x) <= tol && Abs(a.y - b.y) <= tol
  }

  /** The same endpoints within the tolerance, one way round or the other. */
  predicate Duplicates(a: LineEntity, b: LineEntity, tol: real) {
    || (ApproxEqual(a.start, b.start, tol) && ApproxEqual(a.end, b.end, tol))
    || (ApproxEqual(a.start, b.end, tol) && ApproxEqual(a.end, b.start, tol))
  }

  // ----- What the duplicate groups are -----

  /** A line no earlier leader duplicates. */
  ghost predicate Leads(lines: seq<LineEntity>, tol: real, i: nat)
    requires i < |lines|
    decreases i, 1
  {
    !Taken(lines, tol, i, i)
  }

  /** Some leader before `n` and before `j` duplicates line `j`. */
  ghost predicate Taken(lines: seq<LineEntity>, tol: real, n: nat, j: nat)
    requires n <= j < |lines|
    decreases n, 0
  {
    exists k :: 0 <= k < n && Leads(lines, tol, k) && Duplicates(lines[k], lines[j], tol)
  }

  /** Line `i` and the later lines below `n` that fall to it, in list order. */
  ghost function Members(lines: seq<LineEntity>, tol: real, i: nat, n: nat): seq<nat>
    requires i < n <= |lines|
    decreases n
  {
    if n == i + 1 then [i]
    else
      Members(lines, tol, i, n - 1)
      + if Duplicates(lines[i], lines[n - 1], tol) && !Taken(lines, tol, i, n - 1) then [n - 1] else []
  }

  /** The groups of the leaders below `n` that have company, as line indices. */
  ghost function IndexGroups(lines: seq<LineEntity>, tol: real, n: nat): seq<seq<nat>>
    requires n <= |lines|
    decreases n
  {
    if n == 0 then []
    else
      IndexGroups(lines, tol, n - 1)
      + if Leads(lines, tol, n - 1) && |Members(lines, tol, n - 1, |lines|)| > 1 then [Members(lines, tol, n - 1, |lines|)] else []
  }

  predicate AllBelow(g: seq<nat>, n: nat) {
    forall k :: 0 <= k < |g| ==> g[k] < n
  }

  function Ids(lines: seq<LineEntity>, g: seq<nat>): (r: seq<nat>)
    requires AllBelow(g, |lines|)
    ensures |r| == |g| && forall i :: 0 <= i < |g| ==> r[i] == lines[g[i]].id
  {
    seq(|g|, i requires 0 <= i < |g| => lines[g[i]].id)
  }

  predicate AtMost(a: nat, b: nat) {
    a <= b
  }

  lemma AtMostIsTotal()
    ensures TotalOrder(AtMost)
  {
  }

  ghost predicate InRange(lines: seq<LineEntity>, groups: seq<seq<nat>>) {
    forall k :: 0 <= k < |groups| ==> AllBelow(groups[k], |lines|)
  }

  /** The groups as the caller sees them: each one's ids, smallest first. */
  ghost function IdGroups(lines: seq<LineEntity>, groups: seq<seq<nat>>): (r: seq<seq<nat>>)
    requires InRange(lines, groups)
    ensures |r| == |groups| && forall k :: 0 <= k < |groups| ==> r[k] == Sort(AtMost, Ids(lines, groups[k]))
  {
    seq(|groups|, k requires 0 <= k < |groups| => Sort(AtMost, Ids(lines, groups[k])))
  }

  /** A group starts with its leader and ascends. */
  lemma {:induction false} MembersAscend(lines: seq<LineEntity>, tol: real, i: nat, n: nat)
    requires i < n <= |lines|
    ensures var g := Members(lines, tol, i, n);
            && g != [] && g[0] == i && AllBelow(g, n)
            && forall a, b :: 0 <= a < b < |g| ==> g[a] < g[b]
    decreases n
  {
    hide Duplicates, Taken;
    if n > i + 1 {
      MembersAscend(lines, tol, i, n - 1);
    }
  }

  /** Membership in a group. */
  ghost predicate FallsTo(lines: seq<LineEntity>, tol: real, i: nat, j: nat)
    requires i < |lines|
  {
    j == i || (i < j < |lines| && Duplicates(lines[i], lines[j], tol) && !Taken(lines, tol, i, j))
  }

  lemma {:induction false} MembersMeaning(lines: seq<LineEntity>, tol: real, i: nat, n: nat, j: nat)
    requires i < n <= |lines|
    ensures j in Members(lines, tol, i, n) <==> j < n && FallsTo(lines, tol, i, j)
    decreases n
  {
    hide Duplicates, Taken;
    if n > i + 1 {
      MembersMeaning(lines, tol, i, n - 1, j);
    }
  }

  lemma GroupsStep(lines: seq<LineEntity>, tol: real, i: nat)
    requires i < |lines|
    ensures IndexGroups(lines, tol, i + 1)
         == IndexGroups(lines, tol, i)
            + if Leads(lines, tol, i) && |Members(lines, tol, i, |lines|)| > 1 then [Members(lines, tol, i, |lines|)] else []
    ensures AllBelow(Members(lines, tol, i, |lines|), |lines|)
  {
    MembersAscend(lines, tol, i, |lines|);
  }

  lemma {:induction false} GroupsInRange(lines: seq<LineEntity>, tol: real, n: nat)
    requires n <= |lines|
    ensures InRange(lines, IndexGroups(lines, tol, n))
    decreases n
  {
    hide Leads, Members;
    if n > 0 {
      GroupsInRange(lines, tol, n - 1);
      GroupsStep(lines, tol, n - 1);
    }
  }

  method DedupeEntities(lines: seq<LineEntity>, tol: real) returns (groups: seq<seq<nat>>)
    ensures InRange(lines, IndexGroups(lines, tol, |lines|))
    ensures groups == IdGroups(lines, IndexGroups(lines, tol, |lines|))
  {
    hide Leads, Members, IndexGroups, InRange, AllBelow;
    groups := [];
    var seen := new bool[|lines|](_ => false);
    var i := 0;
    ghost var indices: seq<seq<nat>> := [];
    FirstGroups(lines, tol);
    while i < |lines|
      invariant 0 <= i <= |lines|
      invariant forall j :: i <= j < |lines| ==> (seen[j] <==> Taken(lines, tol, i, j))
      invariant indices == IndexGroups(lines, tol, i) && InRange(lines, indices)
      invariant groups == IdGroups(lines, indices)
    {
      GroupsStep(lines, tol, i);
      GroupsInRange(lines, tol, i + 1);
      LeadsMeaning(lines, tol, i);
      if seen[i] {
        forall j | i < j < |lines| ensures Taken(lines, tol, i + 1, j) <==> Taken(lines, tol, i, j) {
          TakenNext(lines, tol, i, j);
        }
      } else {
        var group := GroupOf(lines, tol, i, seen);
        if |group| > 1 {
          indices := indices + [Members(lines, tol, i, |lines|)];
          groups := groups + [Sort(AtMost, group)];
        }
      }
      i := i + 1;
    }
  }

  lemma FirstGroups(lines: seq<LineEntity>, tol: real)
    ensures IndexGroups(lines, tol, 0) == [] && InRange(lines, [])
    ensures forall j :: 0 <= j < |lines| ==> !Taken(lines, tol, 0, j)
  {
  }

  lemma LeadsMeaning(lines: seq<LineEntity>, tol: real, i: nat)
    requires i < |lines|
    ensures Leads(lines, tol, i) <==> !Taken(lines, tol, i, i)
  {
  }

  /** The inner loop: collects the lines that fall to leader `i` and marks them. */
  method GroupOf(lines: seq<LineEntity>, tol: real, i: nat, seen: array<bool>) returns (group: seq<nat>)
    requires i < |lines| == seen.Length
    requires forall j :: i <= j < |lines| ==> (seen[j] <==> Taken(lines, tol, i, j))
    requires Leads(lines, tol, i)
    modifies seen
    ensures AllBelow(Members(lines, tol, i, |lines|), |lines|)
    ensures group == Ids(lines, Members(lines, tol, i, |lines|))
    ensures forall j :: i < j < |lines| ==> (seen[j] <==> Taken(lines, tol, i + 1, j))
  {
    hide Duplicates, Taken, Leads, Members, AllBelow;
    group := [lines[i].id];
    seen[i] := true;
    var j := i + 1;
    MembersStep(lines, tol, i, j);
    while j < |lines|
      invariant i < j <= |lines|
      invariant AllBelow(Members(lines, tol, i, j), |lines|)
      invariant group == Ids(lines, Members(lines, tol, i, j))
      invariant forall m :: i < m < j ==> (seen[m] <==> Taken(lines, tol, i, m) || Duplicates(lines[i], lines[m], tol))
      invariant forall m :: j <= m < |lines| ==> (seen[m] <==> Taken(lines, tol, i, m))
    {
      MembersStep(lines, tol, i, j + 1);
      if !seen[j] && Duplicates(lines[i], lines[j], tol) {
        group := group + [lines[j].id];
        seen[j] := true;
      }
      j := j + 1;
    }
    forall m | i < m < |lines| ensures Taken(lines, tol, i + 1, m) <==> Taken(lines, tol, i, m) || Duplicates(lines[i], lines[m], tol) {
      TakenNext(lines, tol, i, m);
    }
  }

  lemma MembersStep(lines: seq<LineEntity>, tol: real, i: nat, n: nat)
    requires i < n <= |lines|
    ensures AllBelow(Members(lines, tol, i, n), |lines|)
    ensures n == i + 1 ==> Members(lines, tol, i, n) == [i]
    ensures n > i + 1 ==>
      Members(lines, tol, i, n) == Members(lines, tol, i, n - 1)
        + if Duplicates(lines[i], lines[n - 1], tol) && !Taken(lines, tol, i, n - 1) then [n - 1] else []
  {
    MembersAscend(lines, tol, i, n);
  }

  lemma TakenNext(lines: seq<LineEntity>, tol: real, i: nat, j: nat)
    requires i < j < |lines|
    ensures Taken(lines, tol, i + 1, j)
       <==> Taken(lines, tol, i, j) || (Leads(lines, tol, i) && Duplicates(lines[i], lines[j], tol))
  {
  }

  // ----- Merging collinear lines -----

  /** The square of the machine epsilon of 64-bit floats, 2 to the power -104. */
  const EPSILON_SQUARED: real := 1.0 / 20282409603651670423947251286016.0

  datatype CleanupConfig = CleanupConfig(dedupeTolerance: real, collinearityTolerance: real)

  function Minus(a: Point, b: Point): Point {
    Point(a.x - b.x, a.y - b.y)
  }

  function Cross(d: Point, e: Point): real {
    d.x * e.y - d.y * e.x
  }

  function Dot(d: Point, e: Point): real {
    d.x * e.x + d.y * e.y
  }

  function Square(x: real): real {
    x * x
  }

  /** Lengths compare as their squares do. */
  lemma SquareOrder(a: real, b: real)
    requires a >= 0.0 && b >= 0.0
    ensures a * a <= b * b <==> a <= b
  {
    var gap, sum := b - a, b + a;
    assert gap * sum == b * b - a * a;
    if a <= b {
      assert gap * sum >= 0.0;
    } else {
      assert gap < 0.0 && sum > 0.0;
      assert gap * sum < 0.0;
    }
  }

  function AngleBound(t: real, n1: real, n2: real): real {
    t * t * n1 * n2
  }

  /** The lines meet at these ends and run along one direction, up to the tolerances. */
  predicate Joins(aFar: Point, aShared: Point, bShared: Point, bFar: Point, cfg: CleanupConfig) {
    && ApproxEqual(aShared, bShared, cfg.dedupeTolerance)
    && var d1, d2 := Minus(aShared, aFar), Minus(bFar, bShared);
       var n1, n2 := Dot(d1, d1), Dot(d2, d2);
       var t := cfg.collinearityTolerance;
       && n1 >= EPSILON_SQUARED && n2 >= EPSILON_SQUARED
       && t > 0.0 && Square(Cross(d1, d2)) < AngleBound(t, n1, n2)
  }

  /** The far ends of the first of the four end pairings that joins. */
  function MergeEnds(a: LineEntity, b: LineEntity, cfg: CleanupConfig): Option<(Point, Point)> {
    if Joins(a.start, a.end, b.start, b.end, cfg) then Some((a.start, b.end))
    else if Joins(a.start, a.end, b.end, b.start, cfg) then Some((a.start, b.start))
    else if Joins(a.end, a.start, b.start, b.end, cfg) then Some((a.end, b.end))
    else if Joins(a.end, a.start, b.end, b.start, cfg) then Some((a.end, b.start))
    else None
  }

  datatype IndexMerge = IndexMerge(a: nat, b: nat, start: Point, end: Point)

  datatype CollinearMerge = CollinearMerge(lineA: nat, lineB: nat, start: Point, end: Point)

  /** The first line from `j` on that is free and merges with line `i`. */
  ghost function Partner(lines: seq<LineEntity>, cfg: CleanupConfig, used: set<nat>, i: nat, j: nat): (r: Option<nat>)
    requires i < j <= |lines|
    ensures r.Some? ==> j <= r.value < |lines| && r.value !in used && MergeEnds(lines[i], lines[r.value], cfg).Some?
    ensures forall k :: j <= k < (if r.Some? then r.value else |lines|) && k !in used ==> MergeEnds(lines[i], lines[k], cfg).None?
    decreases |lines| - j
  {
    if j == |lines| then None
    else if j !in used && MergeEnds(lines[i], lines[j], cfg).Some? then Some(j)
    else Partner(lines, cfg, used, i, j + 1)
  }

  /** Each line in turn takes its first free partner. */
  ghost function Merges(lines: seq<LineEntity>, cfg: CleanupConfig, i: nat, used: set<nat>): seq<IndexMerge>
    requires i <= |lines|
    decreases |lines| - i
  {
    if i == |lines| then []
    else if i in used then Merges(lines, cfg, i + 1, used)
    else
      match Partner(lines, cfg, used, i, i + 1)
      case None => Merges(lines, cfg, i + 1, used)
      case Some(j) =>
        var (s, e) := MergeEnds(lines[i], lines[j], cfg).value;
        [IndexMerge(i, j, s, e)] + Merges(lines, cfg, i + 1, used + {i, j})
  }

  function Named(lines: seq<LineEntity>, m: IndexMerge): CollinearMerge
    requires m.a < |lines| && m.b < |lines|
  {
    CollinearMerge(lines[m.a].id, lines[m.b].id, m.start, m.end)
  }

  ghost predicate Indexed(lines: seq<LineEntity>, ms: seq<IndexMerge>) {
    forall k :: 0 <= k < |ms| ==> ms[k].a < |lines| && ms[k].b < |lines|
  }

  ghost function AllNamed(lines: seq<LineEntity>, ms: seq<IndexMerge>): (r: seq<CollinearMerge>)
    requires Indexed(lines, ms)
    ensures |r| == |ms| && forall k :: 0 <= k < |ms| ==> r[k] == Named(lines, ms[k])
  {
    seq(|ms|, k requires 0 <= k < |ms| => Named(lines, ms[k]))
  }

  lemma {:induction false} MergesIndexed(lines: seq<LineEntity>, cfg: CleanupConfig, i: nat, used: set<nat>)
    requires i <= |lines|
    ensures Indexed(lines, Merges(lines, cfg, i, used))
    decreases |lines| - i
  {
    hide MergeEnds;
    if i < |lines| {
      if i in used || Partner(lines, cfg, used, i, i + 1).None? {
        MergesIndexed(lines, cfg, i + 1, used);
      } else {
        MergesIndexed(lines, cfg, i + 1, used + {i, Partner(lines, cfg, used, i, i + 1).value});
      }
    }
  }

  /** The free indices, as the flags of the loop. */
  ghost predicate Flags(used: array<bool>, set_: set<nat>)
    reads used
  {
    && (forall k :: 0 <= k < used.Length ==> (used[k] <==> k in set_))
    && forall k :: k in set_ ==> k < used.Length
  }

  method MergeCollinear(lines: seq<LineEntity>, cfg: CleanupConfig) returns (out: seq<CollinearMerge>)
    ensures Indexed(lines, Merges(lines, cfg, 0, {}))
    ensures out == AllNamed(lines, Merges(lines, cfg, 0, {}))
  {
    hide MergeEnds, Merges;
    MergesIndexed(lines, cfg, 0, {});
    out := [];
    var used := new bool[|lines|](_ => false);
    ghost var taken: set<nat> := {};
    ghost var done: seq<IndexMerge> := [];
    var i := 0;
    while i < |lines|
      invariant 0 <= i <= |lines|
      invariant Flags(used, taken)
      invariant Merges(lines, cfg, 0, {}) == done + Merges(lines, cfg, i, taken)
      invariant Indexed(lines, done) && out == AllNamed(lines, done)
    {
      MergesStep(lines, cfg, i, taken);
      if used[i] {
        i := i + 1;
        continue;
      }
      var j := FindPartner(lines, cfg, used, i, taken);
      if j < |lines| {
        var (s, e) := MergeEnds(lines[i], lines[j], cfg).value;
        out := out + [CollinearMerge(lines[i].id, lines[j].id, s, e)];
        ghost var m := IndexMerge(i, j, s, e);
        assert done + ([m] + Merges(lines, cfg, i + 1, taken + {i, j})) == (done + [m]) + Merges(lines, cfg, i + 1, taken + {i, j});
        done := done + [m];
        used[i], used[j] := true, true;
        taken := taken + {i, j};
      }
      i := i + 1;
    }
    MergesEnd(lines, cfg, taken);
    assert done + [] == done;
  }

  lemma MergesEnd(lines: seq<LineEntity>, cfg: CleanupConfig, used: set<nat>)
    ensures Merges(lines, cfg, |lines|, used) == []
  {
  }

  lemma MergesStep(lines: seq<LineEntity>, cfg: CleanupConfig, i: nat, used: set<nat>)
    requires i < |lines|
    ensures Merges(lines, cfg, i, used) ==
      if i in used || Partner(lines, cfg, used, i, i + 1).None? then Merges(lines, cfg, i + 1, used)
      else
        var j := Partner(lines, cfg, used, i, i + 1).value;
        var (s, e) := MergeEnds(lines[i], lines[j], cfg).value;
        [IndexMerge(i, j, s, e)] + Merges(lines, cfg, i + 1, used + {i, j})
  {
  }

  /** The inner loop: the index of the partner, or the number of lines. */
  method FindPartner(lines: seq<LineEntity>, cfg: CleanupConfig, used: array<bool>, i: nat, ghost taken: set<nat>)
    returns (j: nat)
    requires i < |lines| == used.Length && Flags(used, taken)
    ensures i < j <= |lines|
    ensures Partner(lines, cfg, taken, i, i + 1) == if j < |lines| then Some(j) else None
  {
    hide MergeEnds;
    j := i + 1;
    while j < |lines|
      invariant i < j <= |lines|
      invariant Partner(lines, cfg, taken, i, i + 1) == Partner(lines, cfg, taken, i, j)
    {
      if !used[j] && MergeEnds(lines[i], lines[j], cfg).Some? {
        return;
      }
      j := j + 1;
    }
  }
}
