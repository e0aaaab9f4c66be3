/** CAD cleanup: the gaps to close, and what a whole proposal counts. Distances are kept as squares. */
module CadProposal {
  import opened Ordering
  import opened CadCleanup
  import opened CadLaws

  // ----- Gaps between endpoints -----

  datatype End = Start | Finish

  datatype GapClosure = GapClosure(
    lineA: nat, lineB: nat, endA: End, endB: End, from: Point, to: Point, distanceSquared: real)

  /** An end of one line and an end of a later one, by list position. */
  datatype IndexGap = IndexGap(a: nat, b: nat, endA: End, endB: End)

  function EndOf(line: LineEntity, e: End): Point {
    if e.Start? then line.start else line.end
  }

  function DistanceSquared(p: Point, q: Point): real {
    Dot(Minus(p, q), Minus(p, q))
  }

  predicate IsGap(p: Point, q: Point, tol: real) {
    tol >= 0.0 && 0.0 < DistanceSquared(p, q) <= Square(tol)
  }

  function Middle(p: Point, q: Point): Point {
    Point((p.x + q.x) / 2.0, (p.y + q.y) / 2.0)
  }

  function Closure(lines: seq<LineEntity>, g: IndexGap): GapClosure
    requires g.a < |lines| && g.b < |lines|
  {
    var p, q := EndOf(lines[g.a], g.endA), EndOf(lines[g.b], g.endB);
    GapClosure(lines[g.a].id, lines[g.b].id, g.endA, g.endB, p, Middle(p, q), DistanceSquared(p, q))
  }

  /** What the gaps are: any end of any line against any end of any later line. */
  ghost predicate GapAt(lines: seq<LineEntity>, tol: real, g: IndexGap) {
    g.a < g.b < |lines| && IsGap(EndOf(lines[g.a], g.endA), EndOf(lines[g.b], g.endB), tol)
  }

  function Rank(e: End): nat {
    if e.Start? then 0 else 1
  }

  /** The order of discovery: by first line, second line, first end, second end. */
  predicate Precedes(g: IndexGap, h: IndexGap) {
    || g.a < h.a
    || (g.a == h.a && g.b < h.b)
    || (g.a == h.a && g.b == h.b && 2 * Rank(g.endA) + Rank(g.endB) < 2 * Rank(h.endA) + Rank(h.endB))
  }

  /** Exactly the gaps that come before `next`, in order. */
  ghost predicate GapsBefore(lines: seq<LineEntity>, tol: real, gs: seq<IndexGap>, next: IndexGap) {
    && (forall g :: g in gs <==> GapAt(lines, tol, g) && Precedes(g, next))
    && forall k, l :: 0 <= k < l < |gs| ==> Precedes(gs[k], gs[l])
  }

  ghost predicate Closes(lines: seq<LineEntity>, gs: seq<IndexGap>, out: seq<GapClosure>) {
    && |out| == |gs|
    && forall k :: 0 <= k < |gs| ==> gs[k].a < |lines| && gs[k].b < |lines| && out[k] == Closure(lines, gs[k])
  }

  method Consider(lines: seq<LineEntity>, tol: real, g: IndexGap, ghost gs: seq<IndexGap>, before: seq<GapClosure>)
    returns (out: seq<GapClosure>, ghost gs': seq<IndexGap>)
    requires g.a < g.b < |lines| && Closes(lines, gs, before)
    ensures Closes(lines, gs', out)
    ensures gs' == if GapAt(lines, tol, g) then gs + [g] else gs
  {
    var p, q := EndOf(lines[g.a], g.endA), EndOf(lines[g.b], g.endB);
    out, gs' := before, gs;
    if IsGap(p, q, tol) {
      out := out + [Closure(lines, g)];
      gs' := gs' + [g];
    }
  }

  lemma OneMoreGap(lines: seq<LineEntity>, tol: real, gs: seq<IndexGap>, g: IndexGap, next: IndexGap)
    requires GapsBefore(lines, tol, gs, g)
    requires forall h :: GapAt(lines, tol, h) ==> (Precedes(h, next) <==> Precedes(h, g) || h == g)
    ensures GapsBefore(lines, tol, if GapAt(lines, tol, g) then gs + [g] else gs, next)
  {
    hide GapAt, Precedes;
    assert forall k :: 0 <= k < |gs| ==> gs[k] in gs;
  }

  /** Exactly the gaps, in order. */
  ghost predicate AllGaps(lines: seq<LineEntity>, tol: real, gs: seq<IndexGap>) {
    && (forall g :: g in gs <==> GapAt(lines, tol, g))
    && forall k, l :: 0 <= k < l < |gs| ==> Precedes(gs[k], gs[l])
  }

  method CloseGaps(lines: seq<LineEntity>, tol: real) returns (out: seq<GapClosure>)
    ensures exists gaps :: AllGaps(lines, tol, gaps) && Closes(lines, gaps, out)
  {
    hide IsGap, Closes, GapsBefore, AllGaps;
    ghost var gaps := [];
    out := [];
    assert GapsBefore(lines, tol, gaps, IndexGap(0, 1, Start, Start)) && Closes(lines, gaps, out) by {
      NoGapsYet(lines, tol);
    }
    for i := 0 to |lines|
      invariant Closes(lines, gaps, out) && GapsBefore(lines, tol, gaps, IndexGap(i, i + 1, Start, Start))
    {
      for j := i + 1 to |lines|
        invariant Closes(lines, gaps, out) && GapsBefore(lines, tol, gaps, IndexGap(i, j, Start, Start))
      {
        var g0, g1 := IndexGap(i, j, Start, Start), IndexGap(i, j, Start, Finish);
        var g2, g3 := IndexGap(i, j, Finish, Start), IndexGap(i, j, Finish, Finish);
        OneMoreGap(lines, tol, gaps, g0, g1);
        out, gaps := Consider(lines, tol, g0, gaps, out);
        OneMoreGap(lines, tol, gaps, g1, g2);
        out, gaps := Consider(lines, tol, g1, gaps, out);
        OneMoreGap(lines, tol, gaps, g2, g3);
        out, gaps := Consider(lines, tol, g2, gaps, out);
        OneMoreGap(lines, tol, gaps, g3, IndexGap(i, j + 1, Start, Start));
        out, gaps := Consider(lines, tol, g3, gaps, out);
      }
      NextRow(lines, tol, gaps, i);
    }
    LastRow(lines, tol, gaps);
  }

  lemma NoGapsYet(lines: seq<LineEntity>, tol: real)
    ensures GapsBefore(lines, tol, [], IndexGap(0, 1, Start, Start)) && Closes(lines, [], [])
  { }

  lemma NextRow(lines: seq<LineEntity>, tol: real, gs: seq<IndexGap>, i: nat)
    requires i < |lines| && GapsBefore(lines, tol, gs, IndexGap(i, |lines|, Start, Start))
    ensures GapsBefore(lines, tol, gs, IndexGap(i + 1, i + 2, Start, Start))
  { }

  lemma LastRow(lines: seq<LineEntity>, tol: real, gs: seq<IndexGap>)
    requires GapsBefore(lines, tol, gs, IndexGap(|lines|, |lines| + 1, Start, Start))
    ensures AllGaps(lines, tol, gs)
  { }

  /** Snapping either end to the proposed point closes the gap, and moves neither by more than half the tolerance. */
  lemma SnapMeetsHalfway(p: Point, q: Point, tol: real)
    requires IsGap(p, q, tol)
    ensures IsGap(q, p, tol) && Middle(p, q) == Middle(q, p)
    ensures DistanceSquared(Middle(p, q), p) == DistanceSquared(Middle(p, q), q) <= Square(tol) / 4.0
  {
    var u, v := p.x - q.x, p.y - q.y;
    var m := Middle(p, q);
    assert Minus(p, q) == Point(u, v) && Minus(q, p) == Point(-u, -v);
    assert Minus(m, p) == Point(-u / 2.0, -v / 2.0) && Minus(m, q) == Point(u / 2.0, v / 2.0);
    Halves(u);
    Halves(v);
  }

  lemma Halves(u: real)
    ensures (-u) * (-u) == u * u
    ensures (u / 2.0) * (u / 2.0) == u * u / 4.0
    ensures (-u / 2.0) * (-u / 2.0) == u * u / 4.0
  { }

  // ----- What a proposal counts -----

  datatype CleanupProposal = CleanupProposal(
    gaps: seq<GapClosure>, groups: seq<seq<nat>>, merges: seq<CollinearMerge>, relayered: seq<nat>)

  function Drops(groups: seq<seq<nat>>): nat {
    if groups == [] then 0
    else
      var last := groups[|groups| - 1];
      Drops(groups[..|groups| - 1]) + if last == [] then 0 else |last| - 1
  }

  method EntityCountModified(p: CleanupProposal) returns (n: nat)
    ensures n == 2 * |p.gaps| + Drops(p.groups) + 2 * |p.merges| + |p.relayered|
  {
    n := 2 * |p.gaps|;
    var dropped := 0;
    for k := 0 to |p.groups|
      invariant dropped == Drops(p.groups[..k])
    {
      assert p.groups[..k + 1][..k] == p.groups[..k];
      dropped := dropped + if |p.groups[k]| > 0 then |p.groups[k]| - 1 else 0;
    }
    assert p.groups[..|p.groups|] == p.groups;
    n := n + dropped + 2 * |p.merges| + |p.relayered|;
  }

  /** The lines below position `m` that are not leaders. */
  ghost function Followers(lines: seq<LineEntity>, tol: real, m: nat): set<nat>
    requires m <= |lines|
  {
    set j: nat | 0 <= j < m && !Leads(lines, tol, j)
  }

  /** The lines led by some earlier line below `n`. */
  ghost function Led(lines: seq<LineEntity>, tol: real, n: nat): set<nat>
    requires n <= |lines|
  {
    set j: nat | 0 <= j < |lines| && LedFrom(lines, tol, n, j)
  }

  ghost predicate LedFrom(lines: seq<LineEntity>, tol: real, n: nat, j: nat) {
    exists i: nat :: i < n && i < j && LedBy(lines, tol, j, i)
  }

  ghost function LedBySelf(lines: seq<LineEntity>, tol: real, i: nat): set<nat>
    requires i < |lines|
  {
    set j: nat | i < j < |lines| && LedBy(lines, tol, j, i)
  }

  ghost function Elements(g: seq<nat>): (r: set<nat>)
    ensures forall j :: j in r <==> j in g
  {
    if g == [] then {}
    else
      var n := |g| - 1;
      assert g == g[..n] + [g[n]];
      Elements(g[..n]) + {g[n]}
  }

  lemma {:induction false} AscendingAreDistinct(g: seq<nat>)
    requires forall a, b :: 0 <= a < b < |g| ==> g[a] < g[b]
    ensures |Elements(g)| == |g|
  {
    if g != [] {
      AscendingAreDistinct(g[..|g| - 1]);
    }
  }

  /** A leader's group is itself and the lines it leads. */
  lemma GroupSize(lines: seq<LineEntity>, tol: real, i: nat)
    requires i < |lines|
    ensures LedBySelf(lines, tol, i) != {} ==> Leads(lines, tol, i)
    ensures Leads(lines, tol, i) ==> |Members(lines, tol, i, |lines|)| == 1 + |LedBySelf(lines, tol, i)|
  {
    hide Duplicates, Members, Taken, Leads;
    var g := Members(lines, tol, i, |lines|);
    MembersAscend(lines, tol, i, |lines|);
    if Leads(lines, tol, i) {
      AscendingAreDistinct(g);
      var s := Elements(g);
      forall j: nat ensures j in s <==> j == i || j in LedBySelf(lines, tol, i) {
        MembersMeaning(lines, tol, i, |lines|, j);
      }
      assert s == LedBySelf(lines, tol, i) + {i};
    }
  }

  lemma LedStep(lines: seq<LineEntity>, tol: real, n: nat)
    requires n < |lines|
    ensures |Led(lines, tol, n + 1)| == |Led(lines, tol, n)| + |LedBySelf(lines, tol, n)|
  {
    hide LedBy;
    var before, more := Led(lines, tol, n), LedBySelf(lines, tol, n);
    forall j | j in before ensures j !in more {
      var i: nat :| i < n && i < j && LedBy(lines, tol, j, i);
      NotTwoLeaders(lines, tol, i, n, j);
    }
    assert Led(lines, tol, n + 1) == before + more;
  }

  lemma DropsSnoc(gs: seq<seq<nat>>, g: seq<nat>)
    requires g != []
    ensures Drops(gs + [g]) == Drops(gs) + |g| - 1
  {
    assert (gs + [g])[..|gs|] == gs;
  }

  lemma {:induction false} DropsAreLed(lines: seq<LineEntity>, tol: real, n: nat)
    requires n <= |lines|
    ensures Drops(IndexGroups(lines, tol, n)) == |Led(lines, tol, n)|
    decreases n
  {
    hide Leads, Members, Led, LedBySelf, Drops;
    if n == 0 {
      NoneLed(lines, tol);
    } else {
      var i := n - 1;
      DropsAreLed(lines, tol, i);
      GroupsStep(lines, tol, i);
      LedStep(lines, tol, i);
      GroupSize(lines, tol, i);
      var before, g := IndexGroups(lines, tol, i), Members(lines, tol, i, |lines|);
      if Leads(lines, tol, i) && |g| > 1 {
        DropsSnoc(before, g);
        assert IndexGroups(lines, tol, n) == before + [g];
      } else {
        assert |LedBySelf(lines, tol, i)| == 0;
        assert IndexGroups(lines, tol, n) == before + [] == before;
      }
    }
  }

  lemma NoneLed(lines: seq<LineEntity>, tol: real)
    ensures Led(lines, tol, 0) == {} && Drops([]) == 0
  { }

  lemma LedAreFollowers(lines: seq<LineEntity>, tol: real)
    ensures Led(lines, tol, |lines|) == Followers(lines, tol, |lines|)
  {
    hide Duplicates;
    forall j: nat | j < |lines| ensures j in Led(lines, tol, |lines|) <==> !Leads(lines, tol, j) {
      OneLeader(lines, tol, j);
      var i: nat :| i <= j && LedBy(lines, tol, j, i);
      if Leads(lines, tol, j) {
        assert LedBy(lines, tol, j, j);
      }
    }
  }

  lemma {:induction false} SameSizesDropAlike(gs: seq<seq<nat>>, hs: seq<seq<nat>>)
    requires |gs| == |hs| && forall k :: 0 <= k < |gs| ==> |gs[k]| == |hs[k]|
    ensures Drops(gs) == Drops(hs)
  {
    if gs != [] {
      SameSizesDropAlike(gs[..|gs| - 1], hs[..|hs| - 1]);
    }
  }

  /** What the count reports for duplicate groups is the number of lines that follow another. */
  lemma DropsAreFollowers(lines: seq<LineEntity>, tol: real)
    ensures InRange(lines, IndexGroups(lines, tol, |lines|))
    ensures Drops(IdGroups(lines, IndexGroups(lines, tol, |lines|))) == |Followers(lines, tol, |lines|)|
  {
    hide IndexGroups, Drops, Led, Followers, Sort;
    GroupsInRange(lines, tol, |lines|);
    var gs := IndexGroups(lines, tol, |lines|);
    var hs := IdGroups(lines, gs);
    AtMostIsTotal();
    forall k | 0 <= k < |gs| ensures |gs[k]| == |hs[k]| {
      SortSorts(AtMost, Ids(lines, gs[k]));
      SameMultisetSameLength(hs[k], Ids(lines, gs[k]));
    }
    SameSizesDropAlike(gs, hs);
    DropsAreLed(lines, tol, |lines|);
    LedAreFollowers(lines, tol);
  }

  lemma SameMultisetSameLength(a: seq<nat>, b: seq<nat>)
    requires multiset(a) == multiset(b)
    ensures |a| == |b|
  {
    assert |multiset(a)| == |a| && |multiset(b)| == |b|;
  }

  lemma {:induction false} KeptCount(lines: seq<LineEntity>, tol: real, groups: seq<seq<nat>>, n: nat)
    requires n <= |lines|
    requires forall j :: 0 <= j < |lines| ==> (Dropped(groups, lines[j].id) <==> !Leads(lines, tol, j))
    ensures |Kept(lines, groups, n)| + |Followers(lines, tol, n)| == n
  {
    hide Dropped, Leads;
    if n > 0 {
      KeptCount(lines, tol, groups, n - 1);
      assert Followers(lines, tol, n) == Followers(lines, tol, n - 1) + if Leads(lines, tol, n - 1) then {} else {n - 1};
    } else {
      assert Followers(lines, tol, 0) == {};
    }
  }

  /** When ids ascend in list order, the count is also how many lines the proposal takes away. */
  lemma DropsAreLost(lines: seq<LineEntity>, tol: real)
    requires IdsAscend(lines)
    ensures InRange(lines, IndexGroups(lines, tol, |lines|))
    ensures var groups := IdGroups(lines, IndexGroups(lines, tol, |lines|));
            |Survivors(lines, groups)| + Drops(groups) == |lines|
  {
    hide IndexGroups, Drops, Dropped, Leads, IdsAscend, Followers, Kept;
    DropsAreFollowers(lines, tol);
    var groups := IdGroups(lines, IndexGroups(lines, tol, |lines|));
    forall j | 0 <= j < |lines| ensures Dropped(groups, lines[j].id) <==> !Leads(lines, tol, j) {
      if Dropped(groups, lines[j].id) {
        DroppedFollows(lines, tol, j);
      }
      if !Leads(lines, tol, j) {
        FollowerIsDropped(lines, tol, j);
      }
    }
    KeptCount(lines, tol, groups, |lines|);
  }

  /** The lines that serve in a merge. */
  ghost function Merged(ms: seq<IndexMerge>): (r: set<nat>)
    ensures forall k :: k in r <==> exists p :: 0 <= p < |ms| && Touches(ms[p], k)
  {
    if ms == [] then {}
    else
      var n := |ms| - 1;
      assert ms == ms[..n] + [ms[n]];
      Merged(ms[..n]) + {ms[n].a, ms[n].b}
  }

  ghost predicate Matching(ms: seq<IndexMerge>) {
    && (forall p :: 0 <= p < |ms| ==> ms[p].a != ms[p].b)
    && forall p, q, k :: 0 <= p < q < |ms| && Touches(ms[p], k) ==> !Touches(ms[q], k)
  }

  lemma TwoNew(s: set<nat>, a: nat, b: nat)
    requires a != b && a !in s && b !in s
    ensures |s + {a, b}| == |s| + 2
  {
    assert s + {a, b} == s + {a} + {b};
  }

  lemma MatchingSnoc(ms: seq<IndexMerge>)
    requires ms != [] && Matching(ms)
    ensures var n := |ms| - 1; Matching(ms[..n]) && ms[n].a != ms[n].b && ms[n].a !in Merged(ms[..n]) && ms[n].b !in Merged(ms[..n])
  {
    var n := |ms| - 1;
    forall k | k in Merged(ms[..n]) ensures !Touches(ms[n], k) {
      var p :| 0 <= p < |ms[..n]| && Touches(ms[..n][p], k);
      assert ms[p] == ms[..n][p];
    }
  }

  /** What it reports for merges is the number of lines they use up. */
  lemma {:induction false} PairsUseTwo(ms: seq<IndexMerge>)
    requires Matching(ms)
    ensures |Merged(ms)| == 2 * |ms|
  {
    hide Matching;
    if ms != [] {
      var n := |ms| - 1;
      MatchingSnoc(ms);
      PairsUseTwo(ms[..n]);
      TwoNew(Merged(ms[..n]), ms[n].a, ms[n].b);
    }
  }

  lemma MergesAreMatching(lines: seq<LineEntity>, cfg: CleanupConfig, i: nat, used: set<nat>)
    requires i <= |lines|
    ensures Matching(Merges(lines, cfg, i, used))
  {
    hide Merges;
    MergesMatch(lines, cfg, i, used);
    assert forall p :: 0 <= p < |Merges(lines, cfg, i, used)| ==> Sound(lines, cfg, i, used, Merges(lines, cfg, i, used)[p]);
  }

  lemma MergesUseTwo(lines: seq<LineEntity>, cfg: CleanupConfig, i: nat, used: set<nat>)
    requires i <= |lines|
    ensures |Merged(Merges(lines, cfg, i, used))| == 2 * |Merges(lines, cfg, i, used)|
  {
    hide *;
    MergesAreMatching(lines, cfg, i, used);
    PairsUseTwo(Merges(lines, cfg, i, used));
  }
}
