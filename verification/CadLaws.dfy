/** What duplicate groups and collinear merges guarantee. */
module CadLaws {
  import opened Basics
  import opened Ordering
  import opened CadCleanup

  // ----- Groups partition the lines -----

  /** Line `j` is led by line `i`, which may be itself. */
  ghost predicate LedBy(lines: seq<LineEntity>, tol: real, j: nat, i: nat) {
    i < |lines| && Leads(lines, tol, i) && FallsTo(lines, tol, i, j)
  }

  /** Every line is led by some line, and by no other. */
  lemma OneLeader(lines: seq<LineEntity>, tol: real, j: nat)
    requires j < |lines|
    ensures exists i: nat :: i <= j && LedBy(lines, tol, j, i)
    ensures forall i: nat, k: nat :: LedBy(lines, tol, j, i) && LedBy(lines, tol, j, k) ==> i == k
  {
    hide Duplicates, FallsTo;
    forall i: nat, k: nat | i < k ensures !(LedBy(lines, tol, j, i) && LedBy(lines, tol, j, k)) {
      NotTwoLeaders(lines, tol, i, k, j);
    }
    SomeLeader(lines, tol, j);
  }

  lemma NotTwoLeaders(lines: seq<LineEntity>, tol: real, i: nat, k: nat, j: nat)
    requires i < k
    ensures !(LedBy(lines, tol, j, i) && LedBy(lines, tol, j, k))
  {
    hide Duplicates;
    if LedBy(lines, tol, j, i) && k <= j < |lines| {
      TakenBy(lines, tol, i, k, j);
    }
  }

  lemma TakenBy(lines: seq<LineEntity>, tol: real, i: nat, n: nat, j: nat)
    requires i < n <= j < |lines| && Leads(lines, tol, i) && Duplicates(lines[i], lines[j], tol)
    ensures Taken(lines, tol, n, j)
  {
  }

  lemma SomeLeader(lines: seq<LineEntity>, tol: real, j: nat)
    requires j < |lines|
    ensures exists i: nat :: i <= j && LedBy(lines, tol, j, i)
  {
    hide Duplicates;
    if !Leads(lines, tol, j) {
      var k := FirstLeader(lines, tol, j, j);
      assert LedBy(lines, tol, j, k);
    } else {
      assert LedBy(lines, tol, j, j);
    }
  }

  /** The least leader below `n` that takes line `j`. */
  lemma {:induction false} FirstLeader(lines: seq<LineEntity>, tol: real, n: nat, j: nat) returns (k: nat)
    requires n <= j < |lines| && Taken(lines, tol, n, j)
    ensures k < n && Leads(lines, tol, k) && Duplicates(lines[k], lines[j], tol) && !Taken(lines, tol, k, j)
    decreases n
  {
    hide Duplicates, Leads;
    var m :| 0 <= m < n && Leads(lines, tol, m) && Duplicates(lines[m], lines[j], tol);
    if Taken(lines, tol, m, j) {
      k := FirstLeader(lines, tol, m, j);
    } else {
      k := m;
    }
  }

  lemma {:induction false} GroupsAreLeaders(lines: seq<LineEntity>, tol: real, n: nat, p: nat)
    requires n <= |lines| && p < |IndexGroups(lines, tol, n)|
    ensures var g := IndexGroups(lines, tol, n)[p];
            g != [] && g[0] < n && Leads(lines, tol, g[0]) && |g| > 1 && g == Members(lines, tol, g[0], |lines|)
    decreases n
  {
    hide Leads, Members;
    MembersAscend(lines, tol, n - 1, |lines|);
    if p < |IndexGroups(lines, tol, n - 1)| {
      GroupsAreLeaders(lines, tol, n - 1, p);
    }
  }

  lemma {:induction false} GroupsAscend(lines: seq<LineEntity>, tol: real, n: nat, p: nat, q: nat)
    requires n <= |lines| && p < q < |IndexGroups(lines, tol, n)|
    ensures var gs := IndexGroups(lines, tol, n); gs[p] != [] && gs[q] != [] && gs[p][0] < gs[q][0]
    decreases n
  {
    hide Leads, Members;
    GroupsAreLeaders(lines, tol, n, p);
    GroupsAreLeaders(lines, tol, n, q);
    MembersAscend(lines, tol, n - 1, |lines|);
    if q < |IndexGroups(lines, tol, n - 1)| {
      GroupsAscend(lines, tol, n - 1, p, q);
    } else {
      GroupsAreLeaders(lines, tol, n - 1, p);
    }
  }

  lemma {:induction false} LeaderHasGroup(lines: seq<LineEntity>, tol: real, n: nat, i: nat)
    requires i < n <= |lines| && Leads(lines, tol, i) && |Members(lines, tol, i, |lines|)| > 1
    ensures Members(lines, tol, i, |lines|) in IndexGroups(lines, tol, n)
    decreases n
  {
    hide Leads, Members;
    if i < n - 1 {
      LeaderHasGroup(lines, tol, n - 1, i);
    }
  }

  /** At least two lines, in list order. */
  ghost predicate Proper(lines: seq<LineEntity>, g: seq<nat>) {
    |g| >= 2 && AllBelow(g, |lines|) && forall a, b :: 0 <= a < b < |g| ==> g[a] < g[b]
  }

  /** Groups have at least two members, ascend, and share no line. */
  lemma GroupsAreDisjoint(lines: seq<LineEntity>, tol: real)
    ensures var gs := IndexGroups(lines, tol, |lines|);
            && (forall p :: 0 <= p < |gs| ==> Proper(lines, gs[p]))
            && forall p, q, j :: 0 <= p < q < |gs| && j in gs[p] ==> j !in gs[q]
  {
    hide Leads, Members, IndexGroups, Taken;
    var gs := IndexGroups(lines, tol, |lines|);
    forall p | 0 <= p < |gs| ensures Proper(lines, gs[p]) {
      GroupsAreLeaders(lines, tol, |lines|, p);
      MembersAscend(lines, tol, gs[p][0], |lines|);
    }
    forall p, q, j | 0 <= p < q < |gs| && j in gs[p] ensures j !in gs[q] {
      GroupsAreLeaders(lines, tol, |lines|, p);
      GroupsAreLeaders(lines, tol, |lines|, q);
      GroupsAscend(lines, tol, |lines|, p, q);
      MembersMeaning(lines, tol, gs[p][0], |lines|, j);
      MembersMeaning(lines, tol, gs[q][0], |lines|, j);
      NotTwoLeaders(lines, tol, gs[p][0], gs[q][0], j);
    }
  }

  /** A line is in some group exactly when it duplicates another line of its leader's group. */
  lemma EveryFollowerIsGrouped(lines: seq<LineEntity>, tol: real, j: nat)
    requires j < |lines| && !Leads(lines, tol, j)
    ensures exists g :: g in IndexGroups(lines, tol, |lines|) && j in g && g != [] && g[0] < j
              && Leads(lines, tol, g[0]) && Duplicates(lines[g[0]], lines[j], tol)
  {
    hide Duplicates, Members, IndexGroups;
    var k := FirstLeader(lines, tol, j, j);
    hide Leads, Taken;
    var g := Members(lines, tol, k, |lines|);
    MembersAscend(lines, tol, k, |lines|);
    MembersMeaning(lines, tol, k, |lines|, j);
    assert j in g && g[0] == k;
    LeaderHasGroup(lines, tol, |lines|, k);
  }

  // ----- How far the kept line is -----

  lemma NearTwice(a: Point, b: Point, c: Point, tol: real)
    requires ApproxEqual(a, b, tol) && ApproxEqual(a, c, tol)
    ensures ApproxEqual(b, c, 2.0 * tol)
  {
  }

  lemma DuplicatesWithin(a: LineEntity, b: LineEntity, c: LineEntity, tol: real)
    requires Duplicates(a, b, tol) && Duplicates(a, c, tol)
    ensures Duplicates(b, c, 2.0 * tol)
  {
    hide ApproxEqual;
    forall p, q, r | ApproxEqual(p, q, tol) && ApproxEqual(p, r, tol) ensures ApproxEqual(q, r, 2.0 * tol) {
      NearTwice(p, q, r, tol);
    }
  }

  lemma DuplicatesSymmetric(a: LineEntity, b: LineEntity, tol: real)
    ensures Duplicates(a, b, tol) <==> Duplicates(b, a, tol)
  {
  }

  lemma SelfDuplicates(a: LineEntity, b: LineEntity, tol: real)
    requires Duplicates(a, b, tol)
    ensures tol >= 0.0 && Duplicates(a, a, tol) && Duplicates(a, b, 2.0 * tol)
  {
  }

  /** Any two lines of a group, so also a dropped one and the kept one, are within twice the tolerance. */
  lemma GroupWithinTwice(lines: seq<LineEntity>, tol: real, g: seq<nat>, kept: nat, dropped: nat)
    requires g in IndexGroups(lines, tol, |lines|) && kept in g && dropped in g && kept != dropped
    ensures kept < |lines| && dropped < |lines| && Duplicates(lines[kept], lines[dropped], 2.0 * tol)
  {
    hide Leads, Members, IndexGroups, Duplicates, Taken;
    var p :| 0 <= p < |IndexGroups(lines, tol, |lines|)| && IndexGroups(lines, tol, |lines|)[p] == g;
    GroupsAreLeaders(lines, tol, |lines|, p);
    var i := g[0];
    MembersMeaning(lines, tol, i, |lines|, kept);
    MembersMeaning(lines, tol, i, |lines|, dropped);
    if kept == i {
      SelfDuplicates(lines[i], lines[dropped], tol);
    } else if dropped == i {
      SelfDuplicates(lines[i], lines[kept], tol);
      DuplicatesSymmetric(lines[i], lines[kept], 2.0 * tol);
    } else {
      DuplicatesWithin(lines[i], lines[kept], lines[dropped], tol);
    }
  }

  // ----- Ids in list order -----

  predicate IdsAscend(lines: seq<LineEntity>) {
    forall i, j :: 0 <= i < j < |lines| ==> lines[i].id < lines[j].id
  }

  /** Then a group's ids come out in list order, and the kept one is its leader's. */
  lemma GroupKeepsLeader(lines: seq<LineEntity>, tol: real, g: seq<nat>)
    requires IdsAscend(lines) && g in IndexGroups(lines, tol, |lines|)
    ensures AllBelow(g, |lines|) && |g| >= 2
    ensures Sort(AtMost, Ids(lines, g)) == Ids(lines, g)
    ensures Leads(lines, tol, g[0])
    ensures forall k :: 1 <= k < |g| ==> g[0] < g[k] && Duplicates(lines[g[0]], lines[g[k]], tol) && !Leads(lines, tol, g[k])
  {
    hide Members, IndexGroups, Duplicates, Sort;
    var p :| 0 <= p < |IndexGroups(lines, tol, |lines|)| && IndexGroups(lines, tol, |lines|)[p] == g;
    GroupsAreLeaders(lines, tol, |lines|, p);
    MembersAscend(lines, tol, g[0], |lines|);
    AtMostIsTotal();
    SortSorts(AtMost, Ids(lines, g));
    SortedUnique(AtMost, Sort(AtMost, Ids(lines, g)), Ids(lines, g));
    forall k | 1 <= k < |g| ensures g[0] < g[k] && Duplicates(lines[g[0]], lines[g[k]], tol) && !Leads(lines, tol, g[k]) {
      assert g[k] in g;
      MembersMeaning(lines, tol, g[0], |lines|, g[k]);
    }
  }

  /** The lines a proposal leaves: those whose id is not dropped from some group. */
  ghost predicate Dropped(groups: seq<seq<nat>>, id: nat) {
    exists p :: 0 <= p < |groups| && groups[p] != [] && id in groups[p][1..]
  }

  ghost function Kept(lines: seq<LineEntity>, groups: seq<seq<nat>>, n: nat): seq<nat>
    requires n <= |lines|
  {
    if n == 0 then []
    else Kept(lines, groups, n - 1) + if Dropped(groups, lines[n - 1].id) then [] else [n - 1]
  }

  /** Ascending indices below `n` of lines that were not dropped. */
  ghost predicate Listed(lines: seq<LineEntity>, groups: seq<seq<nat>>, ks: seq<nat>, n: nat) {
    && (forall a :: 0 <= a < |ks| ==> ks[a] < n && ks[a] < |lines| && !Dropped(groups, lines[ks[a]].id))
    && forall a, b :: 0 <= a < b < |ks| ==> ks[a] < ks[b]
  }

  lemma {:induction false} KeptMeaning(lines: seq<LineEntity>, groups: seq<seq<nat>>, n: nat)
    requires n <= |lines|
    ensures Listed(lines, groups, Kept(lines, groups, n), n)
    decreases n
  {
    hide Dropped;
    if n > 0 {
      KeptMeaning(lines, groups, n - 1);
    }
  }

  ghost function Survivors(lines: seq<LineEntity>, groups: seq<seq<nat>>): (left: seq<LineEntity>)
    ensures var ks := Kept(lines, groups, |lines|);
            |left| == |ks| && forall a :: 0 <= a < |ks| ==> ks[a] < |lines| && left[a] == lines[ks[a]]
  {
    KeptMeaning(lines, groups, |lines|);
    var ks := Kept(lines, groups, |lines|);
    seq(|ks|, a requires 0 <= a < |ks| => lines[ks[a]])
  }

  lemma FollowerIsDropped(lines: seq<LineEntity>, tol: real, j: nat)
    requires IdsAscend(lines) && j < |lines| && !Leads(lines, tol, j)
    requires InRange(lines, IndexGroups(lines, tol, |lines|))
    ensures Dropped(IdGroups(lines, IndexGroups(lines, tol, |lines|)), lines[j].id)
  {
    hide Members, IndexGroups, Duplicates, Sort, Leads, IdsAscend;
    var gs := IndexGroups(lines, tol, |lines|);
    EveryFollowerIsGrouped(lines, tol, j);
    var g :| g in gs && j in g && g != [] && g[0] < j && Leads(lines, tol, g[0]) && Duplicates(lines[g[0]], lines[j], tol);
    GroupKeepsLeader(lines, tol, g);
    var p :| 0 <= p < |gs| && gs[p] == g;
    var k :| 0 <= k < |g| && g[k] == j;
    var ids := IdGroups(lines, gs)[p];
    assert ids == Ids(lines, g) && ids[1..][k - 1] == lines[j].id;
  }

  lemma DroppedFollows(lines: seq<LineEntity>, tol: real, j: nat)
    requires IdsAscend(lines) && j < |lines|
    requires InRange(lines, IndexGroups(lines, tol, |lines|))
    requires Dropped(IdGroups(lines, IndexGroups(lines, tol, |lines|)), lines[j].id)
    ensures !Leads(lines, tol, j)
  {
    hide Members, IndexGroups, Duplicates, Sort, Leads;
    var gs := IndexGroups(lines, tol, |lines|);
    var groups := IdGroups(lines, gs);
    var p :| 0 <= p < |groups| && groups[p] != [] && lines[j].id in groups[p][1..];
    var g := gs[p];
    GroupKeepsLeader(lines, tol, g);
    var k :| 0 <= k < |groups[p][1..]| && groups[p][1..][k] == lines[j].id;
    assert groups[p] == Ids(lines, g);
    assert lines[g[k + 1]].id == lines[j].id;
    assert g[k + 1] == j;
  }

  lemma {:induction false} NothingToGroup(lines: seq<LineEntity>, tol: real, n: nat)
    requires n <= |lines|
    requires forall a, b :: 0 <= a < b < |lines| ==> !Duplicates(lines[a], lines[b], tol)
    ensures IndexGroups(lines, tol, n) == []
    decreases n
  {
    hide Duplicates, Leads, Taken;
    if n > 0 {
      NothingToGroup(lines, tol, n - 1);
      var g := Members(lines, tol, n - 1, |lines|);
      MembersAscend(lines, tol, n - 1, |lines|);
      assert |g| > 1 ==> g[1] in g;
      if |g| > 1 {
        MembersMeaning(lines, tol, n - 1, |lines|, g[1]);
      }
    }
  }

  // ----- Matching -----

  ghost predicate Touches(m: IndexMerge, k: nat) {
    m.a == k || m.b == k
  }

  /** A merge of two free lines from `i` on, ending where their test says. */
  ghost predicate Sound(lines: seq<LineEntity>, cfg: CleanupConfig, i: nat, used: set<nat>, m: IndexMerge) {
    && i <= m.a < m.b < |lines| && m.a !in used && m.b !in used
    && MergeEnds(lines[m.a], lines[m.b], cfg) == Some((m.start, m.end))
  }

  /** A matching: every merge is sound, and no line serves in two merges. */
  lemma {:induction false} MergesMatch(lines: seq<LineEntity>, cfg: CleanupConfig, i: nat, used: set<nat>)
    requires i <= |lines|
    ensures var ms := Merges(lines, cfg, i, used);
            && (forall p :: 0 <= p < |ms| ==> Sound(lines, cfg, i, used, ms[p]))
            && forall p, q, k :: 0 <= p < q < |ms| && Touches(ms[p], k) ==> !Touches(ms[q], k)
    decreases |lines| - i
  {
    hide MergeEnds, Merges;
    if i == |lines| {
      MergesEnd(lines, cfg, used);
    } else {
      MergesStep(lines, cfg, i, used);
      var ms := Merges(lines, cfg, i, used);
      if i in used || Partner(lines, cfg, used, i, i + 1).None? {
        MergesMatch(lines, cfg, i + 1, used);
        assert forall m :: Sound(lines, cfg, i + 1, used, m) ==> Sound(lines, cfg, i, used, m);
      } else {
        var j := Partner(lines, cfg, used, i, i + 1).value;
        var used' := used + {i, j};
        MergesMatch(lines, cfg, i + 1, used');
        var rest := Merges(lines, cfg, i + 1, used');
        var (start, end) := MergeEnds(lines[i], lines[j], cfg).value;
        assert ms == [IndexMerge(i, j, start, end)] + rest;
        forall p | 0 < p < |ms| ensures Sound(lines, cfg, i, used, ms[p]) {
          assert ms[p] == rest[p - 1] && Sound(lines, cfg, i + 1, used', rest[p - 1]);
        }
        forall p, q, k | 0 <= p < q < |ms| && Touches(ms[p], k) ensures !Touches(ms[q], k) {
          assert ms[q] == rest[q - 1] && Sound(lines, cfg, i + 1, used', rest[q - 1]);
          assert p > 0 ==> ms[p] == rest[p - 1];
        }
      }
    }
  }

  /** Maximality: two lines no merge uses do not merge with each other. */
  lemma {:induction false} MergesAreMaximal(lines: seq<LineEntity>, cfg: CleanupConfig, i: nat, used: set<nat>, a: nat, b: nat)
    requires i <= a < b < |lines| && a !in used && b !in used
    requires forall p :: 0 <= p < |Merges(lines, cfg, i, used)| ==>
               !Touches(Merges(lines, cfg, i, used)[p], a) && !Touches(Merges(lines, cfg, i, used)[p], b)
    ensures MergeEnds(lines[a], lines[b], cfg).None?
    decreases |lines| - i
  {
    hide MergeEnds, Merges;
    MergesStep(lines, cfg, i, used);
    var ms := Merges(lines, cfg, i, used);
    if i in used {
      MergesAreMaximal(lines, cfg, i + 1, used, a, b);
    } else if Partner(lines, cfg, used, i, i + 1).None? {
      if i < a {
        MergesAreMaximal(lines, cfg, i + 1, used, a, b);
      }
    } else {
      var j := Partner(lines, cfg, used, i, i + 1).value;
      assert Touches(ms[0], i) && Touches(ms[0], j);
      assert ms[1..] == Merges(lines, cfg, i + 1, used + {i, j});
      forall p | 0 <= p < |ms[1..]| ensures !Touches(ms[1..][p], a) && !Touches(ms[1..][p], b) {
        assert ms[1..][p] == ms[p + 1];
      }
      MergesAreMaximal(lines, cfg, i + 1, used + {i, j}, a, b);
    }
  }

  // ----- The merged segment -----

  function Along(a: Point, b: Point, t: real): Point {
    Point(a.x + t * (b.x - a.x), a.y + t * (b.y - a.y))
  }

  ghost predicate OnSegment(p: Point, a: Point, b: Point) {
    exists t :: 0.0 <= t <= 1.0 && p == Along(a, b, t)
  }

  /** Direction vectors that agree up to a positive factor. */
  lemma ParallelFactor(d: Point, e: Point) returns (c: real)
    requires Cross(d, e) == 0.0 && Dot(d, d) > 0.0
    ensures e.x == c * d.x && e.y == c * d.y
    ensures Dot(d, e) == c * Dot(d, d)
  {
    var n := Dot(d, d);
    c := Dot(d, e) / n;
    assert c * n == Dot(d, e);
    ScaledBack(d, e, c, n);
  }

  lemma ScaledBack(d: Point, e: Point, c: real, n: real)
    requires n == d.x * d.x + d.y * d.y && n > 0.0
    requires d.x * e.y == d.y * e.x
    requires c * n == d.x * e.x + d.y * e.y
    ensures e.x == c * d.x && e.y == c * d.y
  {
    assert (e.x - c * d.x) * n == 0.0 by {
      assert c * d.x * n == d.x * (c * n);
      assert d.x * (d.x * e.x + d.y * e.y) == d.x * d.x * e.x + d.y * (d.x * e.y);
      assert d.y * (d.y * e.x) == d.y * d.y * e.x;
    }
    assert (e.y - c * d.y) * n == 0.0 by {
      assert c * d.y * n == d.y * (c * n);
      assert d.y * (d.x * e.x + d.y * e.y) == d.x * (d.y * e.x) + d.y * d.y * e.y;
      assert d.x * (d.x * e.y) == d.x * d.x * e.y;
    }
  }

  lemma Rescale(t: real, k: real, z: real)
    requires k > 0.0
    ensures t / k * (k * z) == t * z
  {
    assert t / k * k == t;
  }

  /** `q` continues the segment from `p` through `s` by the factor `c`. */
  ghost predicate Continues(p: Point, s: Point, q: Point, c: real) {
    q.x - s.x == c * (s.x - p.x) && q.y - s.y == c * (s.y - p.y)
  }

  lemma AlongWhole(p: Point, s: Point, q: Point, c: real, u: real)
    requires Continues(p, s, q, c) && 1.0 + c > 0.0
    ensures Along(p, q, u / (1.0 + c)) == Along(p, s, u)
  {
    var k, dx, dy := 1.0 + c, s.x - p.x, s.y - p.y;
    assert q.x - p.x == k * dx && q.y - p.y == k * dy;
    Rescale(u, k, dx);
    Rescale(u, k, dy);
  }

  lemma AlongSecond(p: Point, s: Point, q: Point, c: real, t: real)
    requires Continues(p, s, q, c)
    ensures Along(s, q, t) == Along(p, s, 1.0 + t * c)
  {
    var dx, dy := s.x - p.x, s.y - p.y;
    assert t * (c * dx) == t * c * dx && t * (c * dy) == t * c * dy;
  }

  lemma WholeCoversParts(p: Point, s: Point, q: Point, c: real, x: Point)
    requires Continues(p, s, q, c) && c > 0.0
    ensures OnSegment(x, p, s) || OnSegment(x, s, q) ==> OnSegment(x, p, q)
  {
    if t :| 0.0 <= t <= 1.0 && x == Along(p, s, t) {
      AlongWhole(p, s, q, c, t);
      Fraction(t, 1.0 + c);
    }
    if t :| 0.0 <= t <= 1.0 && x == Along(s, q, t) {
      AlongSecond(p, s, q, c, t);
      AlongWhole(p, s, q, c, 1.0 + t * c);
      Shrinks(t, c);
      Fraction(1.0 + t * c, 1.0 + c);
    }
  }

  lemma Shrinks(t: real, c: real)
    requires 0.0 <= t <= 1.0 && c > 0.0
    ensures 0.0 <= t * c <= c
  {
  }

  lemma Fraction(a: real, b: real)
    requires 0.0 <= a <= b && b > 0.0
    ensures 0.0 <= a / b <= 1.0
  {
  }

  lemma PartsCoverWhole(p: Point, s: Point, q: Point, c: real, x: Point)
    requires Continues(p, s, q, c) && c > 0.0 && OnSegment(x, p, q)
    ensures OnSegment(x, p, s) || OnSegment(x, s, q)
  {
    var t :| 0.0 <= t <= 1.0 && x == Along(p, q, t);
    var u := t * (1.0 + c);
    assert u / (1.0 + c) == t;
    AlongWhole(p, s, q, c, u);
    if u > 1.0 {
      var v := (u - 1.0) / c;
      assert v * c == u - 1.0;
      Shrinks(t, 1.0 + c);
      Fraction(u - 1.0, c);
      AlongSecond(p, s, q, c, v);
      assert x == Along(s, q, v);
    } else {
      Shrinks(t, 1.0 + c);
      assert x == Along(p, s, u);
    }
  }

  /** Folding back, the merged segment misses the shared endpoint. */
  lemma FoldMissesShared(p: Point, s: Point, q: Point, c: real)
    requires Continues(p, s, q, c) && c < 0.0 && (s.x != p.x || s.y != p.y)
    ensures !OnSegment(s, p, q) && OnSegment(s, p, s)
  {
    assert s == Along(p, s, 1.0);
    forall t | 0.0 <= t <= 1.0 ensures s != Along(p, q, t) {
      MissesShared(p, s, q, c, t);
    }
  }

  lemma MissesShared(p: Point, s: Point, q: Point, c: real, t: real)
    requires Continues(p, s, q, c) && c < 0.0 && (s.x != p.x || s.y != p.y) && 0.0 <= t <= 1.0
    ensures s != Along(p, q, t)
  {
    var k := 1.0 + c;
    NotOne(t, k);
    if s.x != p.x {
      MissesCoordinate(s.x - p.x, q.x - p.x, k, t);
    } else {
      MissesCoordinate(s.y - p.y, q.y - p.y, k, t);
    }
  }

  lemma MissesCoordinate(z: real, e: real, k: real, t: real)
    requires e == k * z && z != 0.0 && t * k < 1.0
    ensures t * e != z
  {
    var u := t * k;
    assert t * e == u * z;
    if u * z == z {
      assert false;
    }
  }

  lemma NotOne(t: real, k: real)
    requires 0.0 <= t <= 1.0 && k < 1.0
    ensures t * k < 1.0
  {
    if k > 0.0 {
      assert t * k <= k;
    } else {
      assert t * k <= 0.0;
    }
  }

  /** Segments that meet in `s` along one line: the segment between the far ends is their union exactly when they do not fold back. */
  lemma JoinedIsUnionIff(p: Point, s: Point, q: Point)
    requires Cross(Minus(s, p), Minus(q, s)) == 0.0
    requires Dot(Minus(s, p), Minus(s, p)) > 0.0 && Dot(Minus(q, s), Minus(q, s)) > 0.0
    ensures (forall x :: OnSegment(x, p, q) <==> OnSegment(x, p, s) || OnSegment(x, s, q))
       <==> Dot(Minus(s, p), Minus(q, s)) > 0.0
  {
    hide OnSegment;
    var d, e := Minus(s, p), Minus(q, s);
    var c := ParallelFactor(d, e);
    SignOfFactor(c, Dot(d, d), Dot(d, e));
    NonZeroFactor(d, e, c);
    if c > 0.0 {
      forall x ensures OnSegment(x, p, q) <==> OnSegment(x, p, s) || OnSegment(x, s, q) {
        WholeCoversParts(p, s, q, c, x);
        if OnSegment(x, p, q) {
          PartsCoverWhole(p, s, q, c, x);
        }
      }
    } else {
      FoldMissesShared(p, s, q, c);
    }
  }

  /** The end of a line that is not `p`. */
  function OtherEnd(line: LineEntity, p: Point): Point {
    if p == line.start then line.end else line.start
  }

  ghost predicate OnLine(x: Point, line: LineEntity) {
    OnSegment(x, line.start, line.end)
  }

  /** A merge ends where one of the four pairings joins the lines' other ends. */
  lemma MergeJoins(a: LineEntity, b: LineEntity, cfg: CleanupConfig, p: Point, q: Point)
    requires MergeEnds(a, b, cfg) == Some((p, q))
    ensures p in {a.start, a.end} && q in {b.start, b.end}
    ensures Joins(p, OtherEnd(a, p), OtherEnd(b, q), q, cfg)
  {
    hide Joins;
    if Joins(a.start, a.end, b.start, b.end, cfg) {
      JoinsApart(a.start, a.end, b.start, b.end, cfg);
    } else if Joins(a.start, a.end, b.end, b.start, cfg) {
      JoinsApart(a.start, a.end, b.end, b.start, cfg);
    } else if Joins(a.end, a.start, b.start, b.end, cfg) {
      JoinsApart(a.end, a.start, b.start, b.end, cfg);
    } else {
      JoinsApart(a.end, a.start, b.end, b.start, cfg);
    }
  }

  lemma JoinsApart(aFar: Point, aShared: Point, bShared: Point, bFar: Point, cfg: CleanupConfig)
    requires Joins(aFar, aShared, bShared, bFar, cfg)
    ensures aFar != aShared && bFar != bShared
    ensures Dot(Minus(aShared, aFar), Minus(aShared, aFar)) > 0.0 && Dot(Minus(bFar, bShared), Minus(bFar, bShared)) > 0.0
  { }

  lemma OnSegmentReversed(x: Point, p: Point, q: Point)
    ensures OnSegment(x, p, q) <==> OnSegment(x, q, p)
  {
    if t :| 0.0 <= t <= 1.0 && x == Along(p, q, t) {
      AlongReversed(p, q, t);
      assert 0.0 <= 1.0 - t <= 1.0 && x == Along(q, p, 1.0 - t);
    }
    if t :| 0.0 <= t <= 1.0 && x == Along(q, p, t) {
      AlongReversed(q, p, t);
      assert 0.0 <= 1.0 - t <= 1.0 && x == Along(p, q, 1.0 - t);
    }
  }

  lemma AlongReversed(p: Point, q: Point, t: real)
    ensures Along(q, p, 1.0 - t) == Along(p, q, t)
  { }

  /**
   A merge of two lines over a shared endpoint, met exactly and with cross product zero:
   the merged segment is the union of the two lines exactly when their directions
   agree. The code tests the cross product only.
   */
  lemma MergedIsUnionIff(a: LineEntity, b: LineEntity, cfg: CleanupConfig, p: Point, q: Point)
    requires MergeEnds(a, b, cfg) == Some((p, q))
    requires OtherEnd(a, p) == OtherEnd(b, q)
    requires Cross(Minus(OtherEnd(a, p), p), Minus(q, OtherEnd(b, q))) == 0.0
    ensures (forall x :: OnSegment(x, p, q) <==> OnLine(x, a) || OnLine(x, b))
       <==> Dot(Minus(OtherEnd(a, p), p), Minus(q, OtherEnd(b, q))) > 0.0
  {
    var s := OtherEnd(a, p);
    MergeJoins(a, b, cfg, p, q);
    JoinsApart(p, s, OtherEnd(b, q), q, cfg);
    JoinedIsUnionIff(p, s, q);
    hide OnSegment, Joins, MergeEnds, Dot, Cross;
    forall x ensures OnLine(x, a) <==> OnSegment(x, p, s) {
      OnSegmentReversed(x, a.start, a.end);
    }
    forall x ensures OnLine(x, b) <==> OnSegment(x, s, q) {
      OnSegmentReversed(x, b.start, b.end);
    }
  }

  lemma SignOfFactor(c: real, n: real, dot: real)
    requires n > 0.0 && dot == c * n
    ensures dot > 0.0 <==> c > 0.0
  {
  }

  lemma NonZeroFactor(d: Point, e: Point, c: real)
    requires e.x == c * d.x && e.y == c * d.y && Dot(e, e) > 0.0
    ensures c != 0.0
  {
  }

  /** Two copies of one line pass the test: a line longer than the tolerance becomes a point, a shorter one stays itself. */
  lemma CopiesMerge(a: LineEntity, b: LineEntity, cfg: CleanupConfig)
    requires a.start == b.start && a.end == b.end
    requires cfg.dedupeTolerance >= 0.0 && cfg.collinearityTolerance > 0.0
    requires Dot(Minus(a.end, a.start), Minus(a.end, a.start)) >= EPSILON_SQUARED
    ensures MergeEnds(a, b, cfg) == Some((a.start, if ApproxEqual(a.start, a.end, cfg.dedupeTolerance) then a.end else a.start))
    ensures MergeEnds(a, b, cfg) == Some((a.start, a.start)) <==> !ApproxEqual(a.start, a.end, cfg.dedupeTolerance)
  {
    if ApproxEqual(a.start, a.end, cfg.dedupeTolerance) {
      FollowingJoins(a.start, a.end, cfg);
      assert a.start != a.end;
    } else {
      NotNear(a.start, a.end, b.start, b.end, cfg);
      FoldedJoins(a.start, a.end, cfg);
    }
    hide Joins;
  }

  lemma FollowingJoins(p: Point, s: Point, cfg: CleanupConfig)
    requires ApproxEqual(p, s, cfg.dedupeTolerance) && cfg.collinearityTolerance > 0.0
    requires Dot(Minus(s, p), Minus(s, p)) >= EPSILON_SQUARED
    ensures Joins(p, s, p, s, cfg)
  {
    var d := Minus(s, p);
    assert Cross(d, d) == 0.0;
    ZeroAngle(Cross(d, d), cfg.collinearityTolerance, Dot(d, d), Dot(d, d));
  }

  lemma NotNear(aFar: Point, aShared: Point, bShared: Point, bFar: Point, cfg: CleanupConfig)
    requires !ApproxEqual(bShared, aShared, cfg.dedupeTolerance)
    ensures !Joins(aFar, aShared, bShared, bFar, cfg)
  {
  }

  lemma FoldedJoins(p: Point, s: Point, cfg: CleanupConfig)
    requires cfg.dedupeTolerance >= 0.0 && cfg.collinearityTolerance > 0.0
    requires Dot(Minus(s, p), Minus(s, p)) >= EPSILON_SQUARED
    ensures Joins(p, s, s, p, cfg)
  {
    var d, e := Minus(s, p), Minus(p, s);
    assert Dot(d, d) == Dot(e, e);
    assert Cross(d, e) == 0.0;
    ZeroAngle(Cross(d, e), cfg.collinearityTolerance, Dot(d, d), Dot(e, e));
  }

  lemma ZeroAngle(x: real, t: real, m: real, n: real)
    requires x == 0.0 && t > 0.0 && m >= EPSILON_SQUARED && n >= EPSILON_SQUARED
    ensures Square(x) < AngleBound(t, m, n)
  {
    var a := PositiveTimes(t, t);
    var b := PositiveTimes(a, m);
    var c := PositiveTimes(b, n);
    assert Square(x) == 0.0;
    assert AngleBound(t, m, n) == c;
  }

  lemma PositiveTimes(a: real, b: real) returns (c: real)
    requires a > 0.0 && b > 0.0
    ensures c == a * b && c > 0.0
  {
    c := a * b;
  }
}
