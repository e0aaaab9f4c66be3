/** When deduplicating what a deduplication left finds nothing more. */
module CadRerun {
  import opened Basics
  import opened Ordering
  import opened CadCleanup
  import opened CadLaws

  function IdsOf(lines: seq<LineEntity>): (ids: seq<nat>)
    ensures |ids| == |lines| && forall i :: 0 <= i < |ids| ==> ids[i] == lines[i].id
  {
    seq(|lines|, i requires 0 <= i < |lines| => lines[i].id)
  }

  /** An id may be smaller than an earlier one only if that is the last but one. */
  ghost predicate OnlyLastInverted(ids: seq<nat>) {
    forall i, j :: 0 <= i < j < |ids| && ids[j] < ids[i] ==> i == |ids| - 2
  }

  /** What the first run reports. */
  ghost function Groups(lines: seq<LineEntity>, tol: real): seq<seq<nat>> {
    GroupsInRange(lines, tol, |lines|);
    IdGroups(lines, IndexGroups(lines, tol, |lines|))
  }

  ghost predicate RerunIsEmpty(lines: seq<LineEntity>, tol: real) {
    var left := Survivors(lines, Groups(lines, tol));
    IndexGroups(left, tol, |left|) == []
  }

  ghost predicate Survives(lines: seq<LineEntity>, tol: real, j: nat) {
    j < |lines| && !Dropped(Groups(lines, tol), lines[j].id)
  }

  // ----- Groups and duplicates -----

  /** A run finds nothing exactly when no two lines are duplicates. */
  lemma NothingIff(lines: seq<LineEntity>, tol: real)
    ensures IndexGroups(lines, tol, |lines|) == []
       <==> forall a, b :: 0 <= a < b < |lines| ==> !Duplicates(lines[a], lines[b], tol)
  {
    hide Duplicates, IndexGroups;
    if a, b :| 0 <= a < b < |lines| && Duplicates(lines[a], lines[b], tol) {
      if Leads(lines, tol, a) {
        LeadersDiffer(lines, tol, a, b);
        EveryFollowerIsGrouped(lines, tol, b);
      } else {
        EveryFollowerIsGrouped(lines, tol, a);
      }
    } else {
      NothingToGroup(lines, tol, |lines|);
    }
  }

  /** Both lines are in one group, which `l` leads. */
  ghost predicate Together(lines: seq<LineEntity>, tol: real, l: nat, a: nat, b: nat) {
    exists g :: g in IndexGroups(lines, tol, |lines|) && g != [] && g[0] == l && a in g && b in g
  }

  lemma InGroup(lines: seq<LineEntity>, tol: real, g: seq<nat>, a: nat)
    requires g in IndexGroups(lines, tol, |lines|) && a in g
    ensures |g| > 1 && AllBelow(g, |lines|) && g[0] < |lines| && g[0] != g[1]
    ensures Leads(lines, tol, g[0]) && FallsTo(lines, tol, g[0], a) && g == Members(lines, tol, g[0], |lines|)
  {
    hide Leads, Members, IndexGroups, Taken, Duplicates;
    var p :| 0 <= p < |IndexGroups(lines, tol, |lines|)| && IndexGroups(lines, tol, |lines|)[p] == g;
    GroupsAreLeaders(lines, tol, |lines|, p);
    MembersAscend(lines, tol, g[0], |lines|);
    MembersMeaning(lines, tol, g[0], |lines|, a);
  }

  /** A line that does not lead is together with its leader. */
  lemma WithLeader(lines: seq<LineEntity>, tol: real, j: nat) returns (l: nat)
    requires j < |lines| && !Leads(lines, tol, j)
    ensures l < j && Leads(lines, tol, l) && Duplicates(lines[l], lines[j], tol) && !Taken(lines, tol, l, j)
    ensures Together(lines, tol, l, l, j)
  {
    hide IndexGroups;
    EveryFollowerIsGrouped(lines, tol, j);
    var g :| g in IndexGroups(lines, tol, |lines|) && j in g && g != [] && g[0] < j
             && Leads(lines, tol, g[0]) && Duplicates(lines[g[0]], lines[j], tol);
    l := g[0];
    InGroup(lines, tol, g, j);
    assert l in g;
  }

  // ----- Who survives -----

  lemma {:induction false} DistinctMultiset(s: seq<nat>)
    requires Distinct(s)
    ensures multiset(s) == multiset(set x | x in s)
  {
    if s != [] {
      var n := |s| - 1;
      assert s == s[..n] + [s[n]];
      DistinctMultiset(s[..n]);
      assert (set x | x in s) == (set x | x in s[..n]) + {s[n]};
      assert s[n] !in s[..n];
    }
  }

  lemma SortedIds(lines: seq<LineEntity>, g: seq<nat>)
    requires Distinct(IdsOf(lines)) && AllBelow(g, |lines|) && Distinct(g)
    ensures var r := Sort(AtMost, Ids(lines, g));
            && (forall x :: x in r <==> x in Ids(lines, g))
            && forall a, b :: 0 <= a < b < |r| ==> r[a] < r[b]
  {
    var ids := Ids(lines, g);
    var r := Sort(AtMost, ids);
    AtMostIsTotal();
    SortSorts(AtMost, ids);
    assert Distinct(ids) by {
      forall a, b | 0 <= a < b < |ids| ensures ids[a] != ids[b] {
        assert IdsOf(lines)[g[a]] == ids[a] && IdsOf(lines)[g[b]] == ids[b];
      }
    }
    DistinctMultiset(ids);
    DistinctOfMultiset(r, set x | x in ids);
  }

  lemma SameLine(lines: seq<LineEntity>, g: seq<nat>, a: nat)
    requires Distinct(IdsOf(lines)) && AllBelow(g, |lines|) && a < |lines|
    ensures lines[a].id in Ids(lines, g) <==> a in g
  {
    if k :| 0 <= k < |g| && Ids(lines, g)[k] == lines[a].id {
      assert IdsOf(lines)[g[k]] == IdsOf(lines)[a];
      assert g[k] == a;
    }
    if a in g {
      var k :| 0 <= k < |g| && g[k] == a;
      assert Ids(lines, g)[k] == lines[a].id;
    }
  }

  ghost predicate Beaten(lines: seq<LineEntity>, g: seq<nat>, a: nat) {
    a < |lines| && a in g && exists b :: b in g && b < |lines| && lines[b].id < lines[a].id
  }

  lemma DroppedFromGroup(lines: seq<LineEntity>, g: seq<nat>, a: nat)
    requires Distinct(IdsOf(lines)) && AllBelow(g, |lines|) && Distinct(g) && a < |lines| && g != []
    ensures var r := Sort(AtMost, Ids(lines, g)); r != [] && (lines[a].id in r[1..] <==> Beaten(lines, g, a))
  {
    hide Sort;
    SortedIds(lines, g);
    SameLine(lines, g, a);
    var ids, r := Ids(lines, g), Sort(AtMost, Ids(lines, g));
    assert ids[0] in r;
    if lines[a].id in r[1..] {
      var m :| 0 <= m < |r[1..]| && r[1..][m] == lines[a].id;
      assert r[m + 1] == lines[a].id && r[0] < r[m + 1] && r[0] in ids;
      var k :| 0 <= k < |ids| && ids[k] == r[0];
      assert g[k] in g;
    }
    if Beaten(lines, g, a) {
      var b :| b in g && b < |lines| && lines[b].id < lines[a].id;
      SameLine(lines, g, b);
      assert lines[b].id in r && lines[a].id in r;
      var m :| 0 <= m < |r| && r[m] == lines[a].id;
      var k :| 0 <= k < |r| && r[k] == lines[b].id;
      assert r[1..][m - 1] == lines[a].id;
    }
  }

  /** A line is taken away exactly when its group has one with a smaller id. */
  lemma SurvivesIff(lines: seq<LineEntity>, tol: real, a: nat)
    requires Distinct(IdsOf(lines)) && a < |lines|
    ensures Survives(lines, tol, a) <==> forall g :: g in IndexGroups(lines, tol, |lines|) ==> !Beaten(lines, g, a)
  {
    hide IndexGroups, Sort, Leads, Members, FallsTo, Beaten;
    GroupsInRange(lines, tol, |lines|);
    GroupsAreDisjoint(lines, tol);
    var gs, hs := IndexGroups(lines, tol, |lines|), Groups(lines, tol);
    forall p | 0 <= p < |gs| ensures hs[p] != [] && (lines[a].id in hs[p][1..] <==> Beaten(lines, gs[p], a)) {
      assert Proper(lines, gs[p]);
      DroppedFromGroup(lines, gs[p], a);
    }
  }

  lemma OneSurvivor(lines: seq<LineEntity>, tol: real, l: nat, a: nat, b: nat)
    requires Distinct(IdsOf(lines)) && a < |lines| && b < |lines| && a != b && Together(lines, tol, l, a, b)
    ensures lines[a].id < lines[b].id ==> !Survives(lines, tol, b)
    ensures lines[b].id < lines[a].id ==> !Survives(lines, tol, a)
    ensures IdsOf(lines)[a] != IdsOf(lines)[b]
  {
    hide Survives, IndexGroups;
    SurvivesIff(lines, tol, a);
    SurvivesIff(lines, tol, b);
    var g :| g in IndexGroups(lines, tol, |lines|) && g != [] && g[0] == l && a in g && b in g;
    assert lines[a].id < lines[b].id ==> Beaten(lines, g, b);
    assert lines[b].id < lines[a].id ==> Beaten(lines, g, a);
  }

  lemma {:induction false} KeptExactly(lines: seq<LineEntity>, groups: seq<seq<nat>>, n: nat, j: nat)
    requires n <= |lines| && j < |lines|
    ensures j in Kept(lines, groups, n) <==> j < n && !Dropped(groups, lines[j].id)
    decreases n
  {
    hide Dropped;
    if n > 0 {
      KeptExactly(lines, groups, n - 1, j);
    }
  }

  /** A second run finds nothing exactly when no two survivors are duplicates. */
  lemma RerunIsEmptyIff(lines: seq<LineEntity>, tol: real)
    ensures RerunIsEmpty(lines, tol)
       <==> forall a: nat, b: nat :: a < b < |lines| && Survives(lines, tol, a) && Survives(lines, tol, b) ==> !Duplicates(lines[a], lines[b], tol)
  {
    hide Duplicates, Survives, IndexGroups, Groups, Survivors;
    var left := Survivors(lines, Groups(lines, tol));
    NothingIff(left, tol);
    if a: nat, b: nat :| a < b < |lines| && Survives(lines, tol, a) && Survives(lines, tol, b) && Duplicates(lines[a], lines[b], tol) {
      var x, y := SurvivorPlaces(lines, tol, a, b);
    }
    if x: nat, y: nat :| x < y < |left| && Duplicates(left[x], left[y], tol) {
      var a, b := SurvivorOrigins(lines, tol, x, y);
    }
  }

  lemma SurvivorPlaces(lines: seq<LineEntity>, tol: real, a: nat, b: nat) returns (x: nat, y: nat)
    requires a < b < |lines| && Survives(lines, tol, a) && Survives(lines, tol, b)
    ensures var left := Survivors(lines, Groups(lines, tol));
            x < y < |left| && left[x] == lines[a] && left[y] == lines[b]
  {
    hide Dropped, Groups;
    var groups := Groups(lines, tol);
    var ks := Kept(lines, groups, |lines|);
    KeptMeaning(lines, groups, |lines|);
    KeptExactly(lines, groups, |lines|, a);
    KeptExactly(lines, groups, |lines|, b);
    x :| 0 <= x < |ks| && ks[x] == a;
    y :| 0 <= y < |ks| && ks[y] == b;
  }

  lemma SurvivorOrigins(lines: seq<LineEntity>, tol: real, x: nat, y: nat) returns (a: nat, b: nat)
    requires x < y < |Survivors(lines, Groups(lines, tol))|
    ensures var left := Survivors(lines, Groups(lines, tol));
            a < b < |lines| && Survives(lines, tol, a) && Survives(lines, tol, b) && left[x] == lines[a] && left[y] == lines[b]
  {
    hide Dropped, Groups;
    var groups := Groups(lines, tol);
    KeptMeaning(lines, groups, |lines|);
    a, b := Kept(lines, groups, |lines|)[x], Kept(lines, groups, |lines|)[y];
  }

  // ----- Ids that never need a second run -----

  /** A surviving follower has a smaller id than its leader. */
  lemma SurvivingFollower(lines: seq<LineEntity>, tol: real, j: nat) returns (l: nat)
    requires Distinct(IdsOf(lines)) && Survives(lines, tol, j) && !Leads(lines, tol, j)
    ensures l < j && Leads(lines, tol, l) && Duplicates(lines[l], lines[j], tol) && !Taken(lines, tol, l, j)
    ensures IdsOf(lines)[j] < IdsOf(lines)[l] && !Survives(lines, tol, l)
  {
    l := WithLeader(lines, tol, j);
    hide Leads, Taken, Duplicates, Survives;
    assert j < |lines|;
    OneSurvivor(lines, tol, l, l, j);
  }

  lemma OnlyLastInvertedSuffices(lines: seq<LineEntity>, tol: real, a: nat, b: nat)
    requires Distinct(IdsOf(lines)) && OnlyLastInverted(IdsOf(lines))
    requires a < b < |lines| && Survives(lines, tol, a) && Survives(lines, tol, b)
    ensures !Duplicates(lines[a], lines[b], tol)
  {
    hide Duplicates, Survives;
    if Duplicates(lines[a], lines[b], tol) {
      if !Leads(lines, tol, a) {
        var l := SurvivingFollower(lines, tol, a);
      } else {
        LeadersDiffer(lines, tol, a, b);
        var l := SurvivingFollower(lines, tol, b);
      }
    }
  }

  // ----- A tolerance that tolerates nothing -----

  lemma DuplicatesTransitive(a: LineEntity, b: LineEntity, c: LineEntity, tol: real)
    requires tol <= 0.0 && Duplicates(a, b, tol) && Duplicates(b, c, tol)
    ensures Duplicates(a, c, tol) && Duplicates(b, a, tol)
  { }

  lemma LeadersDiffer(lines: seq<LineEntity>, tol: real, k: nat, l: nat)
    requires k < l < |lines| && Leads(lines, tol, k) && Duplicates(lines[k], lines[l], tol)
    ensures !Leads(lines, tol, l)
  { }

  lemma NoToleranceSuffices(lines: seq<LineEntity>, tol: real, a: nat, b: nat)
    requires Distinct(IdsOf(lines)) && tol <= 0.0
    requires a < b < |lines| && Survives(lines, tol, a) && Survives(lines, tol, b)
    ensures !Duplicates(lines[a], lines[b], tol)
  {
    if Duplicates(lines[a], lines[b], tol) {
      var l := LeaderOf(lines, tol, a, b);
      LeaderIsShared(lines, tol, l, a, b);
    }
  }

  /** The leader of `a`, which `b` duplicates as well. */
  lemma LeaderOf(lines: seq<LineEntity>, tol: real, a: nat, b: nat) returns (l: nat)
    requires a < b < |lines| && tol <= 0.0 && Duplicates(lines[a], lines[b], tol)
    ensures l <= a && Leads(lines, tol, l) && Duplicates(lines[l], lines[b], tol)
    ensures l == a || (Duplicates(lines[l], lines[a], tol) && Together(lines, tol, l, l, a))
  {
    if Leads(lines, tol, a) {
      l := a;
    } else {
      l := WithLeader(lines, tol, a);
      DuplicatesTransitive(lines[l], lines[a], lines[b], tol);
    }
  }

  lemma LeaderIsShared(lines: seq<LineEntity>, tol: real, l: nat, a: nat, b: nat)
    requires Distinct(IdsOf(lines)) && tol <= 0.0 && a < b < |lines|
    requires l <= a && Leads(lines, tol, l) && Duplicates(lines[l], lines[b], tol)
    requires l == a || Together(lines, tol, l, l, a)
    ensures !Survives(lines, tol, a) || !Survives(lines, tol, b)
  {
    LeadersDiffer(lines, tol, l, b);
    var m := WithLeader(lines, tol, b);
    if m != l {
      DuplicatesTransitive(lines[m], lines[b], lines[b], tol) by {
        DuplicatesItself(lines[m], lines[b], tol);
      }
      DuplicatesTransitive(lines[l], lines[b], lines[b], tol) by {
        DuplicatesItself(lines[l], lines[b], tol);
      }
      DuplicatesTransitive(lines[l], lines[b], lines[m], tol);
      DuplicatesTransitive(lines[m], lines[b], lines[l], tol);
      if l < m {
        LeadersDiffer(lines, tol, l, m);
      } else {
        LeadersDiffer(lines, tol, m, l);
      }
    }
    SameGroup(lines, tol, l, a, b);
    OneSurvivor(lines, tol, l, a, b);
  }

  lemma DuplicatesItself(a: LineEntity, b: LineEntity, tol: real)
    requires tol <= 0.0 && Duplicates(a, b, tol)
    ensures Duplicates(b, b, tol)
  { }

  lemma SameGroup(lines: seq<LineEntity>, tol: real, l: nat, a: nat, b: nat)
    requires l == a || Together(lines, tol, l, l, a)
    requires Together(lines, tol, l, l, b)
    ensures Together(lines, tol, l, a, b)
  {
    hide IndexGroups;
    var g :| g in IndexGroups(lines, tol, |lines|) && g != [] && g[0] == l && l in g && b in g;
    InGroup(lines, tol, g, b);
    if l != a {
      var h :| h in IndexGroups(lines, tol, |lines|) && h != [] && h[0] == l && l in h && a in h;
      InGroup(lines, tol, h, a);
    }
  }

  // ----- Ids that do need one somewhere -----

  /** An upright line, two tolerances long, on a ruler marked in tolerances. */
  function Mark(id: nat, spot: real, tol: real): LineEntity {
    LineEntity(id, Point(spot * tol, 0.0), Point(spot * tol, 2.0 * tol))
  }

  lemma MarksDuplicate(a: nat, b: nat, s: real, t: real, tol: real)
    requires tol > 0.0
    ensures Duplicates(Mark(a, s, tol), Mark(b, t, tol), tol) <==> -1.0 <= s - t <= 1.0
  {
    var d, x, y := s - t, s * tol, t * tol;
    assert x - y == d * tol;
    assert Mark(a, s, tol).start == Point(x, 0.0) && Mark(b, t, tol).start == Point(y, 0.0);
    ScaledUnit(d, tol);
    UprightDuplicate(Mark(a, s, tol), Mark(b, t, tol), x, y, tol);
  }

  lemma UprightDuplicate(a: LineEntity, b: LineEntity, x: real, y: real, tol: real)
    requires a.start == Point(x, 0.0) && a.end == Point(x, 2.0 * tol) && tol > 0.0
    requires b.start == Point(y, 0.0) && b.end == Point(y, 2.0 * tol)
    ensures Duplicates(a, b, tol) <==> -tol <= x - y <= tol
  { }

  lemma ScaledUnit(d: real, tol: real)
    requires tol > 0.0
    ensures -1.0 <= d <= 1.0 <==> -tol <= d * tol <= tol
  {
    var one, minus := 1.0, -1.0;
    Scaled(d, one, tol);
    Scaled(minus, d, tol);
    assert one * tol == tol && minus * tol == -tol;
  }

  lemma Scaled(x: real, y: real, tol: real)
    requires tol > 0.0
    ensures x <= y <==> x * tol <= y * tol
  {
    var gap := y - x;
    assert gap * tol == y * tol - x * tol;
    assert gap >= 0.0 ==> gap * tol >= 0.0;
    assert gap < 0.0 ==> gap * tol < 0.0;
  }

  /** Line `i` at zero, `j` one tolerance on, `k` two, all others far away and apart. */
  function Spot(i: nat, j: nat, k: nat, m: nat): real {
    if m == i then 0.0 else if m == j then 1.0 else if m == k then 2.0 else 4.0 * (m + 1) as real
  }

  function Row(ids: seq<nat>, tol: real, i: nat, j: nat, k: nat): (lines: seq<LineEntity>)
    ensures |lines| == |ids| && forall m :: 0 <= m < |ids| ==> lines[m] == Mark(ids[m], Spot(i, j, k, m), tol)
  {
    seq(|ids|, m requires 0 <= m < |ids| => Mark(ids[m], Spot(i, j, k, m), tol))
  }

  lemma RowDuplicates(ids: seq<nat>, tol: real, i: nat, j: nat, k: nat, a: nat, b: nat)
    requires tol > 0.0 && i < j && i < k && j != k && a < |ids| && b < |ids| && a != b
    ensures var lines := Row(ids, tol, i, j, k);
            Duplicates(lines[a], lines[b], tol) <==> {a, b} == {i, j} || {a, b} == {j, k}
  {
    MarksDuplicate(ids[a], ids[b], Spot(i, j, k, a), Spot(i, j, k, b), tol);
    assert {a, b} == {i, j} <==> (a == i && b == j) || (a == j && b == i) by {
      assert a in {a, b} && b in {a, b} && i in {i, j} && j in {i, j};
    }
    assert {a, b} == {j, k} <==> (a == j && b == k) || (a == k && b == j) by {
      assert a in {a, b} && b in {a, b} && k in {j, k} && j in {j, k};
    }
  }

  lemma RowSurvivors(ids: seq<nat>, tol: real, i: nat, j: nat, k: nat, a: nat)
    requires tol > 0.0 && Distinct(ids) && i < j < |ids| && i < k < |ids| && j != k && ids[j] < ids[i]
    requires a == j || a == k
    ensures Survives(Row(ids, tol, i, j, k), tol, a)
  {
    hide Survives, IndexGroups, Duplicates, Members, Row, Spot;
    var lines := Row(ids, tol, i, j, k);
    assert IdsOf(lines) == ids;
    SurvivesIff(lines, tol, a);
    forall g | g in IndexGroups(lines, tol, |lines|) ensures !Beaten(lines, g, a) {
      if a in g {
        RowGroup(ids, tol, i, j, k, g, a);
      }
    }
  }

  /** The only group of the row is `i` with `j`. */
  lemma RowGroup(ids: seq<nat>, tol: real, i: nat, j: nat, k: nat, g: seq<nat>, a: nat)
    requires tol > 0.0 && i < j < |ids| && i < k < |ids| && j != k
    requires g in IndexGroups(Row(ids, tol, i, j, k), tol, |ids|) && a in g
    ensures forall b :: b in g ==> b == i || b == j
  {
    hide IndexGroups, Duplicates, Members, Row, Mark, Spot;
    var lines := Row(ids, tol, i, j, k);
    InGroup(lines, tol, g, a);
    var l := g[0];
    RowLeaders(ids, tol, i, j, k);
    forall b: nat | b in g && b != l ensures l == i && b == j {
      InGroup(lines, tol, g, b);
      RowDuplicates(ids, tol, i, j, k, l, b);
      if {l, b} == {i, j} {
        TwoElements(l, b, i, j);
      } else {
        TwoElements(l, b, j, k);
        TakenBy(lines, tol, i, k, j);
      }
    }
    assert g[1] in g;
  }

  lemma TwoElements(a: nat, b: nat, c: nat, d: nat)
    requires {a, b} == {c, d} && a != b
    ensures (a == c && b == d) || (a == d && b == c)
  {
    assert a in {c, d} && b in {c, d};
  }

  lemma RowLeaders(ids: seq<nat>, tol: real, i: nat, j: nat, k: nat)
    requires tol > 0.0 && i < j < |ids| && i < k < |ids| && j != k
    ensures var lines := Row(ids, tol, i, j, k);
            Leads(lines, tol, i) && Duplicates(lines[i], lines[j], tol) && !Leads(lines, tol, j)
  {
    hide Duplicates, Row, Mark, Spot;
    var lines := Row(ids, tol, i, j, k);
    forall m | 0 <= m < i ensures !Duplicates(lines[m], lines[i], tol) {
      RowDuplicates(ids, tol, i, j, k, m, i);
      assert i !in {j, k} && m !in {i, j};
    }
    RowDuplicates(ids, tol, i, j, k, i, j);
  }

  lemma RowNeedsRerun(ids: seq<nat>, tol: real, i: nat, j: nat, k: nat)
    requires tol > 0.0 && Distinct(ids) && i < j < |ids| && i < k < |ids| && j != k && ids[j] < ids[i]
    ensures !RerunIsEmpty(Row(ids, tol, i, j, k), tol)
  {
    hide RerunIsEmpty, Survives, Duplicates;
    var lines := Row(ids, tol, i, j, k);
    RowSurvivors(ids, tol, i, j, k, j);
    RowSurvivors(ids, tol, i, j, k, k);
    RowDuplicates(ids, tol, i, j, k, j, k);
    RowDuplicates(ids, tol, i, j, k, k, j);
    RerunIsEmptyIff(lines, tol);
  }

  lemma InvertedNeedsRerun(ids: seq<nat>, tol: real, i: nat, j: nat)
    requires tol > 0.0 && Distinct(ids) && i < j < |ids| && ids[j] < ids[i] && i != |ids| - 2
    ensures exists lines :: IdsOf(lines) == ids && !RerunIsEmpty(lines, tol)
  {
    hide RerunIsEmpty;
    var k := if j == |ids| - 1 then |ids| - 2 else |ids| - 1;
    assert IdsOf(Row(ids, tol, i, j, k)) == ids;
    RowNeedsRerun(ids, tol, i, j, k);
  }

  /**
   Three lines a tolerance apart with the smallest id in the middle: the kept line of
   the first group duplicates the third line, so a second run finds a group again.
   */
  lemma UnorderedIdsNeedARerun()
    ensures !RerunIsEmpty([Mark(9, 0.0, 1.0), Mark(1, 1.0, 1.0), Mark(10, 2.0, 1.0)], 1.0)
  {
    hide RerunIsEmpty;
    var ids := [9, 1, 10];
    RowNeedsRerun(ids, 1.0, 0, 1, 2);
    assert Row(ids, 1.0, 0, 1, 2) == [Mark(9, 0.0, 1.0), Mark(1, 1.0, 1.0), Mark(10, 2.0, 1.0)];
  }

  /**
   For pairwise distinct ids and any tolerance: a second run finds nothing, wherever
   the lines with these ids lie, if and only if the tolerance tolerates nothing or no id
   but the last is smaller than an earlier one, and that only than the last but one.
   */
  lemma RerunIsEmptyForIdsIff(ids: seq<nat>, tol: real)
    requires Distinct(ids)
    ensures (forall lines :: IdsOf(lines) == ids ==> RerunIsEmpty(lines, tol))
       <==> tol <= 0.0 || OnlyLastInverted(ids)
  {
    hide RerunIsEmpty, Survives, Duplicates, IdsOf;
    if tol <= 0.0 || OnlyLastInverted(ids) {
      forall lines | IdsOf(lines) == ids ensures RerunIsEmpty(lines, tol) {
        RerunIsEmptyIff(lines, tol);
        forall a: nat, b: nat | a < b < |lines| && Survives(lines, tol, a) && Survives(lines, tol, b)
          ensures !Duplicates(lines[a], lines[b], tol)
        {
          if tol <= 0.0 {
            NoToleranceSuffices(lines, tol, a, b);
          } else {
            OnlyLastInvertedSuffices(lines, tol, a, b);
          }
        }
      }
    } else {
      var i, j :| 0 <= i < j < |ids| && ids[j] < ids[i] && i != |ids| - 2;
      InvertedNeedsRerun(ids, tol, i, j);
    }
  }

  /** Ids in list order are one such case. */
  lemma RerunFindsNothing(lines: seq<LineEntity>, tol: real)
    requires IdsAscend(lines)
    ensures RerunIsEmpty(lines, tol)
  {
    hide RerunIsEmpty;
    RerunIsEmptyForIdsIff(IdsOf(lines), tol);
  }
}
