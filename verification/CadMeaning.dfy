/** The geometric tests of the cleanup in coordinates and lengths. */
module CadMeaning {
  import opened Basics
  import opened Ordering
  import opened CadCleanup
  import opened CadLaws
  import opened CadProposal

  // ----- Duplicates -----

  /** Two points differ by at most the tolerance in each coordinate. */
  predicate Agree(p: Point, q: Point, tol: real) {
    -tol <= p.x - q.x <= tol && -tol <= p.y - q.y <= tol
  }

  /** The same line drawn from either end. */
  predicate SameLine(a: LineEntity, b: LineEntity, tol: real) {
    (Agree(a.start, b.start, tol) && Agree(a.end, b.end, tol)) || (Agree(a.start, b.end, tol) && Agree(a.end, b.start, tol))
  }

  lemma DuplicatesIff(a: LineEntity, b: LineEntity, tol: real)
    ensures Duplicates(a, b, tol) <==> SameLine(a, b, tol)
  { }

  /** Two lines alone form a group exactly when their ends agree one way round or the other. */
  lemma TwoLinesGroupIff(a: LineEntity, b: LineEntity, tol: real)
    ensures IndexGroups([a, b], tol, 2) == if SameLine(a, b, tol) then [[0, 1]] else []
  {
    hide Duplicates;
    var lines := [a, b];
    DuplicatesIff(a, b, tol);
    assert !Taken(lines, tol, 0, 0) && !Taken(lines, tol, 0, 1);
    assert Leads(lines, tol, 0) && (Leads(lines, tol, 1) <==> !SameLine(a, b, tol));
    assert Members(lines, tol, 0, 1) == [0];
    assert Members(lines, tol, 0, 2) == [0] + if SameLine(a, b, tol) then [1] else [];
    assert Members(lines, tol, 1, 2) == [1];
    GroupsStep(lines, tol, 0);
    GroupsStep(lines, tol, 1);
    hide Members, Leads, SameLine;
    assert [0] + [1] == [0, 1];
    assert IndexGroups(lines, tol, 0) == [] && [] + [[0, 1]] == [[0, 1]];
  }

  /** A line whose ends agree with those of an earlier leader, either way round, is grouped. */
  lemma NearLeaderIsGrouped(lines: seq<LineEntity>, tol: real, i: nat, j: nat)
    requires i < j < |lines| && Leads(lines, tol, i) && SameLine(lines[i], lines[j], tol)
    ensures exists g :: g in IndexGroups(lines, tol, |lines|) && j in g
  {
    hide Duplicates, IndexGroups;
    DuplicatesIff(lines[i], lines[j], tol);
    TakenBy(lines, tol, i, j, j);
    EveryFollowerIsGrouped(lines, tol, j);
  }

  function Flip(line: LineEntity): LineEntity {
    LineEntity(line.id, line.end, line.start)
  }

  /** The same lines, some of them drawn from the other end. */
  ghost predicate Redrawn(lines: seq<LineEntity>, others: seq<LineEntity>) {
    |lines| == |others| && forall i :: 0 <= i < |lines| ==> others[i] == lines[i] || others[i] == Flip(lines[i])
  }

  lemma DuplicatesRedrawn(a: LineEntity, a': LineEntity, b: LineEntity, b': LineEntity, tol: real)
    requires (a' == a || a' == Flip(a)) && (b' == b || b' == Flip(b))
    ensures Duplicates(a, b, tol) <==> Duplicates(a', b', tol)
  { }

  lemma {:induction false} TakenRedrawn(lines: seq<LineEntity>, others: seq<LineEntity>, tol: real, n: nat, j: nat)
    requires Redrawn(lines, others) && n <= j < |lines|
    ensures Taken(lines, tol, n, j) <==> Taken(others, tol, n, j)
    decreases n
  {
    hide Duplicates;
    forall k | 0 <= k < n
      ensures (Leads(lines, tol, k) <==> Leads(others, tol, k))
           && (Duplicates(lines[k], lines[j], tol) <==> Duplicates(others[k], others[j], tol))
    {
      TakenRedrawn(lines, others, tol, k, k);
      DuplicatesRedrawn(lines[k], others[k], lines[j], others[j], tol);
    }
  }

  lemma {:induction false} MembersRedrawn(lines: seq<LineEntity>, others: seq<LineEntity>, tol: real, i: nat, n: nat)
    requires Redrawn(lines, others) && i < n <= |lines|
    ensures Members(lines, tol, i, n) == Members(others, tol, i, n)
    decreases n
  {
    hide Duplicates, Taken;
    if n > i + 1 {
      MembersRedrawn(lines, others, tol, i, n - 1);
      TakenRedrawn(lines, others, tol, i, n - 1);
      DuplicatesRedrawn(lines[i], others[i], lines[n - 1], others[n - 1], tol);
    }
  }

  /** From which end a line is drawn changes no group. */
  lemma {:induction false} GroupsRedrawn(lines: seq<LineEntity>, others: seq<LineEntity>, tol: real, n: nat)
    requires Redrawn(lines, others) && n <= |lines|
    ensures IndexGroups(lines, tol, n) == IndexGroups(others, tol, n)
    decreases n
  {
    hide Members, Taken;
    if n > 0 {
      GroupsRedrawn(lines, others, tol, n - 1);
      MembersRedrawn(lines, others, tol, n - 1, |lines|);
      TakenRedrawn(lines, others, tol, n - 1, n - 1);
    }
  }

  // ----- Merges -----

  /** The floating-point epsilon, two to the power of -52. */
  const EPSILON: real := 1.0 / 4503599627370496.0

  /**
   With the lengths of the two directions at hand, the test on squares is the test the code makes: the ends agree, no
   length is below the epsilon, and the sine of the angle is below the tolerance.
   */
  lemma JoinsIff(aFar: Point, aShared: Point, bShared: Point, bFar: Point, cfg: CleanupConfig, l1: real, l2: real)
    requires l1 >= 0.0 && l1 * l1 == (aShared.x - aFar.x) * (aShared.x - aFar.x) + (aShared.y - aFar.y) * (aShared.y - aFar.y)
    requires l2 >= 0.0 && l2 * l2 == (bFar.x - bShared.x) * (bFar.x - bShared.x) + (bFar.y - bShared.y) * (bFar.y - bShared.y)
    ensures Joins(aFar, aShared, bShared, bFar, cfg)
       <==> && Agree(aShared, bShared, cfg.dedupeTolerance) && l1 >= EPSILON && l2 >= EPSILON && l1 * l2 > 0.0
            && var cross := (aShared.x - aFar.x) * (bFar.y - bShared.y) - (aShared.y - aFar.y) * (bFar.x - bShared.x);
               -cfg.collinearityTolerance < cross / (l1 * l2) < cfg.collinearityTolerance
  {
    var d1, d2 := Minus(aShared, aFar), Minus(bFar, bShared);
    var n1, n2, cross := Dot(d1, d1), Dot(d2, d2), Cross(d1, d2);
    assert n1 == l1 * l1 && n2 == l2 * l2;
    assert cross == (aShared.x - aFar.x) * (bFar.y - bShared.y) - (aShared.y - aFar.y) * (bFar.x - bShared.x);
    assert ApproxEqual(aShared, bShared, cfg.dedupeTolerance) <==> Agree(aShared, bShared, cfg.dedupeTolerance);
    JoinsParts(aFar, aShared, bShared, bFar, cfg);
    EpsilonSquare(l1);
    EpsilonSquare(l2);
    if l1 >= EPSILON && l2 >= EPSILON {
      var l := PositiveTimes(l1, l2);
      SineTest(cross, l, cfg.collinearityTolerance);
      FourFactors(cfg.collinearityTolerance, l1, l2, l);
      assert l == l1 * l2;
    }
    hide Joins, Square, AngleBound, Dot, Cross, Agree, ApproxEqual;
  }

  lemma JoinsParts(aFar: Point, aShared: Point, bShared: Point, bFar: Point, cfg: CleanupConfig)
    ensures var d1, d2 := Minus(aShared, aFar), Minus(bFar, bShared);
            (Joins(aFar, aShared, bShared, bFar, cfg)
             <==> && ApproxEqual(aShared, bShared, cfg.dedupeTolerance)
                  && Dot(d1, d1) >= EPSILON_SQUARED && Dot(d2, d2) >= EPSILON_SQUARED
                  && cfg.collinearityTolerance > 0.0
                  && Square(Cross(d1, d2)) < AngleBound(cfg.collinearityTolerance, Dot(d1, d1), Dot(d2, d2)))
  { }

  lemma EpsilonSquare(l: real)
    requires l >= 0.0
    ensures l * l >= EPSILON_SQUARED <==> l >= EPSILON
  {
    var e := EPSILON;
    assert e * e == EPSILON_SQUARED;
    SquareOrder(e, l);
  }

  lemma FourFactors(t: real, l1: real, l2: real, l: real)
    requires l == l1 * l2
    ensures AngleBound(t, l1 * l1, l2 * l2) == (t * l) * (t * l)
  {
    assert t * t * (l1 * l1) * (l2 * l2) == (t * (l1 * l2)) * (t * (l1 * l2));
  }

  lemma SineTest(cross: real, l: real, t: real)
    requires l > 0.0
    ensures (t > 0.0 && Square(cross) < (t * l) * (t * l)) <==> -t < cross / l < t
  {
    var q := cross / l;
    assert q * l == cross;
    if t > 0.0 {
      var bound := PositiveTimes(t, l);
      assert bound == t * l;
      var c := if cross < 0.0 then -cross else cross;
      assert c * c == cross * cross;
      SquareOrder(bound, c);
      Quotients(q, t, l);
      Quotients(-t, q, l);
      assert -t * l == -bound;
    }
  }

  lemma Quotients(a: real, b: real, l: real)
    requires l > 0.0
    ensures a < b <==> a * l < b * l
  {
    var gap := b - a;
    assert gap * l == b * l - a * l;
    assert gap > 0.0 ==> gap * l > 0.0;
    assert gap <= 0.0 ==> gap * l <= 0.0;
  }

  /** The end pairings in the order they are tried: far end, shared end, shared end, far end. */
  function Pairings(a: LineEntity, b: LineEntity): seq<(Point, Point, Point, Point)> {
    [(a.start, a.end, b.start, b.end), (a.start, a.end, b.end, b.start), (a.end, a.start, b.start, b.end), (a.end, a.start, b.end, b.start)]
  }

  predicate PairingJoins(ends: (Point, Point, Point, Point), cfg: CleanupConfig) {
    Joins(ends.0, ends.1, ends.2, ends.3, cfg)
  }

  /** Two lines merge over the first pairing that joins, from far end to far end. */
  lemma MergeEndsIff(a: LineEntity, b: LineEntity, cfg: CleanupConfig, p: Point, q: Point)
    ensures MergeEnds(a, b, cfg) == Some((p, q))
       <==> exists k :: && 0 <= k < 4 && PairingJoins(Pairings(a, b)[k], cfg)
                        && (forall m :: 0 <= m < k ==> !PairingJoins(Pairings(a, b)[m], cfg))
                        && p == Pairings(a, b)[k].0 && q == Pairings(a, b)[k].3
  {
    hide Joins;
    var ends := Pairings(a, b);
    assert PairingJoins(ends[0], cfg) || !PairingJoins(ends[0], cfg);
    assert PairingJoins(ends[1], cfg) || !PairingJoins(ends[1], cfg);
    assert PairingJoins(ends[2], cfg) || !PairingJoins(ends[2], cfg);
    assert PairingJoins(ends[3], cfg) || !PairingJoins(ends[3], cfg);
  }

  // ----- Gaps -----

  /** With the distance at hand: a gap is a positive distance within the tolerance. */
  lemma IsGapIff(p: Point, q: Point, tol: real, d: real)
    requires d >= 0.0 && d * d == (p.x - q.x) * (p.x - q.x) + (p.y - q.y) * (p.y - q.y)
    ensures IsGap(p, q, tol) <==> 0.0 < d <= tol
  {
    var distance := DistanceSquared(p, q);
    assert distance == d * d;
    if d > 0.0 {
      var positive := PositiveTimes(d, d);
    }
    if tol >= 0.0 {
      SquareOrder(d, tol);
      assert Square(tol) == tol * tol;
    }
    hide DistanceSquared, Square;
    assert d == 0.0 ==> distance == 0.0;
  }

  /** What a closure says of its gap. */
  lemma ClosureSays(lines: seq<LineEntity>, i: nat, j: nat, endA: End, endB: End)
    requires i < |lines| && j < |lines|
    ensures var p := match endA { case Start => lines[i].start case Finish => lines[i].end };
            var q := match endB { case Start => lines[j].start case Finish => lines[j].end };
            var c := Closure(lines, IndexGap(i, j, endA, endB));
            && c.lineA == lines[i].id && c.lineB == lines[j].id && c.endA == endA && c.endB == endB
            && c.from == p && c.to.x == (p.x + q.x) * 0.5 && c.to.y == (p.y + q.y) * 0.5
            && c.distanceSquared == (p.x - q.x) * (p.x - q.x) + (p.y - q.y) * (p.y - q.y)
  { }
}
