/** Detected polylines to walls: segmenting, dropping noise, and capping wall ends. */
module PlanToWall {
  import opened Basics
  import opened CadCleanup

  datatype Polyline = Polyline(points: seq<Point>, confidence: real)

  datatype Segment = Segment(start: Point, end: Point)

  datatype WallEndCap = Open | Square

  datatype Wall = Wall(
    id: nat, axis: Segment, thickness: real, startCap: WallEndCap, endCap: WallEndCap, layer: string, confidence: real)

  datatype Config = Config(
    thickness: real, junctionTolerance: real, minSegmentLength: real, minConfidence: real, layer: string)

  type Rated = (Segment, real)

  // Lengths and distances are compared through their squares.

  predicate LongEnough(s: Segment, min: real) {
    min <= 0.0 || Dot(Minus(s.end, s.start), Minus(s.end, s.start)) >= min * min
  }

  predicate Near(p: Point, q: Point, tol: real) {
    tol >= 0.0 && Dot(Minus(p, q), Minus(p, q)) <= tol * tol
  }

  predicate Rejected(p: Polyline, cfg: Config) {
    p.confidence < cfg.minConfidence || |p.points| < 2
  }

  /** The kept ones among the first `n` consecutive point pairs. */
  function Kept(p: Polyline, cfg: Config, n: nat): seq<Rated>
    requires n < |p.points| || n == 0
  {
    if n == 0 then []
    else
      var s := Segment(p.points[n - 1], p.points[n]);
      Kept(p, cfg, n - 1) + if LongEnough(s, cfg.minSegmentLength) then [(s, p.confidence)] else []
  }

  function Segments(ps: seq<Polyline>, cfg: Config): seq<Rated> {
    if ps == [] then []
    else
      var p := ps[|ps| - 1];
      Segments(ps[..|ps| - 1], cfg) + if Rejected(p, cfg) then [] else Kept(p, cfg, |p.points| - 1)
  }

  function Rejections(ps: seq<Polyline>, cfg: Config): set<nat> {
    set i: nat | i < |ps| && Rejected(ps[i], cfg)
  }

  function Acceptances(ps: seq<Polyline>, cfg: Config): set<nat> {
    set i: nat | i < |ps| && !Rejected(ps[i], cfg)
  }

  datatype End = Start | Finish

  function EndPoint(s: Rated, e: End): Point {
    if e.Start? then s.0.start else s.0.end
  }

  /** Some endpoint of another segment lies within the tolerance. */
  ghost predicate Joined(segments: seq<Rated>, skip: nat, p: Point, tol: real) {
    exists i, e :: 0 <= i < |segments| && i != skip && Near(p, EndPoint(segments[i], e), tol)
  }

  const U32 := U32_MAX + 1

  /** The id of the wall at an index, in 32-bit arithmetic. */
  function WallId(i: nat): nat {
    (i % U32 + 1) % U32
  }

  ghost function WallAt(segments: seq<Rated>, i: nat, cfg: Config): Wall
    requires i < |segments|
  {
    var (s, confidence) := segments[i];
    Wall(WallId(i), s, cfg.thickness,
         if Joined(segments, i, s.start, cfg.junctionTolerance) then Open else Square,
         if Joined(segments, i, s.end, cfg.junctionTolerance) then Open else Square,
         cfg.layer, confidence)
  }

  method TouchesAnyOther(segments: seq<Rated>, skip: nat, p: Point, tol: real) returns (r: bool)
    ensures r <==> Joined(segments, skip, p, tol)
  {
    hide Near;
    var i := 0;
    while i < |segments|
      invariant 0 <= i <= |segments|
      invariant forall k, e :: 0 <= k < i && k != skip ==> !Near(p, EndPoint(segments[k], e), tol)
    {
      if i != skip && (Near(p, EndPoint(segments[i], Start), tol) || Near(p, EndPoint(segments[i], Finish), tol)) {
        return true;
      }
      i := i + 1;
    }
    r := false;
  }

  method KeepSegments(p: Polyline, cfg: Config, before: seq<Rated>) returns (segments: seq<Rated>)
    requires |p.points| >= 2
    ensures segments == before + Kept(p, cfg, |p.points| - 1)
  {
    hide LongEnough;
    segments := before;
    var n := 0;
    while n < |p.points| - 1
      invariant 0 <= n <= |p.points| - 1
      invariant segments == before + Kept(p, cfg, n)
    {
      var s := Segment(p.points[n], p.points[n + 1]);
      if LongEnough(s, cfg.minSegmentLength) {
        segments := segments + [(s, p.confidence)];
      }
      n := n + 1;
    }
  }

  lemma NoRejections(cfg: Config)
    ensures Rejections([], cfg) == {}
  { }

  lemma RejectionsStep(ps: seq<Polyline>, cfg: Config, i: nat)
    requires i < |ps|
    ensures |Rejections(ps[..i + 1], cfg)| == |Rejections(ps[..i], cfg)| + if Rejected(ps[i], cfg) then 1 else 0
  {
    hide Rejected;
    var before, after := Rejections(ps[..i], cfg), Rejections(ps[..i + 1], cfg);
    assert after == before + if Rejected(ps[i], cfg) then {i} else {};
    assert i !in before;
  }

  method CutSegments(ps: seq<Polyline>, cfg: Config) returns (segments: seq<Rated>, dropped: nat)
    ensures segments == Segments(ps, cfg)
    ensures dropped == |Rejections(ps, cfg)|
  {
    hide Kept, Rejections;
    segments, dropped := [], 0;
    assert Rejections(ps[..0], cfg) == {} by {
      NoRejections(cfg);
    }
    var i := 0;
    while i < |ps|
      invariant 0 <= i <= |ps|
      invariant segments == Segments(ps[..i], cfg)
      invariant dropped == |Rejections(ps[..i], cfg)|
    {
      var p := ps[i];
      assert ps[..i + 1][..i] == ps[..i];
      RejectionsStep(ps, cfg, i);
      if Rejected(p, cfg) {
        dropped := dropped + 1;
      } else {
        segments := KeepSegments(p, cfg, segments);
      }
      i := i + 1;
    }
    assert ps[..i] == ps;
  }

  method Convert(ps: seq<Polyline>, cfg: Config) returns (walls: seq<Wall>, dropped: nat)
    ensures |walls| == |Segments(ps, cfg)|
    ensures forall i :: 0 <= i < |walls| ==> walls[i] == WallAt(Segments(ps, cfg), i, cfg)
    ensures dropped == |Rejections(ps, cfg)|
  {
    hide Segments, Joined, Rejections;
    var segments;
    segments, dropped := CutSegments(ps, cfg);
    walls := [];
    var i := 0;
    while i < |segments|
      invariant 0 <= i == |walls| <= |segments|
      invariant forall k :: 0 <= k < i ==> walls[k] == WallAt(segments, k, cfg)
    {
      var (s, confidence) := segments[i];
      var atStart := TouchesAnyOther(segments, i, s.start, cfg.junctionTolerance);
      var atEnd := TouchesAnyOther(segments, i, s.end, cfg.junctionTolerance);
      walls := walls + [Wall(WallId(i), s, cfg.thickness, if atStart then Open else Square, if atEnd then Open else Square,
                             cfg.layer, confidence)];
      i := i + 1;
    }
  }

  // ----- Laws -----

  function CapOf(w: Wall, e: End): WallEndCap {
    if e.Start? then w.startCap else w.endCap
  }

  lemma NearSymmetric(p: Point, q: Point, tol: real)
    ensures Near(p, q, tol) <==> Near(q, p, tol)
  {
    var d, f := Minus(p, q), Minus(q, p);
    assert f.x == -d.x && f.y == -d.y;
    assert f.x * f.x == d.x * d.x && f.y * f.y == d.y * d.y;
  }

  /** Two wall ends, of different walls, within the tolerance. */
  ghost predicate Meet(segments: seq<Rated>, i: nat, e: End, j: nat, f: End, tol: real) {
    i < |segments| && j < |segments| && i != j && Near(EndPoint(segments[i], e), EndPoint(segments[j], f), tol)
  }

  /** An end is open exactly when it meets an end of another wall, and that end is then open too. */
  lemma JunctionsAreMutual(segments: seq<Rated>, cfg: Config, i: nat, e: End)
    requires i < |segments|
    ensures CapOf(WallAt(segments, i, cfg), e) == Open
       <==> exists j: nat, f :: Meet(segments, i, e, j, f, cfg.junctionTolerance)
    ensures forall j: nat, f :: Meet(segments, i, e, j, f, cfg.junctionTolerance) ==>
              CapOf(WallAt(segments, j, cfg), f) == Open
  {
    hide Near;
    var tol, p := cfg.junctionTolerance, EndPoint(segments[i], e);
    if Joined(segments, i, p, tol) {
      var j, f :| 0 <= j < |segments| && j != i && Near(p, EndPoint(segments[j], f), tol);
      assert Meet(segments, i, e, j, f, tol);
    }
    forall j: nat, f | Meet(segments, i, e, j, f, tol) ensures CapOf(WallAt(segments, j, cfg), f) == Open {
      NearSymmetric(p, EndPoint(segments[j], f), tol);
      assert Joined(segments, j, EndPoint(segments[j], f), tol);
    }
  }

  /** Every polyline is either rejected and counted or accepted. */
  lemma PolylinesAreAccountedFor(ps: seq<Polyline>, cfg: Config)
    ensures |Rejections(ps, cfg)| + |Acceptances(ps, cfg)| == |ps|
  {
    if ps != [] {
      var n := |ps| - 1;
      PolylinesAreAccountedFor(ps[..n], cfg);
      if Rejected(ps[n], cfg) {
        assert Rejections(ps, cfg) == Rejections(ps[..n], cfg) + {n};
        assert Acceptances(ps, cfg) == Acceptances(ps[..n], cfg);
      } else {
        assert Rejections(ps, cfg) == Rejections(ps[..n], cfg);
        assert Acceptances(ps, cfg) == Acceptances(ps[..n], cfg) + {n};
      }
    }
  }

  /** Ids are exactly 1 to n as long as n fits 32 bits; one wall more and an id is 0. */
  lemma IdsAreDenseIff(n: nat)
    ensures (forall i: nat :: i < n ==> WallId(i) == i + 1) <==> n < U32
  {
    if n >= U32 {
      assert WallId(U32 - 1) == 0;
    }
  }

  // ----- Which segments there are -----

  /** The `pair`th pair of neighbouring points of a polyline. */
  datatype Place = Place(polyline: nat, pair: nat)

  predicate Precedes(a: Place, b: Place) {
    a.polyline < b.polyline || (a.polyline == b.polyline && a.pair < b.pair)
  }

  function PairAt(p: Polyline, m: nat): Segment
    requires m + 1 < |p.points|
  {
    Segment(p.points[m], p.points[m + 1])
  }

  /** The pair belongs to an accepted polyline and is long enough. */
  predicate Qualifies(ps: seq<Polyline>, cfg: Config, at: Place) {
    && at.polyline < |ps| && !Rejected(ps[at.polyline], cfg) && at.pair + 1 < |ps[at.polyline].points|
    && LongEnough(PairAt(ps[at.polyline], at.pair), cfg.minSegmentLength)
  }

  function RatedAt(ps: seq<Polyline>, at: Place): Rated
    requires at.polyline < |ps| && at.pair + 1 < |ps[at.polyline].points|
  {
    (PairAt(ps[at.polyline], at.pair), ps[at.polyline].confidence)
  }

  ghost predicate AllQualify(ps: seq<Polyline>, cfg: Config, segments: seq<Rated>, places: seq<Place>) {
    && |places| == |segments|
    && forall k :: 0 <= k < |places| ==> Qualifies(ps, cfg, places[k]) && segments[k] == RatedAt(ps, places[k])
  }

  ghost predicate InOrder(places: seq<Place>) {
    forall k, l :: 0 <= k < l < |places| ==> Precedes(places[k], places[l])
  }

  /** The segments are the qualifying pairs, each once, in list order, with their polylines' confidence. */
  ghost predicate Lists(ps: seq<Polyline>, cfg: Config, segments: seq<Rated>, places: seq<Place>) {
    AllQualify(ps, cfg, segments, places) && InOrder(places) && forall at :: Qualifies(ps, cfg, at) ==> at in places
  }

  /** The same within the first `n` pairs of one accepted polyline. */
  ghost predicate ListsPairs(ps: seq<Polyline>, cfg: Config, i: nat, n: nat, segments: seq<Rated>, places: seq<Place>)
    requires i < |ps|
  {
    && |places| == |segments|
    && (forall k :: 0 <= k < |places| ==>
          Qualifies(ps, cfg, places[k]) && places[k].polyline == i && places[k].pair < n
          && segments[k] == (PairAt(ps[i], places[k].pair), ps[i].confidence))
    && (forall k, l :: 0 <= k < l < |places| ==> Precedes(places[k], places[l]))
    && forall at :: Qualifies(ps, cfg, at) && at.polyline == i && at.pair < n ==> at in places
  }

  lemma {:induction false} KeptLists(ps: seq<Polyline>, cfg: Config, i: nat, n: nat) returns (places: seq<Place>)
    requires i < |ps| && !Rejected(ps[i], cfg) && n < |ps[i].points|
    ensures ListsPairs(ps, cfg, i, n, Kept(ps[i], cfg, n), places)
    decreases n
  {
    hide LongEnough, Rejected;
    if n == 0 {
      places := [];
    } else {
      places := KeptLists(ps, cfg, i, n - 1);
      if LongEnough(PairAt(ps[i], n - 1), cfg.minSegmentLength) {
        places := places + [Place(i, n - 1)];
        assert places[|places| - 1] == Place(i, n - 1);
      }
    }
  }

  lemma QualifiesBelow(ps: seq<Polyline>, cfg: Config, at: Place)
    requires ps != []
    ensures Qualifies(ps[..|ps| - 1], cfg, at) <==> Qualifies(ps, cfg, at) && at.polyline != |ps| - 1
  { }

  /** The cut segments are exactly the long enough neighbouring pairs of the accepted polylines, each once, in list order. */
  lemma {:induction false} SegmentsExact(ps: seq<Polyline>, cfg: Config) returns (places: seq<Place>)
    ensures Lists(ps, cfg, Segments(ps, cfg), places)
    decreases |ps|
  {
    hide Qualifies, Kept, Rejected;
    if ps == [] {
      places := [];
      NoneQualifies(cfg);
    } else {
      var i := |ps| - 1;
      var before := SegmentsExact(ps[..i], cfg);
      var last: seq<Place> := [];
      if !Rejected(ps[i], cfg) {
        AcceptedHasPair(ps[i], cfg);
        last := KeptLists(ps, cfg, i, |ps[i].points| - 1);
      }
      LastPolyline(ps, cfg, before, last);
      places := before + last;
    }
  }

  // ----- What polylines contribute -----

  /** The polylines some segment is cut from. */
  ghost function Contributors(ps: seq<Polyline>, cfg: Config): set<nat> {
    set i: nat | i < |ps| && Contributes(ps, cfg, i)
  }

  ghost predicate Contributes(ps: seq<Polyline>, cfg: Config, i: nat) {
    exists m: nat :: Qualifies(ps, cfg, Place(i, m))
  }

  /**
   The dropped count and the contributing polylines never add up to more than the input, and
   add up to it exactly when every accepted polyline has a long enough pair: one without
   vanishes uncounted.
   */
  lemma DroppedOrContributingIff(ps: seq<Polyline>, cfg: Config)
    ensures |Rejections(ps, cfg)| + |Contributors(ps, cfg)| <= |ps|
    ensures |Rejections(ps, cfg)| + |Contributors(ps, cfg)| == |ps|
       <==> forall i: nat :: i < |ps| && !Rejected(ps[i], cfg) ==> Contributes(ps, cfg, i)
  {
    hide Rejected, LongEnough;
    PolylinesAreAccountedFor(ps, cfg);
    var some, all := Contributors(ps, cfg), Acceptances(ps, cfg);
    forall i | i in some ensures i in all {
      var m: nat :| Qualifies(ps, cfg, Place(i, m));
    }
    SubsetSize(some, all);
    assert some == all <==> forall i: nat :: i in all ==> i in some;
    assert forall i: nat :: i in all <==> i < |ps| && !Rejected(ps[i], cfg);
    assert forall i: nat :: i in some <==> i < |ps| && Contributes(ps, cfg, i);
  }

  lemma {:induction false} SubsetSize(a: set<nat>, b: set<nat>)
    requires a <= b
    ensures |a| <= |b| && (|a| == |b| <==> a == b)
  {
    assert b == a + (b - a);
  }

  lemma NoneQualifies(cfg: Config)
    ensures forall at :: !Qualifies([], cfg, at)
  { }

  lemma AcceptedHasPair(p: Polyline, cfg: Config)
    requires !Rejected(p, cfg)
    ensures |p.points| >= 2
  { }

  /** The pairs of the last polyline follow those of the others. */
  ghost predicate Extends(ps: seq<Polyline>, cfg: Config, before: seq<Place>, last: seq<Place>) {
    && ps != [] && Lists(ps[..|ps| - 1], cfg, Segments(ps[..|ps| - 1], cfg), before)
    && var i := |ps| - 1;
       if Rejected(ps[i], cfg) then last == []
       else |ps[i].points| >= 2 && ListsPairs(ps, cfg, i, |ps[i].points| - 1, Kept(ps[i], cfg, |ps[i].points| - 1), last)
  }

  lemma QualifyBelow(ps: seq<Polyline>, cfg: Config, segments: seq<Rated>, places: seq<Place>)
    requires ps != [] && AllQualify(ps[..|ps| - 1], cfg, segments, places)
    ensures AllQualify(ps, cfg, segments, places)
  {
    forall k | 0 <= k < |places| ensures Qualifies(ps, cfg, places[k]) && segments[k] == RatedAt(ps, places[k]) {
      assert ps[..|ps| - 1][places[k].polyline] == ps[places[k].polyline];
    }
  }

  lemma QualifyPairs(ps: seq<Polyline>, cfg: Config, i: nat, n: nat, segments: seq<Rated>, places: seq<Place>)
    requires i < |ps| && ListsPairs(ps, cfg, i, n, segments, places)
    ensures AllQualify(ps, cfg, segments, places)
  { }

  lemma QualifyConcat(ps: seq<Polyline>, cfg: Config, s: seq<Rated>, p: seq<Place>, t: seq<Rated>, q: seq<Place>)
    requires AllQualify(ps, cfg, s, p) && AllQualify(ps, cfg, t, q)
    ensures AllQualify(ps, cfg, s + t, p + q)
  {
    hide RatedAt;
  }

  lemma LastQualify(ps: seq<Polyline>, cfg: Config, before: seq<Place>, last: seq<Place>)
    requires Extends(ps, cfg, before, last)
    ensures AllQualify(ps, cfg, Segments(ps, cfg), before + last)
  {
    hide AllQualify, ListsPairs, Kept, InOrder, Qualifies;
    var i := |ps| - 1;
    var s := Segments(ps[..i], cfg);
    QualifyBelow(ps, cfg, s, before);
    if Rejected(ps[i], cfg) {
      assert s + [] == s && before + last == before;
    } else {
      var n := |ps[i].points| - 1;
      QualifyPairs(ps, cfg, i, n, Kept(ps[i], cfg, n), last);
      QualifyConcat(ps, cfg, s, before, Kept(ps[i], cfg, n), last);
    }
  }

  lemma LastInOrder(ps: seq<Polyline>, cfg: Config, before: seq<Place>, last: seq<Place>)
    requires Extends(ps, cfg, before, last)
    ensures InOrder(before + last)
  {
    hide Segments, Kept, Rejected, LongEnough;
    forall k | 0 <= k < |before| ensures before[k].polyline < |ps| - 1 {
      PlaceBelow(ps[..|ps| - 1], cfg, before[k]);
    }
    hide Qualifies;
  }

  lemma LastComplete(ps: seq<Polyline>, cfg: Config, before: seq<Place>, last: seq<Place>, at: Place)
    requires Extends(ps, cfg, before, last) && Qualifies(ps, cfg, at)
    ensures at in before + last
  {
    hide Segments, Kept, LongEnough, Precedes;
    QualifiesBelow(ps, cfg, at);
  }

  lemma LastPolyline(ps: seq<Polyline>, cfg: Config, before: seq<Place>, last: seq<Place>)
    requires Extends(ps, cfg, before, last)
    ensures Lists(ps, cfg, Segments(ps, cfg), before + last)
  {
    hide Extends, AllQualify, InOrder, Segments, Qualifies;
    LastQualify(ps, cfg, before, last);
    LastInOrder(ps, cfg, before, last);
    forall at | Qualifies(ps, cfg, at) ensures at in before + last {
      LastComplete(ps, cfg, before, last, at);
    }
  }

  lemma PlaceBelow(ps: seq<Polyline>, cfg: Config, at: Place)
    requires Qualifies(ps, cfg, at)
    ensures at.polyline < |ps|
  { }

  // ----- In numbers -----

  /** With its length at hand: a pair qualifies when its polyline is confident enough and it is long enough. */
  lemma QualifiesIff(ps: seq<Polyline>, cfg: Config, i: nat, m: nat, length: real)
    requires i < |ps| && m + 1 < |ps[i].points|
    requires var p, q := ps[i].points[m], ps[i].points[m + 1];
             length >= 0.0 && length * length == (q.x - p.x) * (q.x - p.x) + (q.y - p.y) * (q.y - p.y)
    ensures Qualifies(ps, cfg, Place(i, m)) <==> ps[i].confidence >= cfg.minConfidence && length >= cfg.minSegmentLength
  {
    var s := PairAt(ps[i], m);
    assert Dot(Minus(s.end, s.start), Minus(s.end, s.start)) == length * length;
    if cfg.minSegmentLength > 0.0 {
      SquareOrder(cfg.minSegmentLength, length);
    }
  }

  /** With their distance at hand: two ends of different walls meet when it is within the tolerance. */
  lemma MeetIff(segments: seq<Rated>, i: nat, e: End, j: nat, f: End, tol: real, d: real)
    requires i < |segments| && j < |segments| && i != j
    requires var p := if e == Start then segments[i].0.start else segments[i].0.end;
             var q := if f == Start then segments[j].0.start else segments[j].0.end;
             d >= 0.0 && d * d == (p.x - q.x) * (p.x - q.x) + (p.y - q.y) * (p.y - q.y)
    ensures Meet(segments, i, e, j, f, tol) <==> d <= tol
  {
    var p, q := EndPoint(segments[i], e), EndPoint(segments[j], f);
    assert Dot(Minus(p, q), Minus(p, q)) == d * d;
    if tol >= 0.0 {
      SquareOrder(d, tol);
    }
  }

  /** The polylines that are dropped and counted: not confident enough, or without two points. */
  lemma RejectionsAre(ps: seq<Polyline>, cfg: Config)
    ensures Rejections(ps, cfg) == set i: nat | i < |ps| && (ps[i].confidence < cfg.minConfidence || |ps[i].points| < 2)
  { }

  /** A wall runs along its segment and takes the rest from its polyline and the configuration. */
  lemma WallSays(segments: seq<Rated>, i: nat, cfg: Config)
    requires i < |segments|
    ensures var w := WallAt(segments, i, cfg);
            && w.axis == segments[i].0 && w.confidence == segments[i].1
            && w.thickness == cfg.thickness && w.layer == cfg.layer
            && (i + 1 <= U32_MAX ==> w.id == i + 1)
  { }
}
