/**
 * Geometry values and the dimension reducer `remove_third_dimension`, which
 * keeps the first two ordinates (x, y) of every coordinate tuple of a
 * geometry and rebuilds the geometry with the same structure.
 */
module Geometry {
  import opened Wrappers

  /** A coordinate tuple: (x, y) or (x, y, z). */
  type Coord = seq<real>

  /** The closed set of geometry variants the reducer dispatches on. */
  datatype Geom =
    | Point(coords: seq<Coord>)
    | LineString(coords: seq<Coord>)
    | LinearRing(coords: seq<Coord>)
    | Polygon(shell: seq<Coord>, holes: seq<seq<Coord>>)
    | MultiPoint(parts: seq<Geom>)
    | MultiLineString(parts: seq<Geom>)
    | MultiPolygon(parts: seq<Geom>)
    | GeometryCollection(parts: seq<Geom>)
      /** Any other geometry type; the geometry engine reports its emptiness. */
    | Other(typeName: string, empty: bool)

  datatype GeomError = UnsupportedGeometry(typeName: string)

  predicate IsCollection(g: Geom) {
    g.MultiPoint? || g.MultiLineString? || g.MultiPolygon? || g.GeometryCollection?
  }

  predicate IsCurve(g: Geom) {
    g.Point? || g.LineString? || g.LinearRing?
  }

  /**
   * The geometry engine's emptiness test: a point or curve without
   * coordinates, a polygon without an exterior ring, or a collection whose
   * every part is empty.
   */
  predicate IsEmpty(g: Geom) {
    match g
    case Point(cs) => cs == []
    case LineString(cs) => cs == []
    case LinearRing(cs) => cs == []
    case Polygon(shell, _) => shell == []
    case MultiPoint(ps) => forall p | p in ps :: IsEmpty(p)
    case MultiLineString(ps) => forall p | p in ps :: IsEmpty(p)
    case MultiPolygon(ps) => forall p | p in ps :: IsEmpty(p)
    case GeometryCollection(ps) => forall p | p in ps :: IsEmpty(p)
    case Other(_, e) => e
  }

  /** Whether the reducer meets a non-empty geometry of an unsupported type. */
  predicate HasUnsupported(g: Geom) {
    match g
    case Other(_, e) => !e
    case MultiPoint(ps) => exists p | p in ps :: HasUnsupported(p)
    case MultiLineString(ps) => exists p | p in ps :: HasUnsupported(p)
    case MultiPolygon(ps) => exists p | p in ps :: HasUnsupported(p)
    case GeometryCollection(ps) => exists p | p in ps :: HasUnsupported(p)
    case _ => false
  }

  /** Every coordinate tuple of `g` has at most two ordinates. */
  predicate Planar(g: Geom) {
    match g
    case Point(cs) => AllPlanar(cs)
    case LineString(cs) => AllPlanar(cs)
    case LinearRing(cs) => AllPlanar(cs)
    case Polygon(shell, holes) => AllPlanar(shell) && forall h | h in holes :: AllPlanar(h)
    case MultiPoint(ps) => forall p | p in ps :: Planar(p)
    case MultiLineString(ps) => forall p | p in ps :: Planar(p)
    case MultiPolygon(ps) => forall p | p in ps :: Planar(p)
    case GeometryCollection(ps) => forall p | p in ps :: Planar(p)
    case Other(_, _) => true
  }

  predicate AllPlanar(cs: seq<Coord>) {
    forall c | c in cs :: |c| <= 2
  }

  /** Every coordinate tuple of `g` is exactly an (x, y) pair. */
  predicate TwoDimensional(g: Geom) {
    match g
    case Point(cs) => AllXY(cs)
    case LineString(cs) => AllXY(cs)
    case LinearRing(cs) => AllXY(cs)
    case Polygon(shell, holes) => AllXY(shell) && forall h | h in holes :: AllXY(h)
    case MultiPoint(ps) => forall p | p in ps :: TwoDimensional(p)
    case MultiLineString(ps) => forall p | p in ps :: TwoDimensional(p)
    case MultiPolygon(ps) => forall p | p in ps :: TwoDimensional(p)
    case GeometryCollection(ps) => forall p | p in ps :: TwoDimensional(p)
    case Other(_, _) => true
  }

  predicate AllXY(cs: seq<Coord>) {
    forall c | c in cs :: |c| == 2
  }

  /** The geometry engine's coordinate tuples are (x, y) or (x, y, z). */
  predicate AllDimensioned(cs: seq<Coord>) {
    forall c | c in cs :: 2 <= |c| <= 3
  }

  /** The slice `xy[0:2]`: the first two ordinates, or the whole tuple if shorter. */
  function XY(c: Coord): (r: Coord)
    ensures |r| <= 2 && r <= c
    ensures |c| >= 2 ==> |r| == 2
  {
    if |c| <= 2 then c else c[..2]
  }

  /** `[xy[0:2] for xy in coords]`. */
  function XYs(cs: seq<Coord>): (r: seq<Coord>)
    ensures |r| == |cs| && AllPlanar(r)
    ensures forall i :: 0 <= i < |cs| ==> r[i] <= cs[i] && (|cs[i]| >= 2 ==> |r[i]| == 2)
  {
    seq(|cs|, i requires 0 <= i < |cs| => XY(cs[i]))
  }

  /** Whether two geometries have the same variant. */
  predicate SameVariant(g: Geom, h: Geom) {
    match g
    case Point(_) => h.Point?
    case LineString(_) => h.LineString?
    case LinearRing(_) => h.LinearRing?
    case Polygon(_, _) => h.Polygon?
    case MultiPoint(_) => h.MultiPoint?
    case MultiLineString(_) => h.MultiLineString?
    case MultiPolygon(_) => h.MultiPolygon?
    case GeometryCollection(_) => h.GeometryCollection?
    case Other(_, _) => h.Other?
  }

  /**
   * remove_third_dimension: an empty geometry comes back as it is; a polygon
   * is rebuilt from its reduced exterior and interior rings; a point or curve
   * keeps the first two ordinates of each coordinate; a multi-geometry or
   * collection is rebuilt from its reduced parts in order; anything else fails.
   */
  function RemoveThirdDimension(g: Geom): (r: Result<Geom, GeomError>)
    ensures IsEmpty(g) ==> r == Success(g)
    ensures r.Success? ==> SameVariant(g, r.value)
    ensures r.Success? && IsCurve(g) ==> r.value.coords == XYs(g.coords)
    ensures r.Success? && g.Polygon? && !IsEmpty(g) ==>
              r.value.shell == XYs(g.shell) && |r.value.holes| == |g.holes| &&
              forall i :: 0 <= i < |g.holes| ==> r.value.holes[i] == XYs(g.holes[i])
    ensures r.Success? && IsCollection(g) ==>
              |r.value.parts| == |g.parts| &&
              forall i :: 0 <= i < |g.parts| ==> RemoveThirdDimension(g.parts[i]) == Success(r.value.parts[i])
    ensures r.Failure? && IsCollection(g) ==>
              exists i :: 0 <= i < |g.parts| && RemoveThirdDimension(g.parts[i]) == Failure(r.error)
    decreases g, 1
  {
    if IsEmpty(g) then Success(g)
    else match g
      // An empty interior ring comes back as it is, which is also what XYs gives.
      case Polygon(shell, holes) =>
        Success(Polygon(XYs(shell), seq(|holes|, i requires 0 <= i < |holes| => XYs(holes[i]))))
      case LinearRing(cs) => Success(LinearRing(XYs(cs)))
      case LineString(cs) => Success(LineString(XYs(cs)))
      case Point(cs) => Success(Point(XYs(cs)))
      case MultiPoint(ps) =>
        var qs :- RemoveAll(ps);
        Success(MultiPoint(qs))
      case MultiLineString(ps) =>
        var qs :- RemoveAll(ps);
        Success(MultiLineString(qs))
      case MultiPolygon(ps) =>
        var qs :- RemoveAll(ps);
        Success(MultiPolygon(qs))
      case GeometryCollection(ps) =>
        var qs :- RemoveAll(ps);
        Success(GeometryCollection(qs))
      case Other(name, _) => Failure(UnsupportedGeometry(name))
  }

  /** The loop that reduces the parts of a multi-geometry, stopping at the first failure. */
  function RemoveAll(ps: seq<Geom>): (r: Result<seq<Geom>, GeomError>)
    ensures r.Success? ==>
              |r.value| == |ps| &&
              forall i :: 0 <= i < |ps| ==> RemoveThirdDimension(ps[i]) == Success(r.value[i])
    ensures r.Failure? ==> exists i :: 0 <= i < |ps| && RemoveThirdDimension(ps[i]) == Failure(r.error)
    decreases ps, 0
  {
    if ps == [] then Success([])
    else
      var q :- RemoveThirdDimension(ps[0]);
      var qs :- RemoveAll(ps[1..]);
      Success([q] + qs)
  }

  /**
   * What the geometry engine builds: coordinate tuples of two or three
   * ordinates, and no interior rings without an exterior ring.
   */
  predicate WellFormed(g: Geom) {
    match g
    case Point(cs) => AllDimensioned(cs)
    case LineString(cs) => AllDimensioned(cs)
    case LinearRing(cs) => AllDimensioned(cs)
    case Polygon(shell, holes) =>
      && AllDimensioned(shell)
      && (forall h | h in holes :: AllDimensioned(h))
      && (shell == [] ==> holes == [])
    case MultiPoint(ps) => forall p | p in ps :: WellFormed(p)
    case MultiLineString(ps) => forall p | p in ps :: WellFormed(p)
    case MultiPolygon(ps) => forall p | p in ps :: WellFormed(p)
    case GeometryCollection(ps) => forall p | p in ps :: WellFormed(p)
    case _ => true
  }

  lemma {:induction false} EmptyHasNoUnsupported(g: Geom)
    requires IsEmpty(g)
    ensures !HasUnsupported(g)
  {
    if IsCollection(g) {
      forall p | p in g.parts ensures !HasUnsupported(p) {
        EmptyHasNoUnsupported(p);
      }
    }
  }

  /** The reducer raises exactly when it meets a non-empty geometry of an unsupported type. */
  lemma {:induction false} RemoveFailsIffUnsupported(g: Geom)
    ensures RemoveThirdDimension(g).Failure? <==> HasUnsupported(g)
    decreases g, 1
  {
    if IsEmpty(g) {
      EmptyHasNoUnsupported(g);
    } else if IsCollection(g) {
      RemoveAllFailsIffUnsupported(g.parts);
    }
  }

  lemma {:induction false} RemoveAllFailsIffUnsupported(ps: seq<Geom>)
    ensures RemoveAll(ps).Failure? <==> exists p | p in ps :: HasUnsupported(p)
    decreases ps, 0
  {
    if ps != [] {
      RemoveFailsIffUnsupported(ps[0]);
      RemoveAllFailsIffUnsupported(ps[1..]);
      assert forall p :: p in ps <==> p == ps[0] || p in ps[1..];
    }
  }

  /** When every part is already a fixed point, reducing the parts changes nothing. */
  lemma {:induction false} RemoveAllOfFixedPoints(qs: seq<Geom>)
    requires forall i :: 0 <= i < |qs| ==> RemoveThirdDimension(qs[i]) == Success(qs[i])
    ensures RemoveAll(qs) == Success(qs)
  {
    if qs != [] {
      RemoveAllOfFixedPoints(qs[1..]);
      assert [qs[0]] + qs[1..] == qs;
    }
  }

  lemma XYsOfPlanar(cs: seq<Coord>)
    requires AllPlanar(cs)
    ensures XYs(cs) == cs
  {
  }

  /** Reducing twice is the same as reducing once. */
  lemma {:induction false} RemoveIdempotent(g: Geom)
    requires RemoveThirdDimension(g).Success?
    ensures RemoveThirdDimension(RemoveThirdDimension(g).value) == RemoveThirdDimension(g)
  {
    var h := RemoveThirdDimension(g).value;
    if IsEmpty(g) {
    } else if IsCurve(g) {
      XYsOfPlanar(h.coords);
    } else if g.Polygon? {
      XYsOfPlanar(h.shell);
      forall i | 0 <= i < |h.holes| ensures XYs(h.holes[i]) == h.holes[i] {
        XYsOfPlanar(h.holes[i]);
      }
      assert seq(|h.holes|, i requires 0 <= i < |h.holes| => XYs(h.holes[i])) == h.holes;
    } else if IsCollection(g) {
      forall i | 0 <= i < |h.parts|
        ensures RemoveThirdDimension(h.parts[i]) == Success(h.parts[i])
      {
        RemoveIdempotent(g.parts[i]);
      }
      RemoveAllOfFixedPoints(h.parts);
    }
  }

  /** A geometry that is already two-dimensional comes back unchanged. */
  lemma {:induction false} RemovePlanarUnchanged(g: Geom)
    requires Planar(g) && !HasUnsupported(g)
    ensures RemoveThirdDimension(g) == Success(g)
  {
    if IsEmpty(g) {
    } else if IsCurve(g) {
      XYsOfPlanar(g.coords);
    } else if g.Polygon? {
      XYsOfPlanar(g.shell);
      forall i | 0 <= i < |g.holes| ensures XYs(g.holes[i]) == g.holes[i] {
        XYsOfPlanar(g.holes[i]);
      }
      assert seq(|g.holes|, i requires 0 <= i < |g.holes| => XYs(g.holes[i])) == g.holes;
    } else if IsCollection(g) {
      forall i | 0 <= i < |g.parts|
        ensures RemoveThirdDimension(g.parts[i]) == Success(g.parts[i])
      {
        assert g.parts[i] in g.parts;
        RemovePlanarUnchanged(g.parts[i]);
      }
      RemoveAllOfFixedPoints(g.parts);
    }
  }

  lemma {:induction false} EmptyWellFormedIsTwoDimensional(g: Geom)
    requires IsEmpty(g) && WellFormed(g)
    ensures TwoDimensional(g)
  {
    if IsCollection(g) {
      forall p | p in g.parts ensures TwoDimensional(p) {
        EmptyWellFormedIsTwoDimensional(p);
      }
    }
  }

  lemma XYsOfDimensioned(cs: seq<Coord>)
    requires AllDimensioned(cs)
    ensures AllXY(XYs(cs))
  {
    forall c | c in XYs(cs) ensures |c| == 2 {
      var i :| 0 <= i < |cs| && XYs(cs)[i] == c;
      assert cs[i] in cs;
    }
  }

  /** Every coordinate tuple of a reduced well-formed geometry is exactly its (x, y) pair. */
  lemma {:induction false} RemoveYieldsTwoDimensional(g: Geom)
    requires WellFormed(g) && RemoveThirdDimension(g).Success?
    ensures TwoDimensional(RemoveThirdDimension(g).value)
  {
    var h := RemoveThirdDimension(g).value;
    if IsEmpty(g) {
      EmptyWellFormedIsTwoDimensional(g);
    } else if IsCurve(g) {
      XYsOfDimensioned(g.coords);
    } else if g.Polygon? {
      XYsOfDimensioned(g.shell);
      forall r | r in h.holes ensures AllXY(r) {
        var i :| 0 <= i < |h.holes| && h.holes[i] == r;
        assert g.holes[i] in g.holes;
        XYsOfDimensioned(g.holes[i]);
      }
    } else if IsCollection(g) {
      forall p | p in h.parts ensures TwoDimensional(p) {
        var i :| 0 <= i < |h.parts| && h.parts[i] == p;
        assert g.parts[i] in g.parts;
        RemoveYieldsTwoDimensional(g.parts[i]);
      }
    }
  }
}
