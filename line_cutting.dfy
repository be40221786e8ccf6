/**
 * Cutting a LineString where it crosses the antimeridian
 * (cutLineStringAtAntimeridian): every crossing segment is split by a pair
 * of boundary positions, one at +-180 on the side the segment leaves and one
 * at the opposite meridian where it enters, both at the interpolated
 * latitude.
 */
module LineCutting {
  import opened LngLatAlt
  import opened Antimeridian

  type Path = seq<Position>

  /** The boundary position that ends the part before the crossing of p1 -> p2. */
  function ExitPoint(p1: Position, p2: Position): Position
  {
    At(Signum(p1.longitude) * ANTIMERIDIAN, InterpolateLatitude(p1, p2))
  }

  /** The boundary position that starts the part after the crossing of p1 -> p2. */
  function EntryPoint(p1: Position, p2: Position): Position
  {
    At(-Signum(p1.longitude) * ANTIMERIDIAN, InterpolateLatitude(p1, p2))
  }

  /** The finished segments and the segment being built, after the first n positions. */
  datatype LineProgress = LineProgress(segments: seq<Path>, current: Path)

  function CutLineUpTo(points: Path, n: nat): LineProgress
    requires 1 <= n <= |points|
  {
    if n == 1 then LineProgress([], [points[0]])
    else
      var progress := CutLineUpTo(points, n - 1);
      var p1, p2 := points[n - 2], points[n - 1];
      if CrossesAntimeridian(p1, p2) then
        LineProgress(progress.segments + [progress.current + [ExitPoint(p1, p2)]], [EntryPoint(p1, p2), p2])
      else
        LineProgress(progress.segments, progress.current + [p2])
  }

  /** What cutting returns: the LineString itself, or a MultiLineString of the parts. */
  datatype LineCut = SameLineString | MultiLineString(lines: seq<Path>)

  function LineStringCut(points: Path): LineCut
  {
    if |points| < 2 then SameLineString
    else
      var progress := CutLineUpTo(points, |points|);
      var lines := progress.segments + [progress.current];
      if |lines| == 1 then SameLineString else MultiLineString(lines)
  }

  method CutLineStringAtAntimeridian(points: Path) returns (r: LineCut)
    ensures r == LineStringCut(points)
  {
    if |points| < 2 {
      return SameLineString;
    }
    var segments: seq<Path> := [];
    var current: Path := [points[0]];
    var i := 1;
    while i < |points|
      invariant 1 <= i <= |points|
      invariant CutLineUpTo(points, i) == LineProgress(segments, current)
    {
      var p1, p2 := points[i - 1], points[i];
      if CrossesAntimeridian(p1, p2) {
        var lat := InterpolateLatitude(p1, p2);
        current := current + [At(Signum(p1.longitude) * ANTIMERIDIAN, lat)];
        segments := segments + [current];
        current := [At(-Signum(p1.longitude) * ANTIMERIDIAN, lat)];
      }
      current := current + [p2];
      i := i + 1;
    }
    segments := segments + [current];
    if |segments| == 1 {
      return SameLineString;
    }
    return MultiLineString(segments);
  }

  // -------------------------------------------------------------- reference

  /** The positions in the order a cut path visits them. */
  function Concat(lines: seq<Path>): Path
  {
    if |lines| == 0 then [] else Concat(lines[..|lines| - 1]) + lines[|lines| - 1]
  }

  /**
   * The input path with the exit and entry positions inserted between the
   * two positions of every crossing pair, and nothing else changed.
   */
  function Expanded(points: Path, n: nat): Path
    requires 1 <= n <= |points|
  {
    if n == 1 then [points[0]]
    else
      var p1, p2 := points[n - 2], points[n - 1];
      Expanded(points, n - 1) + (if CrossesAntimeridian(p1, p2) then [ExitPoint(p1, p2), EntryPoint(p1, p2)] else []) + [p2]
  }

  /** Two consecutive parts meet on the antimeridian: opposite meridians, the same latitude. */
  predicate MeetOnAntimeridian(a: Position, b: Position)
  {
    && a.latitude == b.latitude
    && ((a.longitude == ANTIMERIDIAN && b.longitude == -ANTIMERIDIAN) || (a.longitude == -ANTIMERIDIAN && b.longitude == ANTIMERIDIAN))
  }

  /** The parts of a cut path: at least two positions each, joined on the antimeridian. */
  predicate WellJoined(lines: seq<Path>)
  {
    && (forall k :: 0 <= k < |lines| ==> |lines[k]| >= 2)
    && (forall k :: 0 < k < |lines| ==> MeetOnAntimeridian(lines[k - 1][|lines[k - 1]| - 1], lines[k][0]))
  }

  lemma ConcatAppend(lines: seq<Path>, line: Path)
    ensures Concat(lines + [line]) == Concat(lines) + line
  {
    assert (lines + [line])[..|lines|] == lines;
  }

  /** Exit and entry positions of a crossing pair lie on opposite meridians at the same latitude. */
  lemma CrossingBoundaries(p1: Position, p2: Position)
    requires CrossesAntimeridian(p1, p2)
    ensures MeetOnAntimeridian(ExitPoint(p1, p2), EntryPoint(p1, p2))
  {
  }

  /** The progress after n positions: one finished segment per crossing, the current one ending at position n - 1. */
  lemma {:induction false} CutLineUpToCount(points: Path, n: nat)
    requires 1 <= n <= |points|
    ensures var p := CutLineUpTo(points, n);
      && |p.segments| == CrossingCount(points, n)
      && |p.current| >= 1 && p.current[|p.current| - 1] == points[n - 1]
      && (n >= 2 ==> |p.current| >= 2)
      && (forall k :: 0 <= k < |p.segments| ==> |p.segments[k]| >= 2)
      && (p.segments + [p.current])[0][0] == points[0]
  {
    if n > 1 {
      CutLineUpToCount(points, n - 1);
      var p, q := CutLineUpTo(points, n), CutLineUpTo(points, n - 1);
      if CrossesAntimeridian(points[n - 2], points[n - 1]) {
        var closed := q.current + [ExitPoint(points[n - 2], points[n - 1])];
        assert p.segments == q.segments + [closed];
        forall k | 0 <= k < |p.segments|
          ensures |p.segments[k]| >= 2
        {
          if k < |q.segments| {
            assert p.segments[k] == q.segments[k];
          }
        }
        assert (p.segments + [p.current])[0] == (q.segments + [q.current + [ExitPoint(points[n - 2], points[n - 1])]])[0];
        if |q.segments| == 0 {
          assert (q.segments + [q.current])[0] == q.current;
        } else {
          assert (q.segments + [q.current])[0] == q.segments[0];
        }
      } else if |q.segments| == 0 {
        assert (p.segments + [p.current])[0] == p.current;
        assert (q.segments + [q.current])[0] == q.current;
      } else {
        assert (p.segments + [p.current])[0] == q.segments[0] == (q.segments + [q.current])[0];
      }
    }
  }

  /** Closing the current segment with an exit position and starting one at the entry position keeps the reading order. */
  lemma ConcatAfterCrossing(q: LineProgress, exit: Position, entry: Position, p2: Position)
    ensures Concat(q.segments + [q.current + [exit]]) + [entry, p2] == Concat(q.segments) + q.current + [exit, entry] + [p2]
  {
    ConcatAppend(q.segments, q.current + [exit]);
  }

  /** Read in order, the segments and the current one are the expanded input. */
  lemma {:induction false} CutLineUpToConcat(points: Path, n: nat)
    requires 1 <= n <= |points|
    ensures var p := CutLineUpTo(points, n);
      Concat(p.segments) + p.current == Expanded(points, n)
  {
    if n > 1 {
      CutLineUpToConcat(points, n - 1);
      var q := CutLineUpTo(points, n - 1);
      var p1, p2 := points[n - 2], points[n - 1];
      if CrossesAntimeridian(p1, p2) {
        ConcatAfterCrossing(q, ExitPoint(p1, p2), EntryPoint(p1, p2), p2);
      } else {
        assert Concat(q.segments) + (q.current + [p2]) == Concat(q.segments) + q.current + [p2];
      }
    }
  }

  /**
   * The progress so far is joined: the finished segments are well joined,
   * the current one is not empty, and the last finished segment meets it
   * on the antimeridian.
   */
  predicate JoinedSoFar(p: LineProgress)
  {
    && WellJoined(p.segments)
    && |p.current| >= 1
    && (|p.segments| > 0 ==> MeetOnAntimeridian(p.segments[|p.segments| - 1][|p.segments[|p.segments| - 1]| - 1], p.current[0]))
  }

  /** Appending a position to the current segment keeps the progress joined. */
  lemma JoinedAfterPosition(q: LineProgress, p2: Position)
    requires JoinedSoFar(q)
    ensures JoinedSoFar(LineProgress(q.segments, q.current + [p2]))
  {
  }

  /** Closing the current segment at an exit position that meets the entry position keeps the progress joined. */
  lemma JoinedAfterCrossing(q: LineProgress, exit: Position, entry: Position, p2: Position)
    requires JoinedSoFar(q) && MeetOnAntimeridian(exit, entry)
    ensures JoinedSoFar(LineProgress(q.segments + [q.current + [exit]], [entry, p2]))
  {
    var lines := q.segments + [q.current + [exit]];
    forall k | 0 < k < |lines|
      ensures MeetOnAntimeridian(lines[k - 1][|lines[k - 1]| - 1], lines[k][0])
    {
      assert lines[k - 1] == q.segments[k - 1];
    }
  }

  /** Joined progress whose current segment has two positions gives well-joined parts. */
  lemma JoinedPartsAreWellJoined(p: LineProgress)
    requires JoinedSoFar(p) && |p.current| >= 2
    ensures WellJoined(p.segments + [p.current])
  {
    var lines := p.segments + [p.current];
    forall k | 0 <= k < |lines|
      ensures |lines[k]| >= 2
    {
      if k < |p.segments| {
        assert lines[k] == p.segments[k];
      }
    }
    forall k | 0 < k < |lines|
      ensures MeetOnAntimeridian(lines[k - 1][|lines[k - 1]| - 1], lines[k][0])
    {
      assert lines[k - 1] == p.segments[k - 1];
    }
  }

  /** The progress of cutting is joined at every step. */
  lemma {:induction false} CutLineUpToJoined(points: Path, n: nat)
    requires 1 <= n <= |points|
    ensures JoinedSoFar(CutLineUpTo(points, n))
  {
    if n > 1 {
      CutLineUpToJoined(points, n - 1);
      var q := CutLineUpTo(points, n - 1);
      var p1, p2 := points[n - 2], points[n - 1];
      if CrossesAntimeridian(p1, p2) {
        CrossingBoundaries(p1, p2);
        JoinedAfterCrossing(q, ExitPoint(p1, p2), EntryPoint(p1, p2), p2);
      } else {
        JoinedAfterPosition(q, p2);
      }
    }
  }

  /**
   * A LineString of fewer than two positions, or one without a crossing,
   * is returned unchanged; any other is cut into one more part than it has
   * crossings.
   */
  lemma LineIsCutIffItCrosses(points: Path)
    ensures LineStringCut(points).MultiLineString? <==> |points| >= 2 && HasCrossing(points)
    ensures LineStringCut(points).MultiLineString? ==>
      |LineStringCut(points).lines| == CrossingCount(points, |points|) + 1
  {
    CrossingCountOfPath(points);
    if |points| >= 2 {
      CutLineUpToCount(points, |points|);
    }
  }

  /**
   * The parts of a cut LineString: each of at least two positions, each
   * joined to the next on the antimeridian, the first starting where the
   * input starts and the last ending where it ends; read in order they give
   * the input with the boundary positions inserted and nothing lost.
   */
  lemma CutLinePartsAreJoinedOnAntimeridian(points: Path)
    requires LineStringCut(points).MultiLineString?
    ensures var lines := LineStringCut(points).lines;
      && WellJoined(lines)
      && lines[0][0] == points[0]
      && lines[|lines| - 1][|lines[|lines| - 1]| - 1] == points[|points| - 1]
      && Concat(lines) == Expanded(points, |points|)
  {
    var p := CutLineUpTo(points, |points|);
    CutLineUpToCount(points, |points|);
    CutLineUpToConcat(points, |points|);
    CutLineUpToJoined(points, |points|);
    JoinedPartsAreWellJoined(p);
    ConcatAppend(p.segments, p.current);
  }

  // ------------------------------------------------- parts stay on one side

  /** Every longitude of the path lies in [-180, 180], the range GeoJSON uses. */
  predicate InRange(points: Path)
  {
    forall k :: 0 <= k < |points| ==> -180.0 <= points[k].longitude <= 180.0
  }

  lemma NoCrossingAppend(s: Path, x: Position)
    requires |s| >= 1 && !HasCrossing(s) && !CrossesAntimeridian(s[|s| - 1], x)
    ensures !HasCrossing(s + [x])
  {
    var t := s + [x];
    forall i | 1 <= i < |t|
      ensures !CrossesAntimeridian(t[i - 1], t[i])
    {
      if i < |s| {
        assert t[i - 1] == s[i - 1] && t[i] == s[i];
      }
    }
  }

  /** For longitudes in range, neither boundary position crosses again with its neighbour. */
  lemma BoundariesDoNotCross(p1: Position, p2: Position)
    requires -180.0 <= p1.longitude <= 180.0 && -180.0 <= p2.longitude <= 180.0
    requires CrossesAntimeridian(p1, p2)
    ensures !CrossesAntimeridian(p1, ExitPoint(p1, p2))
    ensures !HasCrossing([EntryPoint(p1, p2), p2])
  {
    var exit, entry := ExitPoint(p1, p2), EntryPoint(p1, p2);
    assert NormalizeLongitude(exit.longitude) == exit.longitude;
    assert NormalizeLongitude(entry.longitude) == entry.longitude;
    assert !CrossesAntimeridian(entry, p2);
  }

  /**
   * For a path whose longitudes are in range, no part of the cut crosses
   * the antimeridian again: each part lies on one side of it.
   */
  lemma {:induction false} CutLineUpToStaysOnOneSide(points: Path, n: nat)
    requires 1 <= n <= |points| && InRange(points)
    ensures var p := CutLineUpTo(points, n);
      && (forall k :: 0 <= k < |p.segments| ==> !HasCrossing(p.segments[k]))
      && !HasCrossing(p.current)
  {
    if n > 1 {
      CutLineUpToStaysOnOneSide(points, n - 1);
      CutLineUpToCount(points, n - 1);
      var p, q := CutLineUpTo(points, n), CutLineUpTo(points, n - 1);
      var p1, p2 := points[n - 2], points[n - 1];
      if CrossesAntimeridian(p1, p2) {
        BoundariesDoNotCross(p1, p2);
        NoCrossingAppend(q.current, ExitPoint(p1, p2));
        forall k | 0 <= k < |p.segments|
          ensures !HasCrossing(p.segments[k])
        {
          if k < |q.segments| {
            assert p.segments[k] == q.segments[k];
          }
        }
      } else {
        NoCrossingAppend(q.current, p2);
      }
    }
  }

  /** The parts of a cut LineString whose longitudes are in range do not cross the antimeridian. */
  lemma CutLinePartsDoNotCross(points: Path)
    requires InRange(points) && LineStringCut(points).MultiLineString?
    ensures forall k :: 0 <= k < |LineStringCut(points).lines| ==> !HasCrossing(LineStringCut(points).lines[k])
  {
    var p := CutLineUpTo(points, |points|);
    CutLineUpToStaysOnOneSide(points, |points|);
    var lines := p.segments + [p.current];
    forall k | 0 <= k < |lines|
      ensures !HasCrossing(lines[k])
    {
      if k < |p.segments| {
        assert lines[k] == p.segments[k];
      }
    }
  }
}
