/** The trigger-zone mask of video_thread.py: two fixed polygons, each
    filled with its own code on a 720 x 1280 grid, and the two grids added. */
module ZoneMask {

  /** The processing frame is 720 rows by 1280 columns; the resize of the
      combined mask to (1280, 720) leaves it as it is. */
  const Rows: int := 720
  const Cols: int := 1280

  /** Zone codes of the combined mask. */
  const NoZone: int := 0
  const EntryZone: int := 1
  const ExitZone: int := 2

  /** Vertices as (x, y) pixel pairs: the blue (entry) and yellow (exit) polygons. */
  const BluePolygon: seq<(int, int)> := [(30, 474), (81, 475), (171, 430), (113, 431)]
  const YellowPolygon: seq<(int, int)> := [(1015, 475), (938, 434), (985, 433), (1087, 475)]

  /** A filled polygon: `inside(row, col)` says whether the fill set that pixel. */
  type Raster = (int, int) -> bool

  /** The combined mask: the zone code found at (row, col). */
  type Mask = (int, int) -> int

  function Min(a: int, b: int): int { if a <= b then a else b }
  function Max(a: int, b: int): int { if a <= b then b else a }

  function MinX(poly: seq<(int, int)>): int
    requires |poly| > 0
  {
    if |poly| == 1 then poly[0].0 else Min(poly[0].0, MinX(poly[1..]))
  }

  function MaxX(poly: seq<(int, int)>): int
    requires |poly| > 0
  {
    if |poly| == 1 then poly[0].0 else Max(poly[0].0, MaxX(poly[1..]))
  }

  function MinY(poly: seq<(int, int)>): int
    requires |poly| > 0
  {
    if |poly| == 1 then poly[0].1 else Min(poly[0].1, MinY(poly[1..]))
  }

  function MaxY(poly: seq<(int, int)>): int
    requires |poly| > 0
  {
    if |poly| == 1 then poly[0].1 else Max(poly[0].1, MaxY(poly[1..]))
  }

  /** The pixel lies in the bounding box of the polygon's vertices. */
  predicate InHull(poly: seq<(int, int)>, row: int, col: int)
    requires |poly| > 0
  {
    MinX(poly) <= col <= MaxX(poly) && MinY(poly) <= row <= MaxY(poly)
  }

  /** A fill of `poly` on the frame grid marks only pixels of the grid that
      lie within the polygon's bounding box. */
  ghost predicate FilledWithin(r: Raster, poly: seq<(int, int)>)
    requires |poly| > 0
  {
    forall row, col :: r(row, col) ==> 0 <= row < Rows && 0 <= col < Cols && InHull(poly, row, col)
  }

  /** `polygon_blue_value_1 + polygon_yellow_value_2`: a blue pixel contributes 1,
      a yellow pixel 2. */
  function Combine(blue: Raster, yellow: Raster): Mask
  {
    (row: int, col: int) => (if blue(row, col) then EntryZone else NoZone) + (if yellow(row, col) then ExitZone else NoZone)
  }

  /** The blue polygon lies in columns 30..171, the yellow one in 938..1087. */
  lemma HullsDisjoint(row: int, col: int)
    ensures !(InHull(BluePolygon, row, col) && InHull(YellowPolygon, row, col))
  {
    assert BluePolygon[1..][1..][1..] == [(113, 431)];
    assert MaxX(BluePolygon) == 171;
    assert YellowPolygon[1..][1..][1..] == [(1087, 475)];
    assert MinX(YellowPolygon) == 938;
  }

  /** With the two fixed polygons the combined mask holds only the codes 0, 1
      and 2, and a pixel reads 1 exactly when it is blue and 2 exactly when it
      is yellow. */
  lemma CombinedCodes(blue: Raster, yellow: Raster, row: int, col: int)
    requires FilledWithin(blue, BluePolygon) && FilledWithin(yellow, YellowPolygon)
    ensures var z := Combine(blue, yellow)(row, col);
      && (z == EntryZone <==> blue(row, col))
      && (z == ExitZone <==> yellow(row, col))
      && (z == NoZone <==> !blue(row, col) && !yellow(row, col))
      && (z != NoZone ==> 0 <= row < Rows && 0 <= col < Cols)
  {
    HullsDisjoint(row, col);
  }
}
