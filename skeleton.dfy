/** The skeleton and distance helpers of posture.py: the fixed 19-point
    skeleton rebuilt from the pose landmarks, the scaling of normalised
    points to pixels, the three take-off angles and the blended distance to
    a reference posture. The trigonometry (`acos`, `sqrt`, the cosine
    similarity) is kept uninterpreted and passed in. */
module Skeleton {
  import opened Base

  /** One pose landmark: its normalised x and y. */
  datatype Landmark = Landmark(x: real, y: real)

  /** `construct_num`: the landmarks copied after the three derived points. */
  const ConstructNum: seq<nat> := [11, 12, 13, 14, 15, 16, 23, 24, 25, 26, 27, 28, 29, 30, 31, 32]

  /** The number of points in a rebuilt skeleton. */
  const SkeletonSize: nat := 19

  function AsPoint(l: Landmark): Point
  {
    Point(l.x, l.y)
  }

  function Midpoint(a: Landmark, b: Landmark): Point
  {
    Point((a.x + b.x) / 2.0, (a.y + b.y) / 2.0)
  }

  /** Every entry of `construct_num` names one of the 33 landmarks. */
  lemma ConstructNumInRange()
    ensures |ConstructNum| == 16
    ensures forall i :: 0 <= i < 16 ==> ConstructNum[i] <= 32
  {
  }

  /** The rebuilt skeleton as a value: nose, shoulder midpoint, hip midpoint,
      then the landmarks of `construct_num` in that order. */
  function SkeletonOf(landmarks: seq<Landmark>): seq<Point>
    requires |landmarks| > 32
  {
    ConstructNumInRange();
    [AsPoint(landmarks[0]), Midpoint(landmarks[11], landmarks[12]), Midpoint(landmarks[23], landmarks[24])]
      + seq(16, i requires 0 <= i < 16 => AsPoint(landmarks[ConstructNum[i]]))
  }

  /** `construct_point`. */
  method ConstructPoint(landmarks: seq<Landmark>) returns (points: seq<Point>)
    requires |landmarks| > 32
    ensures |points| == SkeletonSize
    ensures points[0] == AsPoint(landmarks[0])
    ensures points[1] == Midpoint(landmarks[11], landmarks[12])
    ensures points[2] == Midpoint(landmarks[23], landmarks[24])
    ensures forall i :: 0 <= i < |ConstructNum| ==> points[3 + i] == AsPoint(landmarks[ConstructNum[i]])
    ensures points == SkeletonOf(landmarks)
  {
    ConstructNumInRange();
    var constructNum := ConstructNum;
    points := [];
    var i := 0;
    var nose := Point(landmarks[0].x, landmarks[0].y);
    points := points + [nose];
    var shoulderMid := Point((landmarks[11].x + landmarks[12].x) / 2.0, (landmarks[11].y + landmarks[12].y) / 2.0);
    points := points + [shoulderMid];
    var hipMid := Point((landmarks[23].x + landmarks[24].x) / 2.0, (landmarks[23].y + landmarks[24].y) / 2.0);
    points := points + [hipMid];
    while i < |constructNum|
      invariant 0 <= i <= |constructNum|
      invariant |points| == 3 + i
      invariant points[0] == AsPoint(landmarks[0])
      invariant points[1] == Midpoint(landmarks[11], landmarks[12])
      invariant points[2] == Midpoint(landmarks[23], landmarks[24])
      invariant forall m :: 0 <= m < i ==> points[3 + m] == AsPoint(landmarks[ConstructNum[m]])
    {
      points := points + [Point(landmarks[constructNum[i]].x, landmarks[constructNum[i]].y)];
      i := i + 1;
    }
    assert |points| == |SkeletonOf(landmarks)|;
    forall m | 0 <= m < |points| ensures points[m] == SkeletonOf(landmarks)[m] {
      if m >= 3 {
        assert points[3 + (m - 3)] == AsPoint(landmarks[ConstructNum[m - 3]]);
      }
    }
  }

  /** The `image.shape` triple: height, width, channels. */
  datatype ImageShape = ImageShape(height: int, width: int, channels: int)

  /** One normalised point in pixels of an image of the given shape. */
  function ToPixels(p: Point, shape: ImageShape): Point
  {
    Point(p.x * (shape.width as real), p.y * (shape.height as real))
  }

  /** `back_to_origin`. */
  method BackToOrigin(points: seq<Point>, shape: ImageShape) returns (originPoints: seq<Point>)
    ensures |originPoints| == |points|
    ensures forall i :: 0 <= i < |points| ==>
      originPoints[i] == Point(points[i].x * (shape.width as real), points[i].y * (shape.height as real))
  {
    originPoints := [];
    var height, width := shape.height, shape.width;
    for i := 0 to |points|
      invariant |originPoints| == i
      invariant forall m :: 0 <= m < i ==> originPoints[m] == ToPixels(points[m], shape)
    {
      var point := points[i];
      originPoints := originPoints + [Point(point.x * (width as real), point.y * (height as real))];
    }
  }

  /** `calculate_angle(A, B, C)`: the angle in degrees between AB and BC. */
  type AngleFn = (Point, Point, Point) -> real

  /** `calculate_take_off_angles`: three joint angles of a skeleton. */
  function TakeOffAngles(points: seq<Point>, angle: AngleFn): seq<real>
    requires |points| > 14
  {
    [ angle(points[9], points[11], points[3]),
      angle(points[12], points[10], Point(points[10].x + 1.0, points[10].y)),
      angle(points[10], points[12], points[14]) ]
  }

  /** The angles read only skeleton points 3, 9, 10, 11, 12 and 14: two
      skeletons that agree there have the same three angles. */
  lemma TakeOffAnglesReadJoints(p1: seq<Point>, p2: seq<Point>, angle: AngleFn)
    requires |p1| > 14 && |p2| > 14
    requires forall j :: j in {3, 9, 10, 11, 12, 14} ==> p1[j] == p2[j]
    ensures |TakeOffAngles(p1, angle)| == 3
    ensures TakeOffAngles(p1, angle) == TakeOffAngles(p2, angle)
  {
  }

  /** On a rebuilt skeleton the three angles are taken at landmarks: the
      trunk angle between hip 23, knee 25 and shoulder 11, the angle of the
      thigh 24-26 against the horizontal through hip 24, and the knee angle
      between hip 24, knee 26 and ankle 28. */
  lemma TakeOffAnglesOfLandmarks(landmarks: seq<Landmark>, angle: AngleFn)
    requires |landmarks| > 32
    ensures var l := landmarks;
      TakeOffAngles(SkeletonOf(l), angle) ==
        [ angle(AsPoint(l[23]), AsPoint(l[25]), AsPoint(l[11])),
          angle(AsPoint(l[26]), AsPoint(l[24]), Point(l[24].x + 1.0, l[24].y)),
          angle(AsPoint(l[24]), AsPoint(l[26]), AsPoint(l[28])) ]
  {
  }

  /** The uninterpreted numerics of `calculate_distance`: the angle
      function, `math.sqrt`, and the cosine similarity `p.q / (|p| |q|)`. */
  datatype Numerics = Numerics(angle: AngleFn, sqrt: real -> real, cosine: (seq<real>, seq<real>) -> real)

  /** `sum((x - y) ** 2 * w for x, y, w in zip(p, q, weights))`; `zip` stops
      at the shortest of the three. */
  function WeightedSquares(p: seq<real>, q: seq<real>, weights: seq<real>): real
  {
    if p == [] || q == [] || weights == [] then 0.0
    else (p[0] - q[0]) * (p[0] - q[0]) * weights[0] + WeightedSquares(p[1..], q[1..], weights[1..])
  }

  /** With non-negative weights the weighted sum of squares is non-negative. */
  lemma {:induction false} WeightedSquaresNonNegative(p: seq<real>, q: seq<real>, weights: seq<real>)
    requires forall i :: 0 <= i < |weights| ==> weights[i] >= 0.0
    ensures WeightedSquares(p, q, weights) >= 0.0
  {
    if p != [] && q != [] && weights != [] {
      WeightedSquaresNonNegative(p[1..], q[1..], weights[1..]);
      assert (p[0] - q[0]) * (p[0] - q[0]) >= 0.0;
    }
  }

  /** Identical angle vectors are at weighted distance zero, whatever the weights. */
  lemma {:induction false} WeightedSquaresSame(p: seq<real>, weights: seq<real>)
    ensures WeightedSquares(p, p, weights) == 0.0
  {
    if p != [] && weights != [] {
      WeightedSquaresSame(p[1..], weights[1..]);
    }
  }

  /** A distance and the angle vector it was computed for. */
  datatype Scored = Scored(distance: real, angles: seq<real>)

  /** `calculate_distance` for a given reference skeleton (the content of the
      posture's `.txt` file). */
  function CalculateDistance(testPoints: seq<Point>, standardPoints: seq<Point>, weights: seq<real>,
                             threshold: real, num: Numerics): (r: Scored)
    requires |testPoints| > 14 && |standardPoints| > 14
    ensures r.angles == TakeOffAngles(testPoints, num.angle)
    ensures var d := num.sqrt(WeightedSquares(r.angles, TakeOffAngles(standardPoints, num.angle), weights));
      && (d >= threshold ==> r.distance == d)
      && (d < threshold ==> r.distance == 0.7 * d + 0.3 * (1.0 - num.cosine(r.angles, TakeOffAngles(standardPoints, num.angle))))
  {
    var p := TakeOffAngles(testPoints, num.angle);
    var q := TakeOffAngles(standardPoints, num.angle);
    var d := num.sqrt(WeightedSquares(p, q, weights));
    if d < threshold then
      var dCos := 1.0 - num.cosine(p, q);
      Scored(0.7 * d + 0.3 * dCos, p)
    else Scored(d, p)
  }

  /** The returned angle vector depends on the test skeleton only, not on
      the reference skeleton, the weights or the threshold. */
  lemma AnglesIgnoreReference(testPoints: seq<Point>, s1: seq<Point>, s2: seq<Point>,
                              w1: seq<real>, w2: seq<real>, t1: real, t2: real, num: Numerics)
    requires |testPoints| > 14 && |s1| > 14 && |s2| > 14
    ensures CalculateDistance(testPoints, s1, w1, t1, num).angles == CalculateDistance(testPoints, s2, w2, t2, num).angles
  {
  }
}
