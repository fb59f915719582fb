/**
 * The robot-side helpers of easy_cozmo/ball_detection_utils.py:
 * `detect_ball`, which lets the detector's first box decide whether a
 * ball was seen, and `get_ball_pnp`, which manufactures nine 3D sphere
 * points and nine matching image points from one observed circle and
 * picks the camera intrinsics, up to (not including) the PnP solve.
 */
module BallDetectionUtils {
  import opened Detections

  // ---------------------------------------------------------------------
  // detect_ball
  // ---------------------------------------------------------------------

  const DefaultConfThresh: real := 0.8
  /** The accepted radius lies strictly between these two. */
  const MinRadius: int := 20
  const MaxRadius: int := 80

  /**
   * `detect_ball`'s answer without the frame: `(found, center, radius)`.
   * The frame itself is passed back unchanged except for drawing.
   */
  datatype BallReading = BallReading(detected: bool, center: Option<(int, int)>, radius: Option<int>)

  const NotDetected := BallReading(false, None, None)

  /** The acceptance test on one box. */
  predicate Accepts(b: Box, confThresh: real)
  {
    b.conf >= confThresh && Radius(b) < MaxRadius && Radius(b) > MinRadius
  }

  /**
   * Only the first box is examined: it is accepted or the answer is
   * "not detected". No boxes, or a raised exception, also give "not
   * detected".
   */
  function DetectBall(inference: Inference, confThresh: real): (r: BallReading)
    ensures r.detected <==> r.center.Some?
    ensures r.detected <==> r.radius.Some?
    ensures r.detected ==> MinRadius < r.radius.value < MaxRadius
    ensures r.detected ==> inference.Boxes? && |inference.boxes| > 0 && inference.boxes[0].conf >= confThresh
  {
    match inference
    case Raised(_) => NotDetected
    case Boxes(boxes) =>
      if |boxes| == 0 then NotDetected
      else
        var b := boxes[0];
        if Accepts(b, confThresh) then BallReading(true, Some(Center(b)), Some(Radius(b)))
        else NotDetected
  }

  /**
   * The acceptance test in terms of the box itself: confidence at least
   * the threshold and a larger side in [42, 160), which is what a
   * truncated radius strictly between 20 and 80 amounts to.
   */
  lemma AcceptsIff(b: Box, confThresh: real)
    ensures Accepts(b, confThresh) <==> b.conf >= confThresh && 42.0 <= Extent(b) < 160.0
  {
    RadiusAbove(b, 20);
    RadiusBelow(b, 80);
  }

  /** The exact outcome of `detect_ball` for every input. */
  lemma DetectBallOutcome(inference: Inference, confThresh: real)
    ensures var r := DetectBall(inference, confThresh);
      && (r.detected <==>
           inference.Boxes? && |inference.boxes| > 0 &&
           inference.boxes[0].conf >= confThresh &&
           42.0 <= Extent(inference.boxes[0]) < 160.0)
      && (r.detected ==> r.center == Some(Center(inference.boxes[0])) &&
                         r.radius == Some(Radius(inference.boxes[0])))
      && (!r.detected ==> r == BallReading(false, None, None))
  {
    if inference.Boxes? && |inference.boxes| > 0 {
      AcceptsIff(inference.boxes[0], confThresh);
    }
  }

  /** Whatever follows the first box never changes the answer. */
  lemma FirstBoxDecides(b: Box, rest: seq<Box>, rest': seq<Box>, confThresh: real)
    ensures DetectBall(Boxes([b] + rest), confThresh) == DetectBall(Boxes([b] + rest'), confThresh)
  {
  }

  /** A first box that fails hides a later one that would pass. */
  lemma LaterBoxNeverRescues(b: Box, later: Box, confThresh: real)
    requires !Accepts(b, confThresh) && Accepts(later, confThresh)
    ensures !DetectBall(Boxes([b, later]), confThresh).detected
  {
  }

  /** A larger side of 40 gives radius 20, on the boundary, and is rejected. */
  lemma BoundaryBoxRejected()
    ensures Radius(Box(100.0, 100.0, 140.0, 140.0, 0.9, 0.0)) == 20
    ensures DetectBall(Boxes([Box(100.0, 100.0, 140.0, 140.0, 0.9, 0.0)]), DefaultConfThresh) == NotDetected
  {
  }

  /** A 50-pixel box with confidence 0.9 is accepted with radius 25 at (125, 125). */
  lemma InteriorBoxAccepted()
    ensures DetectBall(Boxes([Box(100.0, 100.0, 150.0, 150.0, 0.9, 0.0)]), DefaultConfThresh)
         == BallReading(true, Some((125, 125)), Some(25))
  {
  }

  // ---------------------------------------------------------------------
  // get_ball_pnp
  // ---------------------------------------------------------------------

  datatype Point2 = Point2(x: real, y: real)
  datatype Point3 = Point3(x: real, y: real, z: real)

  /** The optional keyword arguments; `None` means the key was not passed. */
  datatype PnpOptions = PnpOptions(
    cameraMatrix: Option<seq<seq<real>>>,
    distortionCoef: Option<seq<real>>,
    ballRadius: Option<real>)

  /** Everything handed to the PnP solver. */
  datatype PnpProblem = PnpProblem(
    objectPoints: seq<Point3>,
    imagePoints: seq<Point2>,
    cameraMatrix: seq<seq<real>>,
    distortion: seq<real>)

  /** `math.sin(math.pi/4.)` and `math.cos(math.pi/4.)` as doubles: they differ in the last digit. */
  const Sin45: real := 0.7071067811865475
  const Cos45: real := 0.7071067811865476

  /** The built-in sphere radius. */
  const DefaultBallRadius: real := 25.0

  const Fx: real := 277.345389059622
  const Fy: real := 278.253264643578
  const Cx: real := 152.389201831827
  const Cy: real := 109.376457506074
  const K1: real := -0.0691655300978844
  const K2: real := 0.0630063731358772

  const DefaultCameraMatrix: seq<seq<real>> := [[Fx, 0.0, Cx], [0.0, Fy, Cy], [0.0, 0.0, 1.0]]
  const DefaultDistortion: seq<real> := [K1, K2, 0.0, 0.0]

  /** Nine points on a sphere of radius `R`, facing the camera along x. */
  function SpherePoints(R: real): (ps: seq<Point3>)
    ensures |ps| == 9
  {
    [ Point3(R, 0.0, 0.0),
      Point3(0.0, -R, 0.0),
      Point3(0.0, R, 0.0),
      Point3(0.0, 0.0, R),
      Point3(0.0, 0.0, -R),
      Point3(R * Sin45, R * Cos45, 0.0),
      Point3(R * Sin45, -R * Cos45, 0.0),
      Point3(R * Sin45, 0.0, -R * Cos45),
      Point3(R * Sin45, 0.0, R * Cos45) ]
  }

  /** Nine image points around the observed circle of radius `rad`. */
  function CirclePoints(center: Point2, rad: real): (ps: seq<Point2>)
    ensures |ps| == 9
  {
    var u, v := center.x, center.y;
    [ Point2(u, v),
      Point2(u - rad, v),
      Point2(u + rad, v),
      Point2(u, v - rad),
      Point2(u, v + rad),
      Point2(u + rad * Cos45, v),
      Point2(u - rad * Cos45, v),
      Point2(u, v + rad * Cos45),
      Point2(u, v - rad * Cos45) ]
  }

  /**
   * `get_ball_pnp` up to the solver, as written: the object points always
   * use the built-in radius 25, whatever `ball_radius` says; each
   * intrinsic is the override when one is passed and the default otherwise.
   */
  function BallPnpProblem(center: Point2, rad: real, opts: PnpOptions): (p: PnpProblem)
    ensures |p.objectPoints| == 9 && |p.imagePoints| == 9
    ensures opts.cameraMatrix.None? ==> p.cameraMatrix == DefaultCameraMatrix
    ensures opts.cameraMatrix.Some? ==> p.cameraMatrix == opts.cameraMatrix.value
    ensures opts.distortionCoef.None? ==> p.distortion == DefaultDistortion
    ensures opts.distortionCoef.Some? ==> p.distortion == opts.distortionCoef.value
  {
    var cameraMatrix := if opts.cameraMatrix.Some? then opts.cameraMatrix.value else DefaultCameraMatrix;
    var distortion := if opts.distortionCoef.Some? then opts.distortionCoef.value else DefaultDistortion;
    PnpProblem(SpherePoints(DefaultBallRadius), CirclePoints(center, rad), cameraMatrix, distortion)
  }

  /**
   * The image pattern: point 0 is the center, points 1-4 sit at -rad/+rad
   * on x and then on y, points 5-8 at +-rad*cos(pi/4) on a single axis.
   */
  lemma ImagePointPattern(center: Point2, rad: real, opts: PnpOptions)
    ensures var ps := BallPnpProblem(center, rad, opts).imagePoints;
      && ps[0] == center
      && ps[1] == Point2(center.x - rad, center.y) && ps[2] == Point2(center.x + rad, center.y)
      && ps[3] == Point2(center.x, center.y - rad) && ps[4] == Point2(center.x, center.y + rad)
      && (forall i :: 5 <= i < 9 ==>
            (ps[i].y == center.y && (ps[i].x - center.x == rad * Cos45 || ps[i].x - center.x == -rad * Cos45)) ||
            (ps[i].x == center.x && (ps[i].y - center.y == rad * Cos45 || ps[i].y - center.y == -rad * Cos45)))
  {
  }

  /**
   * The two lists are paired by index as a scaled orthographic view of the
   * sphere: image point i is the center moved by rad/25 times the object
   * point's (y, -z).
   */
  lemma {:induction false} CorrespondenceIsScaledProjection(center: Point2, rad: real, opts: PnpOptions, i: nat)
    requires i < 9
    ensures var p := BallPnpProblem(center, rad, opts);
      var k := rad / DefaultBallRadius;
      p.imagePoints[i] == Point2(center.x + k * p.objectPoints[i].y, center.y - k * p.objectPoints[i].z)
  {
    var p := BallPnpProblem(center, rad, opts);
    var k := rad / DefaultBallRadius;
    var o := p.objectPoints[i];
    if i >= 5 {
      assert k * (DefaultBallRadius * Cos45) == rad * Cos45;
    } else {
      assert k * DefaultBallRadius == rad;
    }
  }

  /**
   * Every object point lies on the sphere of radius 25: exactly for the five
   * axis points, up to the rounding of sin(pi/4) and cos(pi/4) for the four
   * diagonal ones.
   */
  lemma {:induction false} ObjectPointsOnSphere(center: Point2, rad: real, opts: PnpOptions, i: nat)
    requires i < 9
    ensures var o := BallPnpProblem(center, rad, opts).objectPoints[i];
      var d := o.x * o.x + o.y * o.y + o.z * o.z;
      (i < 5 ==> d == 625.0) && 624.999999 < d < 625.000001
  {
    var s, c := 25.0 * Sin45, 25.0 * Cos45;
    assert 312.4999999 < s * s < 312.5000001;
    assert 312.4999999 < c * c < 312.5000001;
  }

  /**
   * Finding, as written: passing `ball_radius` changes nothing in the
   * problem handed to the solver.
   */
  lemma BallRadiusOverrideIgnored(center: Point2, rad: real, opts: PnpOptions, R: real)
    ensures BallPnpProblem(center, rad, opts) == BallPnpProblem(center, rad, opts.(ballRadius := Some(R)))
    ensures BallPnpProblem(center, rad, opts).objectPoints[0] == Point3(25.0, 0.0, 0.0)
  {
  }

  /**
   * Finding, corrected: the `ball_radius` override, when passed, sizes the
   * sphere model.
   */
  function BallPnpProblemCorrected(center: Point2, rad: real, opts: PnpOptions): (p: PnpProblem)
    ensures |p.objectPoints| == 9 && |p.imagePoints| == 9
    ensures opts.ballRadius.None? ==> p == BallPnpProblem(center, rad, opts)
    ensures opts.ballRadius.Some? ==> p.objectPoints[0] == Point3(opts.ballRadius.value, 0.0, 0.0)
  {
    var R := if opts.ballRadius.Some? then opts.ballRadius.value else DefaultBallRadius;
    BallPnpProblem(center, rad, opts).(objectPoints := SpherePoints(R))
  }

  /**
   * With the correction, the pairing is the scaled orthographic view of a
   * sphere of the requested radius: image point i is the center moved by
   * rad/R times the object point's (y, -z).
   */
  lemma {:induction false} CorrectedProjectionUsesRequestedRadius(center: Point2, rad: real, R: real, opts: PnpOptions, i: nat)
    requires i < 9 && R > 0.0 && opts.ballRadius == Some(R)
    ensures var p := BallPnpProblemCorrected(center, rad, opts);
      var k := rad / R;
      p.imagePoints[i] == Point2(center.x + k * p.objectPoints[i].y, center.y - k * p.objectPoints[i].z)
  {
    var k := rad / R;
    assert k * R == rad;
    if i >= 5 {
      assert k * (R * Cos45) == rad * Cos45;
    }
  }
}
