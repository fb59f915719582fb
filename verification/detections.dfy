/**
 * What the opaque object detector hands back, and the geometry both
 * `detect_ball` functions derive from one box: its larger side, the
 * truncated radius and the truncated center. Python's `int()` on a
 * number truncates toward zero; `Trunc` writes that out.
 */
module Detections {

  datatype Option<T> = None | Some(value: T)

  /** One row of the detector's `xyxy` table: corners, confidence, class. */
  datatype Box = Box(x1: real, y1: real, x2: real, y2: real, conf: real, cls: real)

  /** Calling the detector either yields its boxes in its own order, or raises. */
  datatype Inference = Boxes(boxes: seq<Box>) | Raised(message: string)

  function Max(a: real, b: real): (m: real)
    ensures m >= a && m >= b && (m == a || m == b)
  {
    if a >= b then a else b
  }

  /** Python's `int(x)` for a number: drop the fraction, toward zero. */
  function Trunc(x: real): (n: int)
    ensures x >= 0.0 ==> 0 <= n && n as real <= x < n as real + 1.0
    ensures x < 0.0 ==> n <= 0 && x <= n as real < x + 1.0
  {
    if x >= 0.0 then x.Floor else -((-x).Floor)
  }

  /** The larger of the box's width and height. */
  function Extent(b: Box): real
  {
    Max(b.x2 - b.x1, b.y2 - b.y1)
  }

  /** `int(0.5 * max(x2 - x1, y2 - y1))`: half the larger side, truncated. */
  function Radius(b: Box): (r: int)
    ensures Extent(b) >= 0.0 ==> 0 <= r && 2.0 * r as real <= Extent(b) < 2.0 * r as real + 2.0
    ensures Extent(b) < 0.0 ==> r <= 0
  {
    Trunc(0.5 * Extent(b))
  }

  /** `(int((x1 + x2) / 2), int((y1 + y2) / 2))`: the truncated midpoint. */
  function Center(b: Box): (c: (int, int))
    ensures 0.0 <= b.x1 <= b.x2 ==> b.x1 < c.0 as real + 1.0 && c.0 as real <= b.x2
    ensures 0.0 <= b.y1 <= b.y2 ==> b.y1 < c.1 as real + 1.0 && c.1 as real <= b.y2
  {
    (Trunc((b.x1 + b.x2) / 2.0), Trunc((b.y1 + b.y2) / 2.0))
  }

  /** A strict lower bound on the radius is a bound on the larger side. */
  lemma RadiusAbove(b: Box, m: nat)
    ensures Radius(b) > m <==> Extent(b) >= 2.0 * (m as real + 1.0)
  {
    var e := Extent(b);
    var r := Radius(b);
    if e >= 0.0 {
      if r > m {
        assert r as real >= m as real + 1.0;
      } else {
        assert e < 2.0 * r as real + 2.0 <= 2.0 * m as real + 2.0;
      }
    }
  }

  /** A strict upper bound on the radius is a bound on the larger side. */
  lemma RadiusBelow(b: Box, m: nat)
    requires m > 0
    ensures Radius(b) < m <==> Extent(b) < 2.0 * m as real
  {
    var e := Extent(b);
    var r := Radius(b);
    if e >= 0.0 {
      if r < m {
        assert r as real + 1.0 <= m as real;
      } else {
        assert 2.0 * m as real <= 2.0 * r as real <= e;
      }
    }
  }
}
