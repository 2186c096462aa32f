/** The turn about the y axis that `rotate_y` applies
    (hittable.cpp). A query turns the incoming ray by `-theta` into the
    child's frame; the constructor turns the corners of the child's box by
    `theta`. What the query does with the point and normal the child
    reports is written out component by component, as the code assigns
    them. `s` and `c` are the sine and cosine of `theta`. */
module Rotation {
  import opened Tool

  /** Into the child's frame: the turn the query applies to the ray's
      origin and direction. */
  function Turn(v: Vec3, s: real, c: real): (w: Vec3)
    ensures w.y == v.y
  {
    Vec3(c * v.x - s * v.z, v.y, s * v.x + c * v.z)
  }

  /** Out of the child's frame: the turn the constructor applies to the
      box corners. */
  function TurnBack(v: Vec3, s: real, c: real): (w: Vec3)
    ensures w.y == v.y
  {
    Vec3(c * v.x + s * v.z, v.y, -s * v.x + c * v.z)
  }

  /** For a genuine angle, turning back undoes the turn and the other way
      round. */
  lemma TurnBackUndoesTurn(v: Vec3, s: real, c: real)
    requires s * s + c * c == 1.0
    ensures TurnBack(Turn(v, s, c), s, c) == v
    ensures Turn(TurnBack(v, s, c), s, c) == v
  {
    Undo(s, c, v.x, v.z);
  }

  lemma Undo(s: real, c: real, x: real, z: real)
    requires s * s + c * c == 1.0
    ensures c * (c * x - s * z) + s * (s * x + c * z) == x
    ensures -s * (c * x - s * z) + c * (s * x + c * z) == z
    ensures c * (c * x + s * z) - s * (-s * x + c * z) == x
    ensures s * (c * x + s * z) + c * (-s * x + c * z) == z
  {
    calc {
      c * (c * x - s * z) + s * (s * x + c * z);
      (c * c + s * s) * x;
      x;
    }
    calc {
      -s * (c * x - s * z) + c * (s * x + c * z);
      (s * s + c * c) * z;
      z;
    }
    calc {
      c * (c * x + s * z) - s * (-s * x + c * z);
      (c * c + s * s) * x;
      x;
    }
    calc {
      s * (c * x + s * z) + c * (-s * x + c * z);
      (s * s + c * c) * z;
      z;
    }
  }

  /** The point `rotate_y::hit` stores, as written: the turned z goes into
      the second component and the third keeps the child's value. */
  function AsWrittenPoint(p: Vec3, s: real, c: real): (q: Vec3)
    ensures q.x == TurnBack(p, s, c).x && q.y == TurnBack(p, s, c).z && q.z == p.z
  {
    Vec3(c * p.x + s * p.z, -s * p.x + c * p.z, p.z)
  }

  /** The normal `rotate_y::hit` orients, as written: the first component
      is assigned twice and ends up holding the turned z. */
  function AsWrittenNormal(n: Vec3, s: real, c: real): (q: Vec3)
    ensures q.x == TurnBack(n, s, c).z && q.y == n.y && q.z == n.z
  {
    Vec3(-s * n.x + c * n.z, n.y, n.z)
  }

  /** Even for the turn by zero degrees (`s = 0`, `c = 1`), which leaves
      every vector alone, the query's assignments move the stored point and
      change the normal. */
  lemma AsWrittenMovesAtZeroAngle()
    ensures AsWrittenPoint(Vec3(1.0, 2.0, 3.0), 0.0, 1.0) == Vec3(1.0, 3.0, 3.0)
    ensures AsWrittenNormal(Vec3(1.0, 2.0, 3.0), 0.0, 1.0) == Vec3(3.0, 2.0, 3.0)
    ensures TurnBack(Vec3(1.0, 2.0, 3.0), 0.0, 1.0) == Vec3(1.0, 2.0, 3.0)
  {
  }
}
