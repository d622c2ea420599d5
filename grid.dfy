/**
 * The row-major walks over a square field that lay out the spheres, the
 * brick wall and the two groups of sorted bricks. Each loop keeps a
 * coordinate pair: x moves right by a fixed step, and when it passes the end
 * of the row x goes back to the row's start and y moves up by the same step.
 * The k-th position visited (counting from 0) is therefore column
 * `k % width`, row `k / width` of the field.
 */
module Grid {

  datatype Point = Point(x: int, y: int)

  /** The k-th position of a row-major walk: `width` positions per row, `step` apart. */
  function Cell(x0: int, y0: int, step: nat, width: nat, k: nat): Point
    requires width > 0
  {
    Point(x0 + step * (k % width), y0 + step * (k / width))
  }

  /** A walk with a positive step never visits the same position twice. */
  lemma CellsDistinct(x0: int, y0: int, step: nat, width: nat, i: nat, j: nat)
    requires width > 0 && step > 0
    ensures Cell(x0, y0, step, width, i) == Cell(x0, y0, step, width, j) ==> i == j
  {
    Cancel(step, i % width, j % width);
    Cancel(step, i / width, j / width);
    assert i == width * (i / width) + i % width;
    assert j == width * (j / width) + j % width;
  }

  /** Multiplication by a positive number is injective. */
  lemma Cancel(step: nat, a: int, b: int)
    requires step > 0
    ensures step * a == step * b ==> a == b
  {
    if a < b {
      MulStrict(step, a, b);
    } else if b < a {
      MulStrict(step, b, a);
    }
  }

  /** Multiplication by a positive number is strictly increasing. */
  lemma MulStrict(step: nat, a: int, b: int)
    requires step > 0 && a < b
    ensures step * a < step * b
  {
    assert step * b == step * a + step * (b - a);
  }

  /**
   * One step of a walk loop: move right by `step`, and when x passes `xMax`
   * go back to `x0` on the next row.
   */
  function WalkStep(p: Point, x0: int, xMax: int, step: nat): Point
  {
    if p.x + step > xMax then Point(x0, p.y + step) else Point(p.x + step, p.y)
  }

  /** The sphere field: step 3 from (-31, -31), 21 spheres per row. */
  function SphereCell(k: nat): (p: Point)
    ensures k < 441 ==> -31 <= p.x <= 29 && -31 <= p.y <= 29
    ensures (p.x + 31) % 3 == 0 && (p.y + 31) % 3 == 0
  {
    Cell(-31, -31, 3, 21, k)
  }

  /**
   * The sphere walk is row-major: a later sphere is on a higher row, or on
   * the same row further right.
   */
  lemma SphereRowMajor(i: nat, j: nat)
    requires i < j
    ensures SphereCell(i).y < SphereCell(j).y || (SphereCell(i).y == SphereCell(j).y && SphereCell(i).x < SphereCell(j).x)
  {
  }

  /** The loop's update `x += 3`, wrapping when `x > 31`, moves from sphere k to sphere k + 1. */
  lemma SphereStep(k: nat)
    ensures SphereCell(k + 1) == WalkStep(SphereCell(k), -31, 31, 3)
  {
  }

  /** The sphere loop's test `y <= 31` holds exactly for the first 21 * 21 spheres. */
  lemma SphereRows(k: nat)
    ensures SphereCell(k).y <= 31 <==> k < 441
  {
  }

  /** Every point of the sphere lattice {-31 + 3c | 0 <= c <= 20} squared is visited. */
  lemma SphereFieldCovers(cx: nat, cy: nat)
    requires cx <= 20 && cy <= 20
    ensures 21 * cy + cx < 441 && SphereCell(21 * cy + cx) == Point(-31 + 3 * cx, -31 + 3 * cy)
  {
    var k := 21 * cy + cx;
    assert k % 21 == cx && k / 21 == cy;
  }

  /** The brick wall: step 2 from (-30, -30), 31 bricks per row. */
  function WallCell(k: nat): (p: Point)
    ensures k < 961 ==> -30 <= p.x <= 30 && -30 <= p.y <= 30
    ensures p.x % 2 == 0 && p.y % 2 == 0
  {
    Cell(-30, -30, 2, 31, k)
  }

  /** The loop's update `x += 2`, wrapping when `x > 30`, moves from brick k to brick k + 1. */
  lemma WallStep(k: nat)
    ensures WallCell(k + 1) == WalkStep(WallCell(k), -30, 30, 2)
  {
  }

  /** The k-th position reached by the wall loop, step by step from (-30, -30). */
  function WallWalk(k: nat): Point
  {
    if k == 0 then Point(-30, -30) else WalkStep(WallWalk(k - 1), -30, 30, 2)
  }

  /** Walking brick by brick reaches the row-major cell. */
  lemma {:induction false} WallWalkIsCell(k: nat)
    ensures WallWalk(k) == WallCell(k)
  {
    if k > 0 {
      WallWalkIsCell(k - 1);
      WallStep(k - 1);
    }
  }

  /** The wall loop's test `y <= 30`, on the walk: it holds exactly for the first 31 * 31 bricks. */
  lemma WallWalkRows(k: nat)
    ensures WallWalk(k).y <= 30 <==> k < 961
  {
    WallWalkIsCell(k);
    WallRows(k);
  }

  /** The wall loop's test `y <= 30` holds exactly for the first 31 * 31 bricks. */
  lemma WallRows(k: nat)
    ensures WallCell(k).y <= 30 <==> k < 961
  {
  }

  /** Every point of the wall lattice {-30 + 2c | 0 <= c <= 30} squared is visited. */
  lemma WallCovers(cx: nat, cy: nat)
    requires cx <= 30 && cy <= 30
    ensures 31 * cy + cx < 961 && WallCell(31 * cy + cx) == Point(-30 + 2 * cx, -30 + 2 * cy)
  {
    var k := 31 * cy + cx;
    assert k % 31 == cx && k / 31 == cy;
  }

  /** Target of the k-th lighter brick when sorting: left half, 15 per row, wrapping when x >= 0. */
  function LighterTarget(k: nat): (p: Point)
    ensures -30 <= p.x <= -2 && p.y >= -30
  {
    Cell(-30, -30, 2, 15, k)
  }

  /** The loop's update `x += 2`, wrapping when `x >= 0`, moves from target k to target k + 1. */
  lemma LighterStep(k: nat)
    ensures LighterTarget(k + 1) == WalkStep(LighterTarget(k), -30, -1, 2)
  {
  }

  /** Target of the k-th normal brick when sorting: right half, 16 per row, wrapping when x > 30. */
  function NormalTarget(k: nat): (p: Point)
    ensures 0 <= p.x <= 30 && p.y >= -30
  {
    Cell(0, -30, 2, 16, k)
  }

  /** The loop's update `x += 2`, wrapping when `x > 30`, moves from target k to target k + 1. */
  lemma NormalStep(k: nat)
    ensures NormalTarget(k + 1) == WalkStep(NormalTarget(k), 0, 30, 2)
  {
  }

  /** Two different lighter bricks are sent to different places, and so are two normal bricks. */
  lemma SortedTargetsDistinct(i: nat, j: nat)
    requires i != j
    ensures LighterTarget(i) != LighterTarget(j)
    ensures NormalTarget(i) != NormalTarget(j)
  {
    CellsDistinct(-30, -30, 2, 15, i, j);
    CellsDistinct(0, -30, 2, 16, i, j);
  }

  /** Two different spheres, and two different wall bricks, are at different places. */
  lemma FieldCellsDistinct(i: nat, j: nat)
    requires i != j
    ensures SphereCell(i) != SphereCell(j)
    ensures WallCell(i) != WallCell(j)
  {
    CellsDistinct(-31, -31, 3, 21, i, j);
    CellsDistinct(-30, -30, 2, 31, i, j);
  }

  /** The two sorted groups land on disjoint halves of the field. */
  lemma SortedHalvesDisjoint(i: nat, j: nat)
    ensures LighterTarget(i) != NormalTarget(j)
    ensures LighterTarget(i).x < 0 <= NormalTarget(j).x
  {
  }
}
