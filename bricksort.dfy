/**
 * The brick "sorting" step: the bricks at even positions of `objArray` are
 * recoloured and collected in `lighterBricks`, those at odd positions in
 * `normalBricks`; then each group is walked over its own half of the field
 * to compute where its bricks move to.
 */
module BrickSort {
  import opened Nodes
  import opened Grid

  /** The elements at even positions 0, 2, 4, ... of `s`, in order. */
  function Evens<T>(s: seq<T>): (r: seq<T>)
    ensures |r| == (|s| + 1) / 2
    ensures forall k :: 0 <= k < |r| ==> r[k] == s[2 * k]
  {
    if |s| == 0 then [] else if |s| == 1 then [s[0]] else [s[0]] + Evens(s[2..])
  }

  /** The elements at odd positions 1, 3, 5, ... of `s`, in order. */
  function Odds<T>(s: seq<T>): (r: seq<T>)
    ensures |r| == |s| / 2
    ensures forall k :: 0 <= k < |r| ==> r[k] == s[2 * k + 1]
  {
    if |s| <= 1 then [] else [s[1]] + Odds(s[2..])
  }

  /** Alternately one element of `first` and one of `second`, starting with `first`. */
  function Interleave<T>(first: seq<T>, second: seq<T>): seq<T>
    requires |second| <= |first| <= |second| + 1
    decreases |first| + |second|
  {
    if |first| == 0 then [] else [first[0]] + Interleave(second, first[1..])
  }

  /** Taking the two halves apart loses nothing: interleaving them gives the sequence back. */
  lemma {:induction false} InterleaveEvensOdds<T>(s: seq<T>)
    ensures Interleave(Evens(s), Odds(s)) == s
  {
    if |s| >= 2 {
      InterleaveEvensOdds(s[2..]);
      var e, o := Evens(s), Odds(s);
      assert e[1..] == Evens(s[2..]);
      assert o[1..] == Odds(s[2..]);
      assert Interleave(o, e[1..]) == [s[1]] + Interleave(e[1..], o[1..]);
      assert s == [s[0]] + [s[1]] + s[2..];
    } else if |s| == 1 {
      assert Interleave(Evens(s), Odds(s)) == [s[0]] + Interleave(Odds(s), []);
    }
  }

  /** Every element of `s` ends up in exactly one of the two halves. */
  lemma {:induction false} EvensOddsPartition<T>(s: seq<T>)
    ensures multiset(Evens(s)) + multiset(Odds(s)) == multiset(s)
  {
    if |s| >= 2 {
      var rest := s[2..];
      EvensOddsPartition(rest);
      HeadsAndRest(s);
      assert Evens(s) == [s[0]] + Evens(rest);
      assert Odds(s) == [s[1]] + Odds(rest);
    }
  }

  /** The multiset of a sequence of two or more splits off its first two elements. */
  lemma HeadsAndRest<T>(s: seq<T>)
    requires |s| >= 2
    ensures multiset(s) == multiset{s[0]} + multiset{s[1]} + multiset(s[2..])
  {
    assert s == [s[0]] + ([s[1]] + s[2..]);
  }

  /**
   * The partition loop: even-indexed bricks are recoloured with
   * `changeColor` and go to `lighterBricks`, odd-indexed ones go unchanged
   * to `normalBricks`, both in their order in `objArray`.
   */
  method PartitionBricks(objArray: seq<Node>) returns (lighterBricks: seq<Node>, normalBricks: seq<Node>)
    ensures |lighterBricks| == (|objArray| + 1) / 2 && |normalBricks| == |objArray| / 2
    ensures forall k :: 0 <= k < |lighterBricks| ==> lighterBricks[k] == ChangeColor(Evens(objArray)[k])
    ensures normalBricks == Odds(objArray)
  {
    var counter := 0;
    normalBricks := [];
    lighterBricks := [];
    while counter < |objArray|
      invariant 0 <= counter <= |objArray|
      invariant |lighterBricks| == (counter + 1) / 2 && |normalBricks| == counter / 2
      invariant forall k :: 0 <= k < |lighterBricks| ==> lighterBricks[k] == ChangeColor(objArray[2 * k])
      invariant forall k :: 0 <= k < |normalBricks| ==> normalBricks[k] == objArray[2 * k + 1]
    {
      if counter % 2 == 0 {
        var current := ChangeColor(objArray[counter]);
        lighterBricks := lighterBricks + [current];
      } else {
        normalBricks := normalBricks + [objArray[counter]];
      }
      counter := counter + 1;
    }
  }

  /**
   * "Sorting lighter bricks": the k-th lighter brick is sent to the k-th
   * position of a walk from (-30, -30) in steps of 2 that wraps as soon as
   * x reaches 0. Every target is on the left half and no two coincide.
   */
  method LayoutLighterBricks(lighterBricks: seq<Node>) returns (targets: seq<Point>)
    ensures |targets| == |lighterBricks|
    ensures forall k :: 0 <= k < |targets| ==> targets[k] == LighterTarget(k)
    ensures forall k :: 0 <= k < |targets| ==> -30 <= targets[k].x <= -2
    ensures forall i, j :: 0 <= i < j < |targets| ==> targets[i] != targets[j]
  {
    var fieldArea := 30;
    var coordinates := [-fieldArea, -fieldArea];
    var counter := 0;
    targets := [];
    while counter < |lighterBricks|
      invariant counter <= |lighterBricks| && |targets| == counter
      invariant |coordinates| == 2 && Point(coordinates[0], coordinates[1]) == LighterTarget(counter)
      invariant forall k :: 0 <= k < counter ==> targets[k] == LighterTarget(k)
    {
      targets := targets + [Point(coordinates[0], coordinates[1])];
      coordinates := coordinates[0 := coordinates[0] + 2];
      if coordinates[0] >= 0 {
        coordinates := coordinates[0 := -fieldArea][1 := coordinates[1] + 2];
      }
      LighterStep(counter);
      counter := counter + 1;
    }
    forall i, j | 0 <= i < j < |targets| ensures targets[i] != targets[j] {
      SortedTargetsDistinct(i, j);
    }
  }

  /**
   * "Sorting normal bricks": the k-th normal brick is sent to the k-th
   * position of a walk from (0, -30) in steps of 2 that wraps when x passes
   * 30. Every target is on the right half and no two coincide.
   */
  method LayoutNormalBricks(normalBricks: seq<Node>) returns (targets: seq<Point>)
    ensures |targets| == |normalBricks|
    ensures forall k :: 0 <= k < |targets| ==> targets[k] == NormalTarget(k)
    ensures forall k :: 0 <= k < |targets| ==> 0 <= targets[k].x <= 30
    ensures forall i, j :: 0 <= i < j < |targets| ==> targets[i] != targets[j]
  {
    var fieldArea := 30;
    var coordinates := [0, -fieldArea];
    var counter := 0;
    targets := [];
    while counter < |normalBricks|
      invariant counter <= |normalBricks| && |targets| == counter
      invariant |coordinates| == 2 && Point(coordinates[0], coordinates[1]) == NormalTarget(counter)
      invariant forall k :: 0 <= k < counter ==> targets[k] == NormalTarget(k)
    {
      targets := targets + [Point(coordinates[0], coordinates[1])];
      coordinates := coordinates[0 := coordinates[0] + 2];
      if coordinates[0] > fieldArea {
        coordinates := coordinates[0 := 0][1 := coordinates[1] + 2];
      }
      NormalStep(counter);
      counter := counter + 1;
    }
    forall i, j | 0 <= i < j < |targets| ensures targets[i] != targets[j] {
      SortedTargetsDistinct(i, j);
    }
  }

  /** The node moved to `p` in the plane. */
  function MovedTo(n: Node, p: Point): Node
  {
    n.(x := p.x, y := p.y)
  }

  /**
   * The whole sorting step on the wall: brick i ends up recoloured at the
   * (i / 2)-th lighter target when i is even, and unchanged at the (i / 2)-th
   * normal target when i is odd. Names are kept, the even bricks end up on
   * the left half and the odd ones on the right, and no two bricks share a
   * place.
   */
  method SortedBricks(objArray: seq<Node>) returns (sorted: seq<Node>)
    ensures |sorted| == |objArray|
    ensures forall i :: 0 <= i < |sorted| && i % 2 == 0 ==>
      sorted[i] == MovedTo(ChangeColor(objArray[i]), LighterTarget(i / 2))
    ensures forall i :: 0 <= i < |sorted| && i % 2 == 1 ==>
      sorted[i] == MovedTo(objArray[i], NormalTarget(i / 2))
    ensures forall i :: 0 <= i < |sorted| ==> sorted[i].name == objArray[i].name
    ensures forall i :: 0 <= i < |sorted| ==> (sorted[i].x < 0 <==> i % 2 == 0)
    ensures forall i, j :: 0 <= i < j < |sorted| ==> Point(sorted[i].x, sorted[i].y) != Point(sorted[j].x, sorted[j].y)
  {
    var lighterBricks, normalBricks := PartitionBricks(objArray);
    var lighterTargets := LayoutLighterBricks(lighterBricks);
    var normalTargets := LayoutNormalBricks(normalBricks);
    var n := |objArray|;
    sorted := seq(n, i requires 0 <= i < n =>
      if i % 2 == 0 then MovedTo(lighterBricks[i / 2], lighterTargets[i / 2])
      else MovedTo(normalBricks[i / 2], normalTargets[i / 2]));
    forall i | 0 <= i < n && i % 2 == 0
      ensures sorted[i] == MovedTo(ChangeColor(objArray[i]), LighterTarget(i / 2))
    {
      assert 2 * (i / 2) == i;
    }
    forall i | 0 <= i < n && i % 2 == 1
      ensures sorted[i] == MovedTo(objArray[i], NormalTarget(i / 2))
    {
      assert 2 * (i / 2) + 1 == i;
    }
    SortedLayout(objArray, sorted);
  }

  /**
   * What the sorting step guarantees about any arrangement that places brick
   * i at the (i / 2)-th target of its parity: names are kept, the parity of
   * a brick's index decides its half of the field, and no two bricks share
   * a place.
   */
  lemma SortedLayout(objArray: seq<Node>, sorted: seq<Node>)
    requires |sorted| == |objArray|
    requires forall i :: 0 <= i < |sorted| && i % 2 == 0 ==>
      sorted[i] == MovedTo(ChangeColor(objArray[i]), LighterTarget(i / 2))
    requires forall i :: 0 <= i < |sorted| && i % 2 == 1 ==>
      sorted[i] == MovedTo(objArray[i], NormalTarget(i / 2))
    ensures forall i :: 0 <= i < |sorted| ==> sorted[i].name == objArray[i].name
    ensures forall i :: 0 <= i < |sorted| ==> (sorted[i].x < 0 <==> i % 2 == 0)
    ensures forall i, j :: 0 <= i < j < |sorted| ==> Point(sorted[i].x, sorted[i].y) != Point(sorted[j].x, sorted[j].y)
  {
    forall i, j | 0 <= i < j < |sorted|
      ensures Point(sorted[i].x, sorted[i].y) != Point(sorted[j].x, sorted[j].y)
    {
      if i % 2 == j % 2 {
        SortedTargetsDistinct(i / 2, j / 2);
      } else {
        SortedHalvesDisjoint(i / 2, j / 2);
      }
    }
  }
}
