/**
 * The automatic explosions of the sphere scene. After shuffling, the script
 * walks `objArray` and gives each wooden sphere, in that order, its own
 * explosion timer, 0.08 s after the previous one. Each timer calls
 * `explodeSphere`, which acts only while `canExplode` is on. A later timer
 * switches `canExplode` off, so only the first `fired` timers of the
 * cascade explode anything, and the wooden spheres after them stay.
 */
module Explosions {
  import opened Nodes

  /** `n` is a wooden sphere: the walk schedules an explosion for it. */
  predicate IsWooden(n: Node)
  {
    n.name == Some(ExplodingSphereName)
  }

  /** The number of wooden spheres in `s`. */
  function WoodenCount(s: seq<Node>): (c: nat)
    ensures c <= |s|
  {
    if |s| == 0 then 0 else WoodenCount(s[..|s| - 1]) + (if IsWooden(s[|s| - 1]) then 1 else 0)
  }

  /**
   * `s` after the cascade: each wooden sphere explodes when explosions are
   * on and fewer than `fired` wooden spheres come before it.
   */
  function Cascade(canExplode: bool, fired: nat, s: seq<Node>): (r: seq<Node>)
    ensures |r| == |s|
  {
    if |s| == 0 then []
    else
      var front := s[..|s| - 1];
      var last := s[|s| - 1];
      Cascade(canExplode, fired, front)
        + [if canExplode && IsWooden(last) && WoodenCount(front) < fired then Exploded(last) else last]
  }

  /**
   * What the cascade does to the i-th node of `s`: it is exploded exactly
   * when it is wooden, explosions are on and its rank among the wooden
   * spheres is below `fired`; any other node is left as it was.
   */
  function Outcome(canExplode: bool, fired: nat, s: seq<Node>, i: nat): Node
    requires i < |s|
  {
    if canExplode && IsWooden(s[i]) && WoodenCount(s[..i]) < fired then Exploded(s[i]) else s[i]
  }

  /** The cascade, element by element, is the outcome of each node. */
  lemma {:induction false} CascadeAt(canExplode: bool, fired: nat, s: seq<Node>)
    ensures forall i :: 0 <= i < |s| ==> Cascade(canExplode, fired, s)[i] == Outcome(canExplode, fired, s, i)
  {
    if |s| > 0 {
      var front := s[..|s| - 1];
      CascadeAt(canExplode, fired, front);
      forall i | 0 <= i < |front| ensures front[..i] == s[..i] {
      }
    }
  }

  /** One more element seen by the walk adds one to its wooden count exactly when it is wooden. */
  lemma WoodenStep(s: seq<Node>, i: nat)
    requires i < |s|
    ensures WoodenCount(s[..i + 1]) == WoodenCount(s[..i]) + if IsWooden(s[i]) then 1 else 0
  {
    assert s[..i + 1][..i] == s[..i];
  }

  /** Appending a node adds one to the count exactly when it is wooden. */
  lemma WoodenCountAppend(s: seq<Node>, n: Node)
    ensures WoodenCount(s + [n]) == WoodenCount(s) + if IsWooden(n) then 1 else 0
  {
    assert (s + [n])[..|s|] == s;
  }

  /**
   * How many wooden spheres the cascade leaves: all of them when explosions
   * are off, otherwise all but the first `fired`.
   */
  lemma {:induction false} WoodenLeft(canExplode: bool, fired: nat, s: seq<Node>)
    ensures WoodenCount(Cascade(canExplode, fired, s)) ==
      if canExplode && fired < WoodenCount(s) then WoodenCount(s) - fired
      else if canExplode then 0
      else WoodenCount(s)
  {
    if |s| > 0 {
      var front := s[..|s| - 1];
      var last := s[|s| - 1];
      WoodenLeft(canExplode, fired, front);
      var y := if canExplode && IsWooden(last) && WoodenCount(front) < fired then Exploded(last) else last;
      WoodenCountAppend(Cascade(canExplode, fired, front), y);
    }
  }

  /** With enough timers before the switch-off, no wooden sphere is left. */
  lemma CascadeClearsAll(fired: nat, s: seq<Node>)
    requires WoodenCount(s) <= fired
    ensures forall i :: 0 <= i < |s| ==> !IsWooden(Cascade(true, fired, s)[i])
  {
    CascadeAt(true, fired, s);
    forall i | 0 <= i < |s| ensures !IsWooden(Cascade(true, fired, s)[i]) {
      WoodenPrefix(s, i);
    }
  }

  /** A wooden sphere at position i has fewer than `WoodenCount(s)` wooden spheres before it. */
  lemma {:induction false} WoodenPrefix(s: seq<Node>, i: nat)
    requires i < |s|
    ensures IsWooden(s[i]) ==> WoodenCount(s[..i]) < WoodenCount(s)
    ensures WoodenCount(s[..i]) <= WoodenCount(s)
  {
    if i < |s| - 1 {
      var front := s[..|s| - 1];
      WoodenPrefix(front, i);
      assert front[..i] == s[..i];
    } else {
      assert s[..i] == s[..|s| - 1];
    }
  }

  /**
   * The script's timing, in hundredths of a second: the cascade starts at
   * 62.5 s (timers of 45.5, 12 and 5 s), timer j fires 0.08 s * j later,
   * and `canExplode` goes off at 75.8 s (timers of 45.5, 21, 8 and 1.3 s).
   */
  const CascadeStart := 6250
  const CascadeInterval := 8
  const SwitchOff := 7580

  /** The number of explosion timers that fire while explosions are still on. */
  const ExplosionsBeforeSwitchOff := 167

  /** Timer j of the cascade fires before the switch-off exactly when j < 167. */
  lemma BeforeSwitchOff(j: nat)
    ensures CascadeStart + CascadeInterval * j < SwitchOff <==> j < ExplosionsBeforeSwitchOff
  {
  }
}
