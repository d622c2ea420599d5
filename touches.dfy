/**
 * The decision made by `touchesBegan`: which of its branches a tap on a
 * node selects. The chain is tried in order: the var box, then a metal
 * sphere or the let box, then a wooden sphere, then a brick, and last a name
 * of the form "app-..." (the name split on "-" into more than one piece, the
 * first of them "app"). The branches' sounds and particle effects are
 * represented by the action that names them.
 */
module Touches {
  import opened Nodes
  import opened Names

  datatype Action =
    | ChangeVarColor  // varBox.changeImage(), "positive" sound, bokeh particles
    | Negative        // "negative" sound
    | Explode         // explodeSphere(hitNode), "explosion" sound
    | BrickDust       // dust particles at the brick
    | AppEffect       // apps and bokeh particles, "positive" sound
    | NoAction

  /** `name` is one of the three names the chain tests literally. */
  predicate IsKnownName(name: string)
  {
    name == DefaultSphereName || name == ExplodingSphereName || name == BrickName
  }

  /**
   * The branch of `touchesBegan` taken for a hit node. `isVarBox` and
   * `isLetBox` are the identity tests `hitNode == self.varBoxNode` and
   * `hitNode == self.letBoxNode`; `name` is the node's optional name.
   */
  function TapAction(isVarBox: bool, isLetBox: bool, name: Option<string>): (action: Action)
    ensures action == ChangeVarColor <==> isVarBox
    ensures action == Negative <==> !isVarBox && (isLetBox || name == Some(DefaultSphereName))
    ensures action == Explode <==> !isVarBox && !isLetBox && name == Some(ExplodingSphereName)
    ensures action == BrickDust <==> !isVarBox && !isLetBox && name == Some(BrickName)
    ensures action == AppEffect <==> !isVarBox && !isLetBox && name.Some? && HasPrefix(name.value, "app-")
  {
    if isVarBox then ChangeVarColor
    else if name == Some(DefaultSphereName) || isLetBox then Negative
    else if name == Some(ExplodingSphereName) then
      assert ExplodingSphereName[..4] != "app-" by { assert ExplodingSphereName[0] == 'e'; }
      Explode
    else if name == Some(BrickName) then BrickDust
    else if name.Some? then
      var hitNodeNameArr := Split(name.value, '-');
      SplitHeadIffPrefix(name.value, '-', "app");
      if |hitNodeNameArr| > 1 && hitNodeNameArr[0] == "app" then AppEffect else NoAction
    else NoAction
  }

  /**
   * A tap on a node that is neither box selects nothing when its name is
   * missing, or is not one of the three literal names and splits on "-" into
   * a single piece, that is, contains no "-", "" included.
   */
  lemma {:induction false} NoDashNoAction(name: Option<string>)
    requires name.None? || (!IsKnownName(name.value) && |Split(name.value, '-')| == 1)
    ensures TapAction(false, false, name) == NoAction
  {
    if name.Some? {
      var s := name.value;
      if HasPrefix(s, "app-") {
        assert s[3] == '-';
        OccurrencesZero(s, '-');
      }
    }
  }

  /** A sphere that `explodeSphere` has acted on (its name is now "") cannot fire again. */
  lemma ExplodedSphereIsInert(n: Node)
    ensures TapAction(false, false, Exploded(n).name) == NoAction
  {
    NoDashNoAction(Exploded(n).name);
  }

  /** The name "app-k" of the k-th app box (`"app-\(counter)"`). */
  function AppName(k: nat): (s: string)
    ensures HasPrefix(s, "app-")
  {
    "app-" + NatToString(k)
  }

  /** The decimal digits of `k`, as Swift's string interpolation writes them. */
  function NatToString(k: nat): (s: string)
    ensures |s| >= 1
    ensures forall i :: 0 <= i < |s| ==> '0' <= s[i] <= '9'
  {
    if k < 10 then [Digit(k)] else NatToString(k / 10) + [Digit(k % 10)]
  }

  function Digit(d: nat): (c: char)
    requires d < 10
    ensures '0' <= c <= '9'
  {
    ['0', '1', '2', '3', '4', '5', '6', '7', '8', '9'][d]
  }

  /** Every app box of the post-scriptum scene reacts to a tap with the app effect. */
  lemma AppBoxesReact(k: nat)
    ensures TapAction(false, false, Some(AppName(k))) == AppEffect
  {
  }
}
