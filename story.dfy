/**
 * `StoryScene`: the playground's main view, reduced to the state its timed
 * steps and its tap handler read and write: the list `objArray` of the
 * current scene's props, the `canExplode` and `canBuild` switches and the
 * var box. Each timer callback of the scenario that touches this state is a
 * method here, run as one sequential step.
 */
module Story {
  import opened Nodes
  import opened Grid
  import opened Touches
  import opened Boxes
  import Shuffle
  import opened Explosions
  import BrickSort

  /** What the hit test of a tap returned. */
  datatype Hit =
    | NoHit                  // no touch, or nothing under it
    | VarBoxHit              // the var box
    | LetBoxHit              // the let box
    | ObjectHit(index: nat)  // the prop `objArray[index]`
    | UnnamedHit             // any other node: the Earth, the clouds, lights, particle nodes; none has a name

  /** A fresh `SCNNode` or `Brick` with the given texture: no name, at the origin, not in the scene. */
  function NewNode(texture: string): Node
  {
    Node(None, texture, 0, 0, false)
  }

  /** A node that was never named, such as the origin brick of the wall, selects nothing when tapped. */
  lemma UnnamedNodeIsInert(texture: string)
    ensures TapAction(false, false, NewNode(texture).name) == NoAction
  {
    NoDashNoAction(NewNode(texture).name);
  }

  /** A sphere of the field: metal and named "defaultSphere", or wooden and named "explodingSphere". */
  predicate IsFieldSphere(n: Node, p: Point)
  {
    && n.x == p.x && n.y == p.y && n.inScene
    && ((n.name == Some(DefaultSphereName) && n.texture == "metal.jpg")
        || (n.name == Some(ExplodingSphereName) && n.texture == "wood.jpg"))
  }

  /** A brick of the wall, named "brick", placed but not yet shown. */
  function WallBrick(p: Point): Node
  {
    Node(Some(BrickName), "brick.jpg", p.x, p.y, false)
  }

  /** Where the app boxes of the post-scriptum scene stand. */
  const AppBoxPositions: seq<Point> := [Point(-4, -2), Point(0, -2), Point(4, -2), Point(-2, 2), Point(2, 2)]

  /** The k-th app box: texture "app<k>.png", name "app-<k>", shown. */
  function AppBox(k: nat): Node
    requires k < |AppBoxPositions|
  {
    Node(Some(AppName(k)), "app" + NatToString(k) + ".png", AppBoxPositions[k].x, AppBoxPositions[k].y, true)
  }

  class StoryScene {
    const varBoxNode: VarBox
    var objArray: seq<Node>
    var canExplode: bool
    var canBuild: bool

    ghost predicate Valid()
      reads this, varBoxNode
    {
      varBoxNode.Valid()
    }

    constructor ()
      ensures Valid() && fresh(varBoxNode)
      ensures varBoxNode.currentColor == 0
      ensures objArray == [] && canExplode && canBuild
    {
      varBoxNode := new VarBox();
      objArray := [];
      canExplode := true;
      canBuild := true;
    }

    /** The name of the hit node; the boxes and the untracked nodes have none. */
    function HitName(hit: Hit): Option<string>
      reads this
      requires hit.ObjectHit? ==> hit.index < |objArray|
    {
      if hit.ObjectHit? then objArray[hit.index].name else None
    }

    /**
     * `touchesBegan`: nothing happens without a hit; otherwise the branch
     * chosen by `TapAction` runs. Only two branches change state: the var
     * box advances its colour, and a wooden sphere is exploded. The hit
     * test searches the scene's root node only, so a hit prop is in the
     * scene.
     */
    method TouchesBegan(hit: Hit) returns (action: Action)
      requires Valid()
      requires hit.ObjectHit? ==> hit.index < |objArray| && objArray[hit.index].inScene
      modifies this, varBoxNode
      ensures Valid()
      ensures action == if hit.NoHit? then NoAction else TapAction(hit.VarBoxHit?, hit.LetBoxHit?, old(HitName(hit)))
      ensures action == ChangeVarColor ==> varBoxNode.currentColor == NextColor(old(varBoxNode.currentColor), ColorCount)
      ensures action != ChangeVarColor ==> varBoxNode.currentColor == old(varBoxNode.currentColor)
      ensures action != ChangeVarColor ==> varBoxNode.texture == old(varBoxNode.texture)
      ensures objArray == if hit.ObjectHit? && action == Explode && canExplode
                          then old(objArray)[hit.index := Exploded(old(objArray)[hit.index])]
                          else old(objArray)
      ensures canExplode == old(canExplode) && canBuild == old(canBuild)
    {
      if hit.NoHit? {
        return NoAction;
      }
      action := TapAction(hit.VarBoxHit?, hit.LetBoxHit?, HitName(hit));
      if action == ChangeVarColor {
        varBoxNode.ChangeImage();
      } else if action == Explode {
        ExplodeSphere(hit.index);
      }
    }

    /** `explodeSphere`: when explosions are on, the node loses its name and leaves the scene. */
    method ExplodeSphere(index: nat)
      requires index < |objArray|
      modifies this
      ensures objArray == if canExplode then old(objArray)[index := Exploded(old(objArray)[index])] else old(objArray)
      ensures canExplode == old(canExplode) && canBuild == old(canBuild)
    {
      if canExplode {
        var hitNode := objArray[index];
        hitNode := hitNode.(name := Some(""));
        hitNode := hitNode.(inScene := false);
        objArray := objArray[index := hitNode];
      }
    }

    /**
     * The sphere field: a 21 by 21 grid of spheres on {-31 + 3k | 0 <= k <= 20},
     * each metal or, by a coin toss, wooden, all shown. The loop names
     * `objArray[counter]` right after appending, so it expects `objArray` to
     * start empty, as it is when this step runs.
     */
    method BuildSphereField()
      requires Valid() && objArray == []
      modifies this
      ensures Valid()
      ensures |objArray| == 441
      ensures forall i :: 0 <= i < |objArray| ==> IsFieldSphere(objArray[i], SphereCell(i))
      ensures canExplode == old(canExplode) && canBuild == old(canBuild)
    {
      var fieldArea := 31;
      var coordinates := [-fieldArea, -fieldArea];
      var counter := 0;
      while coordinates[1] <= fieldArea
        invariant |coordinates| == 2
        invariant counter == |objArray| <= 441
        invariant Point(coordinates[0], coordinates[1]) == SphereCell(counter)
        invariant forall i :: 0 <= i < counter ==> IsFieldSphere(objArray[i], SphereCell(i))
        invariant canExplode == old(canExplode) && canBuild == old(canBuild)
        decreases 441 - counter
      {
        SphereRows(counter);
        var chance: int :| 1 <= chance <= 2;
        ghost var before := objArray;
        objArray := objArray + [NewNode("metal.jpg")];
        var sphere := objArray[counter].(name := Some(DefaultSphereName));
        if chance == 1 {
          sphere := NewNode("wood.jpg");
          sphere := sphere.(name := Some(ExplodingSphereName));
        }
        sphere := sphere.(x := coordinates[0], y := coordinates[1]);
        sphere := sphere.(inScene := true);
        objArray := objArray[counter := sphere];
        assert IsFieldSphere(sphere, SphereCell(counter));
        assert objArray == before + [sphere];
        coordinates := coordinates[0 := coordinates[0] + 3];
        if coordinates[0] > fieldArea {
          coordinates := coordinates[0 := -fieldArea][1 := coordinates[1] + 3];
        }
        SphereStep(counter);
        counter := counter + 1;
      }
      SphereRows(counter);
    }

    /**
     * The automatic explosions: `objArray` is shuffled, and then each wooden
     * sphere in it, in the new order, gets an explosion timer. The timers
     * fire one after another, and only the first `fired` of them come before
     * explosions are switched off; each of those passes its sphere to
     * `explodeSphere`. So the wooden spheres of rank below `fired` explode
     * when explosions are on, and every other node is left as it was.
     */
    method AutoExplode(fired: nat) returns (ghost order: seq<nat>)
      requires Valid()
      modifies this
      ensures Valid()
      ensures |objArray| == |old(objArray)| && Shuffle.IsIndexPermutation(order, |objArray|)
      ensures objArray == Cascade(canExplode, fired, Shuffle.Pick(old(objArray), order))
      ensures canExplode == old(canExplode) && canBuild == old(canBuild)
    {
      var shuffled;
      shuffled, order := Shuffle.Shuffled(objArray);
      assert shuffled == Shuffle.Pick(objArray, order);
      objArray := shuffled;
      ExplosionCascade(fired);
    }

    /**
     * The walk over `objArray` that schedules the explosions: the j-th
     * wooden sphere met gets the j-th timer, and the timer explodes it when
     * j < `fired`, that is, when it fires before explosions go off.
     */
    method ExplosionCascade(fired: nat)
      requires Valid()
      modifies this
      ensures Valid()
      ensures objArray == Cascade(canExplode, fired, old(objArray))
      ensures canExplode == old(canExplode) && canBuild == old(canBuild)
    {
      ghost var start := objArray;
      var scheduled := 0;
      var i := 0;
      while i < |objArray|
        invariant i <= |objArray| == |start|
        invariant scheduled == WoodenCount(start[..i])
        invariant forall k :: 0 <= k < i ==> objArray[k] == Outcome(canExplode, fired, start, k)
        invariant forall k :: i <= k < |objArray| ==> objArray[k] == start[k]
        invariant canExplode == old(canExplode) && canBuild == old(canBuild)
      {
        ghost var before := objArray;
        WoodenStep(start, i);
        if objArray[i].name == Some(ExplodingSphereName) {
          if scheduled < fired {
            ExplodeSphere(i);
          }
          scheduled := scheduled + 1;
        }
        assert objArray[i] == Outcome(canExplode, fired, start, i);
        assert forall k :: 0 <= k < |objArray| && k != i ==> objArray[k] == before[k];
        i := i + 1;
      }
      CascadeAt(canExplode, fired, start);
    }

    /** End of the sphere scene: explosions are switched off. */
    method DisableExplosions()
      requires Valid()
      modifies this
      ensures Valid()
      ensures !canExplode && canBuild == old(canBuild) && objArray == old(objArray)
    {
      canExplode := false;
    }

    /**
     * The brick wall: the old props are dropped, one unnamed brick is shown
     * at the origin, then 31 by 31 bricks named "brick" are placed on
     * {-30 + 2k | 0 <= k <= 30}, the k-th of them at index k + 1.
     */
    method BuildBrickWall()
      requires Valid()
      modifies this
      ensures Valid()
      ensures |objArray| == 962
      ensures objArray[0] == NewNode("brick.jpg").(inScene := true)
      ensures forall i :: 1 <= i < |objArray| ==> objArray[i] == WallBrick(WallCell(i - 1))
      ensures canExplode == old(canExplode) && canBuild == old(canBuild)
    {
      objArray := [];
      var brick := NewNode("brick.jpg");
      objArray := objArray + [brick];
      brick := brick.(inScene := true);
      objArray := objArray[0 := brick];
      var fieldArea := 30;
      var coordinates := [-fieldArea, -fieldArea];
      var counter := 0;
      while coordinates[1] <= fieldArea
        invariant |coordinates| == 2
        invariant |objArray| == counter + 1 && counter <= 961
        invariant objArray[0] == brick
        invariant Point(coordinates[0], coordinates[1]) == WallWalk(counter)
        invariant forall i :: 1 <= i <= counter ==> objArray[i] == WallBrick(WallWalk(i - 1))
        invariant canExplode == old(canExplode) && canBuild == old(canBuild)
        decreases 961 - counter
      {
        WallWalkRows(counter);
        ghost var before := objArray;
        objArray := objArray + [NewNode("brick.jpg")];
        var placed := objArray[counter + 1];
        placed := placed.(x := coordinates[0], y := coordinates[1]);
        placed := placed.(name := Some(BrickName));
        objArray := objArray[counter + 1 := placed];
        assert placed == WallBrick(WallWalk(counter));
        assert objArray == before + [placed];
        coordinates := coordinates[0 := coordinates[0] + 2];
        if coordinates[0] > fieldArea {
          coordinates := coordinates[0 := -fieldArea][1 := coordinates[1] + 2];
        }
        counter := counter + 1;
      }
      WallWalkRows(counter);
      forall i | 1 <= i < |objArray| ensures objArray[i] == WallBrick(WallCell(i - 1)) {
        WallWalkIsCell(i - 1);
      }
    }

    /**
     * "Bricks random appearance": explosions are switched off, `objArray`
     * is shuffled, and every brick is shown if building is still allowed.
     */
    method RevealBricks() returns (ghost order: seq<nat>)
      requires Valid()
      modifies this
      ensures Valid()
      ensures !canExplode && canBuild == old(canBuild)
      ensures |objArray| == |old(objArray)| && Shuffle.IsIndexPermutation(order, |objArray|)
      ensures forall i :: 0 <= i < |objArray| ==>
        objArray[i] == if canBuild then old(objArray)[order[i]].(inScene := true) else old(objArray)[order[i]]
    {
      canExplode := false;
      var shuffled;
      shuffled, order := Shuffle.Shuffled(objArray);
      objArray := shuffled;
      var i := 0;
      while i < |objArray|
        invariant i <= |objArray| == |shuffled|
        invariant forall k :: 0 <= k < i ==> objArray[k] == if canBuild then shuffled[k].(inScene := true) else shuffled[k]
        invariant forall k :: i <= k < |objArray| ==> objArray[k] == shuffled[k]
        invariant !canExplode && canBuild == old(canBuild)
      {
        ghost var before := objArray;
        if canBuild {
          objArray := objArray[i := objArray[i].(inScene := true)];
        }
        assert forall k :: 0 <= k < |objArray| && k != i ==> objArray[k] == before[k];
        i := i + 1;
      }
    }

    /**
     * The sorting scene. Even-indexed bricks are recoloured (the bricks in
     * `lighterBricks` are the objects of `objArray`, so the recolouring and
     * the moves show in `objArray`), then each group moves to its targets:
     * lighter bricks to the left half, normal bricks to the right half, no
     * two bricks to the same place. Names are untouched.
     */
    method SortBricks()
      requires Valid()
      modifies this
      ensures Valid()
      ensures |objArray| == |old(objArray)|
      ensures forall i :: 0 <= i < |objArray| && i % 2 == 0 ==>
        objArray[i] == BrickSort.MovedTo(ChangeColor(old(objArray)[i]), LighterTarget(i / 2))
      ensures forall i :: 0 <= i < |objArray| && i % 2 == 1 ==>
        objArray[i] == BrickSort.MovedTo(old(objArray)[i], NormalTarget(i / 2))
      ensures forall i :: 0 <= i < |objArray| ==> objArray[i].name == old(objArray)[i].name
      ensures forall i :: 0 <= i < |objArray| ==> (objArray[i].x < 0 <==> i % 2 == 0)
      ensures forall i, j :: 0 <= i < j < |objArray| ==> Point(objArray[i].x, objArray[i].y) != Point(objArray[j].x, objArray[j].y)
      ensures canExplode == old(canExplode) && canBuild == old(canBuild)
    {
      objArray := BrickSort.SortedBricks(objArray);
    }

    /** Before the fireworks: building is switched off and every prop is removed. */
    method StartFireworks()
      requires Valid()
      modifies this
      ensures Valid()
      ensures !canBuild && canExplode == old(canExplode) && objArray == []
    {
      canBuild := false;
      objArray := [];
    }

    /**
     * The post-scriptum scene: five app boxes named "app-0" ... "app-4",
     * shown at fixed places. Like the sphere field, the loop names
     * `objArray[counter]`, so it expects `objArray` to start empty, as it is
     * after `StartFireworks`.
     */
    method ShowAppBoxes()
      requires Valid() && objArray == []
      modifies this
      ensures Valid()
      ensures |objArray| == |AppBoxPositions|
      ensures forall k :: 0 <= k < |objArray| ==> objArray[k] == AppBox(k)
      ensures forall k :: 0 <= k < |objArray| ==> TapAction(false, false, objArray[k].name) == AppEffect
      ensures canExplode == old(canExplode) && canBuild == old(canBuild)
    {
      var counter := 0;
      var positions := AppBoxPositions;
      while counter < |positions|
        invariant counter <= |positions| && |objArray| == counter
        invariant forall k :: 0 <= k < counter ==> objArray[k] == AppBox(k)
        invariant canExplode == old(canExplode) && canBuild == old(canBuild)
      {
        var appBox := NewNode("app" + NatToString(counter) + ".png");
        appBox := BrickSort.MovedTo(appBox, positions[counter]);
        objArray := objArray + [appBox];
        objArray := objArray[counter := objArray[counter].(name := Some(AppName(counter)))];
        objArray := objArray[counter := objArray[counter].(inScene := true)];
        counter := counter + 1;
      }
      forall k | 0 <= k < |objArray| ensures TapAction(false, false, objArray[k].name) == AppEffect {
        AppBoxesReact(k);
      }
    }
  }

  /**
   * The timed steps of `executeScenario` that touch the model's state, in
   * the order their timers fire: 45.5 s the sphere field; from 62.5 s the
   * explosion timers, of which the first 167 fire before explosions go off
   * at 75.8 s; 77 s the wall; 80 s the bricks appear; 95 s the sorting;
   * 109 s the fireworks; 124 s the app boxes. Both switches start on and end
   * off, and the taps the user makes in between are not part of this
   * sequence.
   */
  method RunScenario() returns (scene: StoryScene)
    ensures fresh(scene) && scene.Valid()
    ensures !scene.canExplode && !scene.canBuild
    ensures |scene.objArray| == |AppBoxPositions|
    ensures forall k :: 0 <= k < |scene.objArray| ==> scene.objArray[k] == AppBox(k)
  {
    scene := new StoryScene();
    scene.BuildSphereField();
    ghost var order := scene.AutoExplode(ExplosionsBeforeSwitchOff);
    scene.DisableExplosions();
    scene.BuildBrickWall();
    order := scene.RevealBricks();
    scene.SortBricks();
    scene.StartFireworks();
    scene.ShowAppBoxes();
  }
}
