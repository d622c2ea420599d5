# WWDC17 playground: a Dafny model of its scenario logic

The WWDC17 playground is a Swift playground that teaches variables,
conditions, loops and arrays. It does this with a scripted SceneKit scene
run by chains of timers. Most of the script drives animations, particles
and sound. Inside it there are a few pieces of sequential logic, and this
project models and verifies those:

- `Array.shuffled()`, the random-removal shuffle (module `Shuffle`). The
  random pick is an arbitrary index into `indexes`. The result is proved to
  be a permutation of the input, with a ghost record of where each element
  came from.
- `VarBox` and its `changeImage()` (module `Boxes`): an index into four
  colours that advances and wraps around. Four taps bring the box back to
  where it started.
- The layout loops of `executeScenario` (modules `Grid` and `BrickSort`):
  - the 21 by 21 sphere field;
  - the 31 by 31 brick wall behind one unnamed origin brick;
  - the even/odd partition of the bricks;
  - the two "sorting" walks that send each group to its own half of the field.

  Each walk is a loop over a coordinate pair, as in the script. It is proved
  against a closed form: cell `k` is column `k % width`, row `k / width`.
- The tap handler `touchesBegan` (module `Touches` for the decision,
  `Story` for its effect), together with
  `explodeSphere`. It relies on `components(separatedBy: "-")` (module
  `Names`), a split function proved inverse to a join. The decision is a pure
  function with one if-and-only-if per branch.
- The `StoryScene` state that the timed steps change (module `Story`):
  - `objArray`;
  - the `canExplode` and `canBuild` switches;
  - the var box.

  Each timer callback that touches this state is a method. `RunScenario`
  runs them in the order their timers fire.
- The automatic explosions of the sphere scene (module `Explosions`). Each
  wooden sphere, in shuffled order, gets its own explosion timer, 0.08 s
  apart. Explosions are switched off at 75.8 s, so only the first 167 timers
  explode anything. The wooden spheres past that rank stay in the scene.

Scene-graph nodes are value records, `Nodes.Node`. A record holds the
optional name, the texture, the x/y position and whether the node is in the
scene. `Brick.changeColor` starts with the comparison `self.name ==
"greenBrick"`, whose value is thrown away. So the model's `ChangeColor`
changes the texture only, and `SortBricks` states that every name is kept.

## Model

| member | source | states |
|---|---|---|
| Shuffle.Range | WWDC17.playgroundbook/Contents/Chapters/WWDC.playgroundchapter/Pages/Main.playgroundpage/Contents.swift:932 | `(0 ..< count).map { $0 }` has length n and holds i at position i |
| Shuffle.TakeIndex | WWDC17.playgroundbook/Contents/Chapters/WWDC.playgroundchapter/Pages/Main.playgroundpage/Contents.swift:934-937 | moving `indexes[k]` from the unused positions to the used ones keeps both lists in bounds and duplicate-free, keeps them disjoint and together still covering every position |
| Shuffle.Shuffled | WWDC17.playgroundbook/Contents/Chapters/WWDC.playgroundchapter/Pages/Main.playgroundpage/Contents.swift:930-939 | the loop terminates; the result has the input's length and multiset; the ghost `order` lists every position exactly once, and result i is `a[order[i]]`; every index read is in bounds |
| Boxes.NextColor | WWDC17.playgroundbook/Contents/Chapters/WWDC.playgroundchapter/Pages/Main.playgroundpage/Contents.swift:767-773 | one step of `changeImage` on the index stays below the colour count and is `(current + 1) % count` |
| Boxes.ColorAfter | WWDC17.playgroundbook/Contents/Chapters/WWDC.playgroundchapter/Pages/Main.playgroundpage/Contents.swift:767-773 | any number of `changeImage` calls keeps the index in bounds |
| Boxes.ColorAfterIsRotation | WWDC17.playgroundbook/Contents/Chapters/WWDC.playgroundchapter/Pages/Main.playgroundpage/Contents.swift:767-773 | `taps` calls advance the index by `taps` modulo 4 |
| Boxes.FullCycleRestores | WWDC17.playgroundbook/Contents/Chapters/WWDC.playgroundchapter/Pages/Main.playgroundpage/Contents.swift:756-773 | four calls bring the index back to its starting value |
| Boxes.VarBox.constructor | WWDC17.playgroundbook/Contents/Chapters/WWDC.playgroundchapter/Pages/Main.playgroundpage/Contents.swift:756-760 | a new var box starts at colour 0 with texture "redVar.png" |
| Boxes.VarBox.ChangeImage | WWDC17.playgroundbook/Contents/Chapters/WWDC.playgroundchapter/Pages/Main.playgroundpage/Contents.swift:767-773 | the index stays in bounds and advances by one modulo 4, and the texture is that of the new colour |
| Boxes.FourTaps | WWDC17.playgroundbook/Contents/Chapters/WWDC.playgroundchapter/Pages/Main.playgroundpage/Contents.swift:756-773 | four consecutive `changeImage` calls restore both the index and the texture |
| Grid.CellsDistinct | WWDC17.playgroundbook/Contents/Chapters/WWDC.playgroundchapter/Pages/Main.playgroundpage/Contents.swift:252-273 | a row-major walk with a positive step never visits a position twice |
| Grid.SphereCell | WWDC17.playgroundbook/Contents/Chapters/WWDC.playgroundchapter/Pages/Main.playgroundpage/Contents.swift:248-275 | each of the 441 spheres is within [-31, 29] squared, on the lattice -31 + 3c |
| Grid.SphereRowMajor | WWDC17.playgroundbook/Contents/Chapters/WWDC.playgroundchapter/Pages/Main.playgroundpage/Contents.swift:252-273 | a later sphere lies on a higher row, or on the same row further right |
| Grid.SphereStep | WWDC17.playgroundbook/Contents/Chapters/WWDC.playgroundchapter/Pages/Main.playgroundpage/Contents.swift:267-272 | the update `x += 3`, reset to -31 with `y += 3` once x > 31, moves from sphere k to sphere k + 1 |
| Grid.SphereRows | WWDC17.playgroundbook/Contents/Chapters/WWDC.playgroundchapter/Pages/Main.playgroundpage/Contents.swift:252 | the loop test `y <= 31` holds exactly for the first 441 positions, so the loop stops after 441 spheres |
| Grid.SphereFieldCovers | WWDC17.playgroundbook/Contents/Chapters/WWDC.playgroundchapter/Pages/Main.playgroundpage/Contents.swift:248-275 | every lattice point (-31 + 3cx, -31 + 3cy) with cx, cy <= 20 is a sphere position |
| Grid.WallCell | WWDC17.playgroundbook/Contents/Chapters/WWDC.playgroundchapter/Pages/Main.playgroundpage/Contents.swift:348-366 | each of the 961 wall bricks is within [-30, 30] squared, at even coordinates |
| Grid.WallStep | WWDC17.playgroundbook/Contents/Chapters/WWDC.playgroundchapter/Pages/Main.playgroundpage/Contents.swift:358-363 | the update `x += 2`, reset to -30 with `y += 2` once x > 30, moves from brick k to brick k + 1 |
| Grid.WallWalkIsCell | WWDC17.playgroundbook/Contents/Chapters/WWDC.playgroundchapter/Pages/Main.playgroundpage/Contents.swift:352-366 | the wall loop's step-by-step walk reaches the row-major cell k |
| Grid.WallWalkRows | WWDC17.playgroundbook/Contents/Chapters/WWDC.playgroundchapter/Pages/Main.playgroundpage/Contents.swift:352 | on that walk, the loop test `y <= 30` holds exactly for the first 961 positions |
| Grid.WallRows | WWDC17.playgroundbook/Contents/Chapters/WWDC.playgroundchapter/Pages/Main.playgroundpage/Contents.swift:352 | on the row-major form, the test `y <= 30` holds exactly for the first 961 positions |
| Grid.WallCovers | WWDC17.playgroundbook/Contents/Chapters/WWDC.playgroundchapter/Pages/Main.playgroundpage/Contents.swift:348-366 | every lattice point (-30 + 2cx, -30 + 2cy) with cx, cy <= 30 is a wall position |
| Grid.LighterTarget | WWDC17.playgroundbook/Contents/Chapters/WWDC.playgroundchapter/Pages/Main.playgroundpage/Contents.swift:443-464 | a lighter-brick target has x in [-30, -2] and y >= -30 |
| Grid.LighterStep | WWDC17.playgroundbook/Contents/Chapters/WWDC.playgroundchapter/Pages/Main.playgroundpage/Contents.swift:456-461 | the update `x += 2`, reset to -30 with `y += 2` once x >= 0, moves from target k to target k + 1 |
| Grid.NormalTarget | WWDC17.playgroundbook/Contents/Chapters/WWDC.playgroundchapter/Pages/Main.playgroundpage/Contents.swift:470-489 | a normal-brick target has x in [0, 30] and y >= -30 |
| Grid.NormalStep | WWDC17.playgroundbook/Contents/Chapters/WWDC.playgroundchapter/Pages/Main.playgroundpage/Contents.swift:481-486 | the update `x += 2`, reset to 0 with `y += 2` once x > 30, moves from target k to target k + 1 |
| Grid.SortedTargetsDistinct | WWDC17.playgroundbook/Contents/Chapters/WWDC.playgroundchapter/Pages/Main.playgroundpage/Contents.swift:443-489 | two different lighter bricks get different targets, and so do two different normal bricks |
| Grid.FieldCellsDistinct | WWDC17.playgroundbook/Contents/Chapters/WWDC.playgroundchapter/Pages/Main.playgroundpage/Contents.swift:248-366 | no two spheres and no two wall bricks share a position |
| Grid.SortedHalvesDisjoint | WWDC17.playgroundbook/Contents/Chapters/WWDC.playgroundchapter/Pages/Main.playgroundpage/Contents.swift:443-489 | every lighter target is left of x = 0 and every normal target is at or right of it, so no target is in both groups |
| Nodes.ChangeColor | WWDC17.playgroundbook/Contents/Chapters/WWDC.playgroundchapter/Pages/Main.playgroundpage/Contents.swift:822-825 | `changeColor` sets the texture to "brick-sort.jpg" and leaves the name, position and scene membership unchanged |
| BrickSort.Evens | WWDC17.playgroundbook/Contents/Chapters/WWDC.playgroundchapter/Pages/Main.playgroundpage/Contents.swift:420-424 | the elements at even indices, in order, ceil(n/2) of them |
| BrickSort.Odds | WWDC17.playgroundbook/Contents/Chapters/WWDC.playgroundchapter/Pages/Main.playgroundpage/Contents.swift:425-428 | the elements at odd indices, in order, floor(n/2) of them |
| BrickSort.InterleaveEvensOdds | WWDC17.playgroundbook/Contents/Chapters/WWDC.playgroundchapter/Pages/Main.playgroundpage/Contents.swift:416-432 | interleaving the two halves gives the array back, so nothing is lost or reordered |
| BrickSort.EvensOddsPartition | WWDC17.playgroundbook/Contents/Chapters/WWDC.playgroundchapter/Pages/Main.playgroundpage/Contents.swift:416-432 | the two halves together contain every element exactly once (multiset union) |
| BrickSort.PartitionBricks | WWDC17.playgroundbook/Contents/Chapters/WWDC.playgroundchapter/Pages/Main.playgroundpage/Contents.swift:416-432 | `lighterBricks` holds the recoloured even-indexed bricks in order and `normalBricks` the odd-indexed ones, with sizes ceil(n/2) and floor(n/2) |
| BrickSort.LayoutLighterBricks | WWDC17.playgroundbook/Contents/Chapters/WWDC.playgroundchapter/Pages/Main.playgroundpage/Contents.swift:443-464 | the k-th lighter brick goes to `LighterTarget(k)`, and all targets are on the left half and pairwise distinct |
| BrickSort.LayoutNormalBricks | WWDC17.playgroundbook/Contents/Chapters/WWDC.playgroundchapter/Pages/Main.playgroundpage/Contents.swift:470-489 | the k-th normal brick goes to `NormalTarget(k)`, and all targets are on the right half and pairwise distinct |
| BrickSort.SortedBricks | WWDC17.playgroundbook/Contents/Chapters/WWDC.playgroundchapter/Pages/Main.playgroundpage/Contents.swift:416-489 | after sorting, brick i is recoloured at the (i/2)-th lighter target when i is even, and unchanged at the (i/2)-th normal target when i is odd; names kept, parity decides the half, no two bricks share a place |
| BrickSort.SortedLayout | WWDC17.playgroundbook/Contents/Chapters/WWDC.playgroundchapter/Pages/Main.playgroundpage/Contents.swift:443-489 | any arrangement with that placement keeps the names, puts even bricks left and odd bricks right, and never puts two bricks in one place |
| Names.Split | WWDC17.playgroundbook/Contents/Chapters/WWDC.playgroundchapter/Pages/Main.playgroundpage/Contents.swift:678 | `components(separatedBy:)` returns at least one piece, no piece contains the separator, and there is one more piece than separators |
| Names.JoinSplit | WWDC17.playgroundbook/Contents/Chapters/WWDC.playgroundchapter/Pages/Main.playgroundpage/Contents.swift:678 | joining the pieces with the separator gives the original name back |
| Names.SplitJoin | WWDC17.playgroundbook/Contents/Chapters/WWDC.playgroundchapter/Pages/Main.playgroundpage/Contents.swift:678 | separator-free pieces come back unchanged from a join followed by a split |
| Names.SplitFree | WWDC17.playgroundbook/Contents/Chapters/WWDC.playgroundchapter/Pages/Main.playgroundpage/Contents.swift:678 | a string without the separator splits into itself alone |
| Names.SplitPrefix | WWDC17.playgroundbook/Contents/Chapters/WWDC.playgroundchapter/Pages/Main.playgroundpage/Contents.swift:678 | the text before the first separator is the first piece |
| Names.SplitHeadIffPrefix | WWDC17.playgroundbook/Contents/Chapters/WWDC.playgroundchapter/Pages/Main.playgroundpage/Contents.swift:708-712 | `count > 1 && arr[0] == head` holds exactly when the name begins with head followed by the separator |
| Touches.TapAction | WWDC17.playgroundbook/Contents/Chapters/WWDC.playgroundchapter/Pages/Main.playgroundpage/Contents.swift:680-728 | branches are tried in priority order and exactly one action results: the var box; the default sphere or let box; the exploding sphere; a brick; a name beginning "app-"; otherwise nothing. Each branch has its own if-and-only-if |
| Touches.NoDashNoAction | WWDC17.playgroundbook/Contents/Chapters/WWDC.playgroundchapter/Pages/Main.playgroundpage/Contents.swift:708-712 | a missing name, or a name outside the three literal names that contains no "-", triggers nothing |
| Touches.ExplodedSphereIsInert | WWDC17.playgroundbook/Contents/Chapters/WWDC.playgroundchapter/Pages/Main.playgroundpage/Contents.swift:680-746 | a sphere that `explodeSphere` has renamed "" cannot trigger anything again |
| Touches.AppName | WWDC17.playgroundbook/Contents/Chapters/WWDC.playgroundchapter/Pages/Main.playgroundpage/Contents.swift:645 | "app-\(counter)" begins with "app-" |
| Touches.NatToString | WWDC17.playgroundbook/Contents/Chapters/WWDC.playgroundchapter/Pages/Main.playgroundpage/Contents.swift:642-645 | the interpolated counter is a non-empty string of decimal digits |
| Touches.AppBoxesReact | WWDC17.playgroundbook/Contents/Chapters/WWDC.playgroundchapter/Pages/Main.playgroundpage/Contents.swift:708-712 | every app box name selects the app effect |
| Explosions.WoodenCount | WWDC17.playgroundbook/Contents/Chapters/WWDC.playgroundchapter/Pages/Main.playgroundpage/Contents.swift:298 | the number of nodes named "explodingSphere", which is at most the length |
| Explosions.Cascade | WWDC17.playgroundbook/Contents/Chapters/WWDC.playgroundchapter/Pages/Main.playgroundpage/Contents.swift:295-303 | the cascade keeps the array's length |
| Explosions.CascadeAt | WWDC17.playgroundbook/Contents/Chapters/WWDC.playgroundchapter/Pages/Main.playgroundpage/Contents.swift:295-303 | node i ends up exploded exactly when explosions are on, it is wooden and fewer than `fired` wooden spheres come before it; otherwise it is unchanged |
| Explosions.WoodenStep | WWDC17.playgroundbook/Contents/Chapters/WWDC.playgroundchapter/Pages/Main.playgroundpage/Contents.swift:298-303 | each wooden sphere the walk meets takes the next timer |
| Explosions.WoodenPrefix | WWDC17.playgroundbook/Contents/Chapters/WWDC.playgroundchapter/Pages/Main.playgroundpage/Contents.swift:298-303 | a wooden sphere's rank is below the total number of wooden spheres |
| Explosions.WoodenLeft | WWDC17.playgroundbook/Contents/Chapters/WWDC.playgroundchapter/Pages/Main.playgroundpage/Contents.swift:295-322 | the cascade leaves all wooden spheres when explosions are off; otherwise all but the first `fired`, and none when there are at most `fired` of them |
| Explosions.CascadeClearsAll | WWDC17.playgroundbook/Contents/Chapters/WWDC.playgroundchapter/Pages/Main.playgroundpage/Contents.swift:295-303 | with at most `fired` wooden spheres and explosions on, none is left |
| Explosions.BeforeSwitchOff | WWDC17.playgroundbook/Contents/Chapters/WWDC.playgroundchapter/Pages/Main.playgroundpage/Contents.swift:227-322 | explosion timer j, due 62.5 s + 0.08 s * j, fires before the 75.8 s switch-off exactly when j < 167 |
| Story.UnnamedNodeIsInert | WWDC17.playgroundbook/Contents/Chapters/WWDC.playgroundchapter/Pages/Main.playgroundpage/Contents.swift:680-728 | a node that was never named, such as the origin brick added at 343-346, selects nothing when tapped |
| Story.StoryScene.constructor | WWDC17.playgroundbook/Contents/Chapters/WWDC.playgroundchapter/Pages/Main.playgroundpage/Contents.swift:14-23 | the scene starts with an empty `objArray`, both switches on and the var box at colour 0 |
| Story.StoryScene.TouchesBegan | WWDC17.playgroundbook/Contents/Chapters/WWDC.playgroundchapter/Pages/Main.playgroundpage/Contents.swift:670-732 | without a hit nothing changes; otherwise the action is `TapAction` of the hit node, which is in the scene because the hit test searches the root node only. Only the var box (next colour) and a wooden sphere (exploded when `canExplode`) change; the switches never change |
| Story.StoryScene.ExplodeSphere | WWDC17.playgroundbook/Contents/Chapters/WWDC.playgroundchapter/Pages/Main.playgroundpage/Contents.swift:735-746 | with `canExplode` off nothing changes; with it on only that node changes, its name becoming "" and its scene membership false |
| Story.StoryScene.BuildSphereField | WWDC17.playgroundbook/Contents/Chapters/WWDC.playgroundchapter/Pages/Main.playgroundpage/Contents.swift:248-275 | 441 spheres are appended, sphere i at `SphereCell(i)`, each metal "defaultSphere" or wooden "explodingSphere", all in the scene |
| Story.StoryScene.AutoExplode | WWDC17.playgroundbook/Contents/Chapters/WWDC.playgroundchapter/Pages/Main.playgroundpage/Contents.swift:290-306 | `objArray` becomes a permutation of itself, then goes through the explosion cascade: with `canExplode` on, the wooden spheres of rank below `fired` in the new order are exploded, and every other node is unchanged |
| Story.StoryScene.ExplosionCascade | WWDC17.playgroundbook/Contents/Chapters/WWDC.playgroundchapter/Pages/Main.playgroundpage/Contents.swift:295-303 | the walk that gives the j-th wooden sphere the j-th explosion timer leaves `objArray` as `Cascade` of its old value |
| Story.StoryScene.DisableExplosions | WWDC17.playgroundbook/Contents/Chapters/WWDC.playgroundchapter/Pages/Main.playgroundpage/Contents.swift:321-323 | `canExplode` is switched off and nothing else changes |
| Story.StoryScene.BuildBrickWall | WWDC17.playgroundbook/Contents/Chapters/WWDC.playgroundchapter/Pages/Main.playgroundpage/Contents.swift:333-366 | `objArray` becomes the shown origin brick followed by 961 bricks named "brick", brick k + 1 at `WallCell(k)` |
| Story.StoryScene.RevealBricks | WWDC17.playgroundbook/Contents/Chapters/WWDC.playgroundchapter/Pages/Main.playgroundpage/Contents.swift:372-402 | explosions are switched off and `objArray` becomes a permutation of itself, each brick shown if `canBuild` |
| Story.StoryScene.SortBricks | WWDC17.playgroundbook/Contents/Chapters/WWDC.playgroundchapter/Pages/Main.playgroundpage/Contents.swift:416-489 | the sorting step on `objArray`, stated as in `SortedBricks` |
| Story.StoryScene.StartFireworks | WWDC17.playgroundbook/Contents/Chapters/WWDC.playgroundchapter/Pages/Main.playgroundpage/Contents.swift:526-531 | building is switched off and every prop is dropped |
| Story.StoryScene.ShowAppBoxes | WWDC17.playgroundbook/Contents/Chapters/WWDC.playgroundchapter/Pages/Main.playgroundpage/Contents.swift:630-649 | five app boxes "app-0" ... "app-4" are appended at their fixed positions, and each reacts to a tap with the app effect |
| Story.RunScenario | WWDC17.playgroundbook/Contents/Chapters/WWDC.playgroundchapter/Pages/Main.playgroundpage/Contents.swift:227-649 | run in timer order, with 167 explosion timers before the switch-off, the steps' preconditions are met; both switches start on and end off, and the scene ends with the five app boxes |

## Left out

- Rendering is left out: geometry, materials other than texture names, lights, the camera, `SCNAction`/`CABasicAnimation` motion, particle systems, overlay scenes and the tutorial labels. These are framework calls. A move animation is modelled as its end position.
- Timers are not modelled as such: each callback body is one sequential step, and `RunScenario` runs them in the order they fire. Two steps stagger their effects with per-item timers. The explosion timers are modelled by their count before the switch-off (see `AutoExplode` below). The brick-dust timers come at 0.015 s intervals from 80 s and are all done by about 94.4 s, before anything changes `canBuild`, so checking `canBuild` once at the start of the step gives the same result.
- The var box's own repeating 5-second timer is not a separate step; the box advances only when `ChangeImage` is called. `ColorAfter` describes any number of such calls.
- Taps that interleave with the timed steps are not part of `RunScenario`. `TouchesBegan` can be called between any two steps.
- The hit test (`hitTest` with its options) is an input: a `Story.Hit` saying which tracked node, if any, was hit. A hit prop must be in the scene. Nodes outside `objArray` and the boxes have no name, and the model reads them as `UnnamedHit`.
- CoreMotion and camera rotation (`startMotion`), audio playback and bundle lookups are left out, as sensor I/O and foreign calls.
- `arc4random_uniform` becomes an arbitrary in-range choice. How random it is does not matter to any property here.
- The fireworks scene is left out except for its state changes at 526-531. Its red/yellow alternation and float coordinates are presentational only.
- `Brick.moveBackwards`/`moveForwards` only animate z, which is not modelled. Positions are integers: every position the script writes in the modelled steps is integral.
- Names.Split: models `components(separatedBy:)` only for the one-character separator "-" that the script uses.
- Story.StoryScene.AutoExplode: `fired`, the number of explosion timers that fire before `canExplode` goes off, is a parameter; `RunScenario` passes 167, from the nominal timer delays (`BeforeSwitchOff`). Timer drift and the rounding of the accumulated `Double` delay are not modelled. With about half of the 441 spheres wooden, the remaining wooden spheres (`WoodenLeft`) stay in the scene until the wall step drops them at 77 s.
- Story.StoryScene.BuildSphereField: requires `objArray` to be empty. The loop writes `objArray[counter]` right after appending, which addresses the new node only when the array started empty. It is empty when this step runs; `RunScenario` shows that.
- Story.StoryScene.ShowAppBoxes: requires `objArray` to be empty, for the same reason. It is empty after `StartFireworks`.
- Story.StoryScene.TouchesBegan/ExplodeSphere: the node is addressed by its index in `objArray`, since nodes are values here. Renaming a node that is shared with another list is not modelled. Only `SortBricks` depends on such sharing, and it states the combined result directly.
