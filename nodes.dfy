/**
 * Scene-graph nodes, reduced to what the script reads and writes: the
 * optional `name` used by tap dispatch, the texture image of its material,
 * its position in the z = 0 plane, and whether it is currently a child of the
 * scene's root node. Geometry, lights, animations and particles are not
 * modelled.
 */
module Nodes {

  datatype Option<T> = None | Some(value: T)

  datatype Node = Node(name: Option<string>, texture: string, x: int, y: int, inScene: bool)

  const DefaultSphereName := "defaultSphere"
  const ExplodingSphereName := "explodingSphere"
  const BrickName := "brick"

  /** The node after `explodeSphere` has acted on it: name cleared, removed from its parent. */
  function Exploded(n: Node): Node
  {
    n.(name := Some(""), inScene := false)
  }

  /**
   * `Brick.changeColor`: the brick gets the sorting texture. Its first
   * statement is the comparison `self.name == "greenBrick"`, whose value is
   * discarded, so the name is left as it was.
   */
  function ChangeColor(b: Node): (r: Node)
    ensures r.name == b.name
    ensures r.texture == "brick-sort.jpg"
    ensures r.x == b.x && r.y == b.y && r.inScene == b.inScene
  {
    b.(texture := "brick-sort.jpg")
  }
}
