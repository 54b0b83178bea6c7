/** Values shared by the gesture handler and the scene controller: screen and
    world coordinates, the state of a placed node, and the result of a
    world-position query. Coordinates are `real`: the rounding of CGFloat and
    Float is not modelled. */
module Basics {

  datatype Option<+T> = None | Some(value: T) {
    /** Swift's `??`: the wrapped value, or `default` when there is none. */
    function GetOr(default: T): T {
      match this
      case Some(v) => v
      case None => default
    }
  }

  /** A point in the scene view's screen coordinates (CGPoint). */
  datatype Point = Point(x: real, y: real)

  const Zero := Point(0.0, 0.0)

  function Add(p: Point, q: Point): Point {
    Point(p.x + q.x, p.y + q.y)
  }

  /** A position in world space (simd_float3). */
  datatype Vec3 = Vec3(x: real, y: real, z: real)

  /** Identity of a node object (a BaseNode reference in the app). */
  type NodeId = nat

  /** Identity of a detected plane anchor (ARPlaneAnchor). */
  type PlaneId = nat

  /** The camera transform of the current frame; only whether one is
      available matters to the decisions modelled here. */
  datatype Pose = Pose(translation: Vec3)

  /** What a node is: an emoji prop, or 3D text carrying its current string. */
  datatype Kind = Emoji | Text3D(text: string)

  /** The attributes of a node that the modelled code reads or writes:
      its kind, the `isStanding` flag, its world position and its yaw
      (`eulerAngles.y`). */
  datatype NodeState = NodeState(kind: Kind, isStanding: bool, position: Vec3, yaw: real)

  /** The result of `worldPosition(fromScreenPosition:objectPosition:infinitePlane:)`:
      a world position, the plane anchor that was hit if any, and whether the
      estimate lies on a detected plane. */
  datatype WorldHit = WorldHit(position: Vec3, planeAnchor: Option<PlaneId>, hitAPlane: bool)
}
