/** The gesture coordinator: selection and tracking of nodes driven by tap,
    double-tap, long-press, pan and rotation recognizers. Every scene-view
    query is an input: `selectNode(at:)` is a function from screen points to
    node identities, `projectPoint` a function from world to screen
    positions, and `worldPosition(...)` a function returning an optional
    `WorldHit`. */
module NodeGestures {
  import opened Basics

  /** UIGestureRecognizer.State. */
  datatype GestureState = Possible | Began | Changed | Ended | Cancelled | Failed

  /** Calls the handler makes on its collaborators, in order: the scene
      controller's `endEditing()`, its view's `endEditing(true)`, its
      `hideDeleteButton()`, `inputBeginHandler(text)` and
      `longPressHandler(node, point)`. */
  datatype Effect =
    | EndEditing
    | ViewEndEditing
    | HideDeleteButton
    | BeginTextInput(text: string)
    | LongPressed(node: NodeId, location: Point)

  /** Every node that the hit-test oracle can return is a node of the store. */
  ghost predicate SelectsKnown(selectNode: Point -> Option<NodeId>, nodes: map<NodeId, NodeState>) {
    forall p :: selectNode(p).Some? ==> selectNode(p).value in nodes
  }

  // ---------------------------------------------------------------------
  // UIGestureRecognizer.center(in:)
  // ---------------------------------------------------------------------

  /** A CGRect given by its extreme coordinates. */
  datatype Rect = Rect(minX: real, minY: real, maxX: real, maxY: real)

  function Min(a: real, b: real): real { if a <= b then a else b }
  function Max(a: real, b: real): real { if a <= b then b else a }

  /** `CGRect.union` of a rectangle with the zero-size rectangle at `p`. */
  function UnionPoint(r: Rect, p: Point): Rect {
    Rect(Min(r.minX, p.x), Min(r.minY, p.y), Max(r.maxX, p.x), Max(r.maxY, p.y))
  }

  /** The `reduce` over the touch locations: the zero-size rectangle at the
      first touch, widened by each further touch in turn. The result is the
      tightest box holding every touch. */
  function TouchBounds(touches: seq<Point>): (b: Rect)
    requires |touches| > 0
    ensures forall i :: 0 <= i < |touches| ==>
      b.minX <= touches[i].x <= b.maxX && b.minY <= touches[i].y <= b.maxY
    ensures exists i :: 0 <= i < |touches| && touches[i].x == b.minX
    ensures exists i :: 0 <= i < |touches| && touches[i].x == b.maxX
    ensures exists i :: 0 <= i < |touches| && touches[i].y == b.minY
    ensures exists i :: 0 <= i < |touches| && touches[i].y == b.maxY
    decreases |touches|
  {
    if |touches| == 1 then
      Rect(touches[0].x, touches[0].y, touches[0].x, touches[0].y)
    else
      var init := touches[..|touches| - 1];
      assert forall i :: 0 <= i < |init| ==> init[i] == touches[i];
      UnionPoint(TouchBounds(init), touches[|touches| - 1])
  }

  datatype Axis = X | Y

  /** The coordinate of `p` along `axis`. */
  function Coord(p: Point, axis: Axis): real {
    match axis
    case X => p.x
    case Y => p.y
  }

  /** Touch `i` lies at the lowest coordinate along `axis`. */
  ghost predicate IsLowest(touches: seq<Point>, i: int, axis: Axis) {
    0 <= i < |touches| &&
    forall k :: 0 <= k < |touches| ==> Coord(touches[i], axis) <= Coord(touches[k], axis)
  }

  /** Touch `i` lies at the highest coordinate along `axis`. */
  ghost predicate IsHighest(touches: seq<Point>, i: int, axis: Axis) {
    0 <= i < |touches| &&
    forall k :: 0 <= k < |touches| ==> Coord(touches[k], axis) <= Coord(touches[i], axis)
  }

  /** The centre of the touches: the midpoint of their bounding box. */
  function Center(touches: seq<Point>): (c: Point)
    requires |touches| > 0
    ensures TouchBounds(touches).minX <= c.x <= TouchBounds(touches).maxX
    ensures TouchBounds(touches).minY <= c.y <= TouchBounds(touches).maxY
    ensures |touches| == 1 ==> c == touches[0]
  {
    var b := TouchBounds(touches);
    Point((b.minX + b.maxX) / 2.0, (b.minY + b.maxY) / 2.0)
  }

  /** Along `axis`, the centre lies halfway between a lowest and a highest touch. */
  ghost predicate MidwayOnAxis(touches: seq<Point>, axis: Axis)
    requires |touches| > 0
  {
    exists i, j :: IsLowest(touches, i, axis) && IsHighest(touches, j, axis) &&
      Coord(Center(touches), axis) == (Coord(touches[i], axis) + Coord(touches[j], axis)) / 2.0
  }

  /** The lower and upper sides of a rectangle along `axis`. */
  function Low(r: Rect, axis: Axis): real { if axis == X then r.minX else r.minY }
  function High(r: Rect, axis: Axis): real { if axis == X then r.maxX else r.maxY }

  /** The sides of the bounding box along `axis` are reached by touches,
      which are then a lowest and a highest touch. */
  lemma ExtremesReached(touches: seq<Point>, axis: Axis) returns (i: int, j: int)
    requires |touches| > 0
    ensures IsLowest(touches, i, axis) && Coord(touches[i], axis) == Low(TouchBounds(touches), axis)
    ensures IsHighest(touches, j, axis) && Coord(touches[j], axis) == High(TouchBounds(touches), axis)
  {
    var b := TouchBounds(touches);
    if axis == X {
      i :| 0 <= i < |touches| && touches[i].x == b.minX;
      j :| 0 <= j < |touches| && touches[j].x == b.maxX;
    } else {
      i :| 0 <= i < |touches| && touches[i].y == b.minY;
      j :| 0 <= j < |touches| && touches[j].y == b.maxY;
    }
  }

  /** One axis of `CenterBetweenExtremes`. */
  lemma CenterOnAxis(touches: seq<Point>, axis: Axis)
    requires |touches| > 0
    ensures MidwayOnAxis(touches, axis)
  {
    var i, j := ExtremesReached(touches, axis);
    var b := TouchBounds(touches);
    assert Coord(Center(touches), axis) == (Low(b, axis) + High(b, axis)) / 2.0;
  }

  /** On each axis the centre lies halfway between the extreme touches, so
      it does not depend on the order in which the touches are reported. */
  lemma CenterBetweenExtremes(touches: seq<Point>)
    requires |touches| > 0
    ensures forall axis :: MidwayOnAxis(touches, axis)
  {
    forall axis
      ensures MidwayOnAxis(touches, axis)
    {
      CenterOnAxis(touches, axis);
    }
  }

  // ---------------------------------------------------------------------
  // objectInteracting(with:in:)
  // ---------------------------------------------------------------------

  /** The hit of the lowest-index touch that hits a node, if any touch does. */
  function FirstTouchHit(touches: seq<Point>, selectNode: Point -> Option<NodeId>): (r: Option<NodeId>)
    ensures r.None? || exists i :: 0 <= i < |touches| && r == selectNode(touches[i])
  {
    if touches == [] then None
    else if selectNode(touches[0]).Some? then selectNode(touches[0])
    else
      var r := FirstTouchHit(touches[1..], selectNode);
      assert r.Some? ==> exists i :: 0 <= i < |touches| - 1 && r == selectNode(touches[1..][i]);
      r
  }

  /** Touch `i` hits a node and no touch before it does. */
  ghost predicate FirstHitAt(touches: seq<Point>, selectNode: Point -> Option<NodeId>, i: int) {
    0 <= i < |touches| && selectNode(touches[i]).Some? &&
    forall j :: 0 <= j < i ==> selectNode(touches[j]).None?
  }

  /** The node a multi-touch gesture interacts with: the first touch's hit,
      and only when no touch hits, the hit at the centre of the touches. */
  function Interacting(touches: seq<Point>, selectNode: Point -> Option<NodeId>): Option<NodeId>
    requires |touches| > 0
  {
    var direct := FirstTouchHit(touches, selectNode);
    if direct.Some? then direct else selectNode(Center(touches))
  }

  lemma {:induction false} FirstTouchHitIsFirst(touches: seq<Point>, selectNode: Point -> Option<NodeId>)
    ensures forall i :: FirstHitAt(touches, selectNode, i) ==> FirstTouchHit(touches, selectNode) == selectNode(touches[i])
    ensures FirstTouchHit(touches, selectNode).None? <==> forall i :: 0 <= i < |touches| ==> selectNode(touches[i]).None?
  {
    if touches != [] {
      var rest := touches[1..];
      FirstTouchHitIsFirst(rest, selectNode);
      forall i | FirstHitAt(touches, selectNode, i)
        ensures FirstTouchHit(touches, selectNode) == selectNode(touches[i])
      {
        if i > 0 {
          assert FirstHitAt(rest, selectNode, i - 1);
        }
      }
      if selectNode(touches[0]).None? {
        assert forall i :: 0 <= i < |rest| ==> rest[i] == touches[i + 1];
        assert (forall i :: 0 <= i < |rest| ==> selectNode(rest[i]).None?) <==>
               (forall i :: 0 <= i < |touches| ==> selectNode(touches[i]).None?) by {
          if forall i :: 0 <= i < |rest| ==> selectNode(rest[i]).None? {
            forall i | 0 <= i < |touches| ensures selectNode(touches[i]).None? {
              if i > 0 { assert touches[i] == rest[i - 1]; }
            }
          }
        }
      }
    }
  }

  /** Both directions of the selection rule: a touch that hits wins, the
      lowest-index one first; the centre is consulted only when none hits. */
  lemma InteractingPrefersTouches(touches: seq<Point>, selectNode: Point -> Option<NodeId>)
    requires |touches| > 0
    ensures forall i :: FirstHitAt(touches, selectNode, i) ==> Interacting(touches, selectNode) == selectNode(touches[i])
    ensures (forall i :: 0 <= i < |touches| ==> selectNode(touches[i]).None?) ==>
      Interacting(touches, selectNode) == selectNode(Center(touches))
  {
    FirstTouchHitIsFirst(touches, selectNode);
  }

  /** A found node is a node of the store. */
  lemma InteractingIsKnown(touches: seq<Point>, selectNode: Point -> Option<NodeId>, nodes: map<NodeId, NodeState>)
    requires |touches| > 0 && SelectsKnown(selectNode, nodes)
    ensures Interacting(touches, selectNode).Some? ==> Interacting(touches, selectNode).value in nodes
  {
  }

  /** The loop over the touches with its early return, then the centre. */
  method ObjectInteracting(touches: seq<Point>, selectNode: Point -> Option<NodeId>) returns (found: Option<NodeId>)
    requires |touches| > 0
    ensures found == Interacting(touches, selectNode)
    ensures forall i :: FirstHitAt(touches, selectNode, i) ==> found == selectNode(touches[i])
    ensures (forall i :: 0 <= i < |touches| ==> selectNode(touches[i]).None?) ==>
      found == selectNode(Center(touches))
  {
    InteractingPrefersTouches(touches, selectNode);
    var index := 0;
    while index < |touches|
      invariant 0 <= index <= |touches|
      invariant forall j :: 0 <= j < index ==> selectNode(touches[j]).None?
    {
      var node := selectNode(touches[index]);
      if node.Some? {
        assert FirstHitAt(touches, selectNode, index);
        return node;
      }
      index := index + 1;
    }
    found := selectNode(Center(touches));
  }

  // ---------------------------------------------------------------------
  // Recognizers whose accumulated values the handler resets
  // ---------------------------------------------------------------------

  /** ThresholdPanGesture: its state, whether the displacement threshold has
      been exceeded (computed by the recognizer, an input here), the
      translation accumulated since it was last reset, and the touches. */
  class PanGesture {
    var state: GestureState
    var isThresholdExceeded: bool
    var translation: Point
    var touches: seq<Point>

    constructor(state: GestureState, isThresholdExceeded: bool, translation: Point, touches: seq<Point>)
      ensures this.state == state && this.isThresholdExceeded == isThresholdExceeded
      ensures this.translation == translation && this.touches == touches
    {
      this.state := state;
      this.isThresholdExceeded := isThresholdExceeded;
      this.translation := translation;
      this.touches := touches;
    }
  }

  /** UIRotationGestureRecognizer: its state and the rotation accumulated
      since it was last reset. */
  class RotationGesture {
    var state: GestureState
    var rotation: real

    constructor(state: GestureState, rotation: real)
      ensures this.state == state && this.rotation == rotation
    {
      this.state := state;
      this.rotation := rotation;
    }
  }

  // ---------------------------------------------------------------------
  // Single steps and their accumulation over a gesture
  // ---------------------------------------------------------------------

  /** One committed pan update: the previous tracking position (or, when
      there is none, the node's projected screen point) moved by the
      translation read from the recognizer. */
  function PanStep(current: Option<Point>, projected: Point, translation: Point): Point {
    Add(current.GetOr(projected), translation)
  }

  /** The tracking position after consuming the translations `deltas` one
      update at a time. */
  function PanTrack(current: Option<Point>, projected: Point, deltas: seq<Point>): Option<Point>
    decreases |deltas|
  {
    if deltas == [] then current
    else PanTrack(Some(PanStep(current, projected, deltas[0])), projected, deltas[1..])
  }

  function Sum(deltas: seq<Point>): Point {
    if deltas == [] then Zero else Add(deltas[0], Sum(deltas[1..]))
  }

  /** Because the translation is reset after each update, the tracking
      position moves by exactly the sum of the deltas: none is lost and none
      is counted twice, and the projected point is used only when tracking
      had no position yet. */
  lemma {:induction false} PanTrackAccumulates(current: Option<Point>, projected: Point, deltas: seq<Point>)
    requires deltas != []
    decreases |deltas|
    ensures PanTrack(current, projected, deltas) == Some(Add(current.GetOr(projected), Sum(deltas)))
  {
    var next := PanStep(current, projected, deltas[0]);
    if |deltas| == 1 {
      assert Sum(deltas[1..]) == Zero;
    } else {
      PanTrackAccumulates(Some(next), projected, deltas[1..]);
    }
  }

  /** The yaw after consuming the rotations `angles` one update at a time. */
  function RotateTrack(yaw: real, angles: seq<real>): real
    decreases |angles|
  {
    if angles == [] then yaw else RotateTrack(yaw - angles[0], angles[1..])
  }

  function SumAngles(angles: seq<real>): real {
    if angles == [] then 0.0 else angles[0] + SumAngles(angles[1..])
  }

  /** Because the recognizer's rotation is reset after each update, the yaw
      decreases by exactly the sum of the incremental angles. */
  lemma {:induction false} RotateTrackAccumulates(yaw: real, angles: seq<real>)
    decreases |angles|
    ensures RotateTrack(yaw, angles) == yaw - SumAngles(angles)
  {
    if angles != [] {
      RotateTrackAccumulates(yaw - angles[0], angles[1..]);
    }
  }

  /** A tap on a node: a text node falls down or stands up, an emoji node is
      left as it is. */
  function Tapped(node: NodeState): (r: NodeState)
    ensures r.isStanding == (node.isStanding != node.kind.Text3D?)
    ensures r.kind == node.kind && r.position == node.position && r.yaw == node.yaw
  {
    if node.kind.Text3D? then node.(isStanding := !node.isStanding) else node
  }

  /** Tapping the same node twice restores it. */
  lemma TappedTwice(node: NodeState)
    ensures Tapped(Tapped(node)) == node
  {
  }

  // ---------------------------------------------------------------------
  // NodeGestureHandler
  // ---------------------------------------------------------------------

  class NodeGestureHandler {
    /** Translation assumes the detected plane extends infinitely. */
    const translateAssumingInfinitePlane: bool

    /** The node most recently interacted with. */
    var selectedNode: Option<NodeId>
    /** The node moved and rotated by the pan and rotation gestures. */
    var trackedObject: Option<NodeId>
    /** The screen position the tracked node is re-projected from each frame. */
    var currentTrackingPosition: Option<Point>
    /** The state of every node handed to the scene, by identity. */
    var nodes: map<NodeId, NodeState>
    /** Calls made on collaborators, oldest first. */
    var effects: seq<Effect>

    /** Selection and tracking name nodes of the store, and a tracking
        position exists only while a node is tracked. */
    ghost predicate Valid()
      reads this
    {
      (selectedNode.Some? ==> selectedNode.value in nodes) &&
      (trackedObject.Some? ==> trackedObject.value in nodes) &&
      (currentTrackingPosition.Some? ==> trackedObject.Some?)
    }

    constructor(nodes: map<NodeId, NodeState>)
      ensures Valid() && translateAssumingInfinitePlane
      ensures selectedNode == None && trackedObject == None && currentTrackingPosition == None
      ensures this.nodes == nodes && effects == []
    {
      translateAssumingInfinitePlane := true;
      selectedNode := None;
      trackedObject := None;
      currentTrackingPosition := None;
      this.nodes := nodes;
      effects := [];
    }

    /** The `trackedObject` setter with its `didSet` observer: assigning a
        node also selects it; assigning nil leaves the selection alone. */
    method SetTrackedObject(node: Option<NodeId>)
      modifies this`trackedObject, this`selectedNode
      ensures trackedObject == node
      ensures selectedNode == if node.Some? then node else old(selectedNode)
    {
      trackedObject := node;
      if trackedObject.None? {
        return;
      }
      selectedNode := trackedObject;
    }

    /** setText(text:): only a selected text node takes the new text. */
    method SetText(text: string)
      requires Valid()
      modifies this`nodes
      ensures Valid()
      ensures selectedNode.Some? && old(nodes)[selectedNode.value].kind.Text3D? ==>
        nodes == old(nodes)[selectedNode.value := old(nodes)[selectedNode.value].(kind := Text3D(text))]
      ensures !(selectedNode.Some? && old(nodes)[selectedNode.value].kind.Text3D?) ==> nodes == old(nodes)
    {
      if selectedNode.Some? && nodes[selectedNode.value].kind.Text3D? {
        var id := selectedNode.value;
        nodes := nodes[id := nodes[id].(kind := Text3D(text))];
      }
    }

    /** didTap: a hit selects the node and taps it; a miss changes nothing
        (no teleport of the selected node). */
    method DidTap(location: Point, selectNode: Point -> Option<NodeId>)
      requires Valid() && SelectsKnown(selectNode, nodes)
      modifies this`selectedNode, this`nodes, this`effects
      ensures Valid()
      ensures effects == old(effects) + [EndEditing]
      ensures selectNode(location).Some? ==>
        var id := selectNode(location).value;
        selectedNode == Some(id) && nodes == old(nodes)[id := Tapped(old(nodes)[id])]
      ensures selectNode(location).None? ==> selectedNode == old(selectedNode) && nodes == old(nodes)
    {
      effects := effects + [EndEditing];
      var tappedObject := selectNode(location);
      if tappedObject.Some? {
        var id := tappedObject.value;
        selectedNode := tappedObject;
        if nodes[id].kind.Text3D? {
          nodes := nodes[id := nodes[id].(isStanding := !nodes[id].isStanding)];
        }
      }
    }

    /** didDoubleTap: a hit selects the node; a text node then opens text
        input seeded with its current text, anything else ends editing. */
    method DidDoubleTap(location: Point, selectNode: Point -> Option<NodeId>)
      requires Valid() && SelectsKnown(selectNode, nodes)
      modifies this`selectedNode, this`effects
      ensures Valid()
      ensures selectNode(location).Some? ==>
        var id := selectNode(location).value;
        selectedNode == Some(id) &&
        effects == old(effects) + [HideDeleteButton] +
          (if nodes[id].kind.Text3D? then [BeginTextInput(nodes[id].kind.text)] else [ViewEndEditing])
      ensures selectNode(location).None? ==>
        selectedNode == old(selectedNode) && effects == old(effects) + [HideDeleteButton, ViewEndEditing]
    {
      effects := effects + [HideDeleteButton];
      var tappedObject := selectNode(location);
      if tappedObject.Some? {
        selectedNode := tappedObject;
        var node := nodes[tappedObject.value];
        if node.kind.Text3D? {
          effects := effects + [BeginTextInput(node.kind.text)];
        } else {
          effects := effects + [ViewEndEditing];
        }
      } else {
        effects := effects + [ViewEndEditing];
      }
    }

    /** didLongPress: only the `.began` transition acts; when a node is
        found it is selected and reported with the first touch's location. */
    method DidLongPress(state: GestureState, touches: seq<Point>, selectNode: Point -> Option<NodeId>)
      requires Valid() && SelectsKnown(selectNode, nodes)
      requires state == Began ==> |touches| > 0
      modifies this`selectedNode, this`effects
      ensures Valid()
      ensures state == Began && Interacting(touches, selectNode).Some? ==>
        var id := Interacting(touches, selectNode).value;
        selectedNode == Some(id) && effects == old(effects) + [ViewEndEditing, LongPressed(id, touches[0])]
      ensures !(state == Began && Interacting(touches, selectNode).Some?) ==>
        selectedNode == old(selectedNode) && effects == old(effects) + [ViewEndEditing]
    {
      effects := effects + [ViewEndEditing];
      if state == Began {
        var node := ObjectInteracting(touches, selectNode);
        InteractingIsKnown(touches, selectNode, nodes);
        if node.Some? {
          selectedNode := node;
          effects := effects + [LongPressed(node.value, touches[0])];
        }
      }
    }

    /** didPan: `.began` starts tracking the node under the touches;
        `.changed` past the threshold moves the tracking position by the
        translation and resets it; `.changed` below the threshold is
        ignored; any other state ends tracking but keeps the selection. */
    method DidPan(gesture: PanGesture, selectNode: Point -> Option<NodeId>, projectPoint: Vec3 -> Point)
      requires Valid() && SelectsKnown(selectNode, nodes)
      requires gesture.state == Began ==> |gesture.touches| > 0
      modifies this`selectedNode, this`trackedObject, this`currentTrackingPosition, this`effects
      modifies gesture`translation
      ensures Valid()
      ensures effects == old(effects) + [EndEditing]
      ensures gesture.state == Began ==>
        var found := Interacting(gesture.touches, selectNode);
        trackedObject == (if found.Some? then found else old(trackedObject)) &&
        selectedNode == (if found.Some? then found else old(selectedNode)) &&
        currentTrackingPosition == old(currentTrackingPosition) &&
        gesture.translation == old(gesture.translation)
      ensures gesture.state == Changed && gesture.isThresholdExceeded && old(trackedObject).Some? ==>
        currentTrackingPosition ==
          Some(PanStep(old(currentTrackingPosition), projectPoint(nodes[old(trackedObject).value].position), old(gesture.translation))) &&
        gesture.translation == Zero &&
        trackedObject == old(trackedObject) && selectedNode == old(selectedNode)
      ensures gesture.state == Changed && !(gesture.isThresholdExceeded && old(trackedObject).Some?) ==>
        currentTrackingPosition == old(currentTrackingPosition) &&
        gesture.translation == old(gesture.translation) &&
        trackedObject == old(trackedObject) && selectedNode == old(selectedNode)
      ensures gesture.state != Began && gesture.state != Changed ==>
        currentTrackingPosition == None && trackedObject == None &&
        selectedNode == old(selectedNode) && gesture.translation == old(gesture.translation)
    {
      effects := effects + [EndEditing];
      match gesture.state {
        case Began =>
          var node := ObjectInteracting(gesture.touches, selectNode);
          InteractingIsKnown(gesture.touches, selectNode, nodes);
          if node.Some? {
            SetTrackedObject(node);
          }
        case Changed =>
          if gesture.isThresholdExceeded {
            if trackedObject.None? {
              return;
            }
            var node := trackedObject.value;
            var translation := gesture.translation;
            var currentPosition := currentTrackingPosition.GetOr(projectPoint(nodes[node].position));
            currentTrackingPosition := Some(Add(currentPosition, translation));
            gesture.translation := Zero;
          }
        case _ =>
          currentTrackingPosition := None;
          SetTrackedObject(None);
      }
    }

    /** updateObjectToCurrentTrackingPosition, called once per frame: with a
        tracked node and a tracking position, re-project that position into
        the world (assuming an infinite plane) and place the node there, when
        a camera transform and a world position are available. */
    method UpdateObjectToCurrentTrackingPosition(
      cameraTransform: Option<Pose>,
      worldPosition: (Point, Option<Vec3>, bool) -> Option<WorldHit>)
      requires Valid()
      modifies this`nodes
      ensures Valid()
      ensures (trackedObject.Some? && currentTrackingPosition.Some? && cameraTransform.Some? &&
        worldPosition(currentTrackingPosition.value, Some(old(nodes)[trackedObject.value].position),
                      translateAssumingInfinitePlane).Some?) ==>
        var id := trackedObject.value;
        var hit := worldPosition(currentTrackingPosition.value, Some(old(nodes)[id].position),
                                 translateAssumingInfinitePlane).value;
        nodes == old(nodes)[id := old(nodes)[id].(position := hit.position)]
      ensures trackedObject.None? || currentTrackingPosition.None? || cameraTransform.None? ==>
        nodes == old(nodes)
      ensures (trackedObject.Some? && currentTrackingPosition.Some? &&
        worldPosition(currentTrackingPosition.value, Some(old(nodes)[trackedObject.value].position),
                      translateAssumingInfinitePlane).None?) ==>
        nodes == old(nodes)
    {
      if trackedObject.None? || currentTrackingPosition.None? {
        return;
      }
      Translate(trackedObject.value, currentTrackingPosition.value, translateAssumingInfinitePlane,
                cameraTransform, worldPosition);
    }

    /** translate(_:basedOn:infinitePlane:): move the node to the world
        position under `screenPos`, without smoothing. */
    method Translate(node: NodeId, screenPos: Point, infinitePlane: bool,
                     cameraTransform: Option<Pose>,
                     worldPosition: (Point, Option<Vec3>, bool) -> Option<WorldHit>)
      requires Valid() && node in nodes
      modifies this`nodes
      ensures Valid()
      ensures cameraTransform.Some? && worldPosition(screenPos, Some(old(nodes)[node].position), infinitePlane).Some? ==>
        nodes == old(nodes)[node := old(nodes)[node].(
          position := worldPosition(screenPos, Some(old(nodes)[node].position), infinitePlane).value.position)]
      ensures cameraTransform.None? || worldPosition(screenPos, Some(old(nodes)[node].position), infinitePlane).None? ==>
        nodes == old(nodes)
    {
      var hit := worldPosition(screenPos, Some(nodes[node].position), infinitePlane);
      if cameraTransform.None? || hit.None? {
        return;
      }
      nodes := nodes[node := nodes[node].(position := hit.value.position)];
    }

    /** didRotate: only `.changed` acts; the tracked node's yaw decreases by
        the recognizer's rotation, which is then reset to zero. */
    method DidRotate(gesture: RotationGesture)
      requires Valid()
      modifies this`nodes, this`effects, gesture`rotation
      ensures Valid()
      ensures effects == old(effects) + [EndEditing]
      ensures gesture.state == Changed ==>
        gesture.rotation == 0.0 &&
        nodes == if trackedObject.Some? then
                   old(nodes)[trackedObject.value := old(nodes)[trackedObject.value].(
                     yaw := old(nodes)[trackedObject.value].yaw - old(gesture.rotation))]
                 else old(nodes)
      ensures gesture.state != Changed ==> gesture.rotation == old(gesture.rotation) && nodes == old(nodes)
    {
      effects := effects + [EndEditing];
      if gesture.state != Changed {
        return;
      }
      if trackedObject.Some? {
        var id := trackedObject.value;
        nodes := nodes[id := nodes[id].(yaw := nodes[id].yaw - gesture.rotation)];
      }
      gesture.rotation := 0.0;
    }
  }
}
