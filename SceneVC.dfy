/** The scene controller's decisions: the restart guard and its cooldown,
    the focus-square state and visibility, placement of a node at the focus
    square, the add-emoji guard, the capture toggle and the gesture-begin
    predicate. Work the app enqueues on its serial update queue or on the
    main queue is applied at once; the 5-second restart cooldown is the
    explicit event `RestartCooldownElapsed`. */
module Scene {
  import opened Basics
  import opened NodeGestures

  /** FocusSquareNode.State, with the camera of the current frame. */
  datatype FocusState =
    | Initializing
    | FeaturesDetected(anchorPosition: Vec3, camera: Option<Pose>)
    | PlaneDetected(anchorPosition: Vec3, planeAnchor: PlaneId, camera: Option<Pose>)

  /** The focus square: its state, whether it is hidden, and whether it is
      attached to the camera (true) or to the scene's root node (false). */
  datatype FocusSquare = FocusSquare(state: FocusState, hidden: bool, onCamera: bool)

  /** The `isHidden` flags of the add-emoji, video-capture and 3D-text buttons. */
  datatype Buttons = Buttons(addEmojiHidden: bool, videoCaptureHidden: bool, text3DHidden: bool)

  const AllHidden := Buttons(true, true, true)
  const AllShown := Buttons(false, false, false)

  /** Calls made on collaborators: `resetTracking()`, presenting the emoji
      selection popover, the recorder's `record()` and `stop(_:)`, and the
      "cannot place object" status message. */
  datatype SceneEffect =
    | ResetTracking
    | PresentEmojiSelection
    | StartRecording
    | StopRecording
    | CannotPlaceMessage

  /** `arrLoadedNodes.contains { isNode($0, insideFrustumOf: pointOfView) }`. */
  predicate IsAnyNodeVisible(loadedNodes: seq<NodeId>, isInsideFrustum: NodeId -> bool) {
    exists i :: 0 <= i < |loadedNodes| && isInsideFrustum(loadedNodes[i])
  }

  class SceneVC {
    const nodeGestureHandler: NodeGestureHandler

    /** Whether the AR experience may be restarted. */
    var isRestartAvailable: bool
    /** Whether the delayed block that re-enables restarting is scheduled. */
    var restartCooldownPending: bool
    var isCapturing: bool
    /** The node manager's loaded nodes, in insertion order. */
    var loadedNodes: seq<NodeId>
    /** Whether the node manager is loading a node. */
    var isLoading: bool
    var focusSquare: FocusSquare
    var buttons: Buttons
    /** Nodes added to the scene's root node, in the order they were added. */
    var sceneRoot: seq<NodeId>
    var effects: seq<SceneEffect>

    /** The handler's invariant holds, and restarting is unavailable exactly
        while the re-enabling block is pending. */
    ghost predicate Valid()
      reads this, nodeGestureHandler
    {
      nodeGestureHandler.Valid() && (isRestartAvailable <==> !restartCooldownPending)
    }

    /** The state after `viewDidLoad`. */
    constructor()
      ensures Valid() && fresh(nodeGestureHandler)
      ensures nodeGestureHandler.nodes == map[] && nodeGestureHandler.selectedNode == None
      ensures isRestartAvailable && !restartCooldownPending && !isCapturing && !isLoading
      ensures loadedNodes == [] && sceneRoot == [] && effects == []
      ensures focusSquare == FocusSquare(Initializing, false, false) && buttons == AllShown
    {
      nodeGestureHandler := new NodeGestureHandler(map[]);
      isRestartAvailable := true;
      restartCooldownPending := false;
      isCapturing := false;
      loadedNodes := [];
      isLoading := false;
      focusSquare := FocusSquare(Initializing, false, false);
      buttons := AllShown;
      sceneRoot := [];
      effects := [];
    }

    /** restartExperience: ignored while restarting is unavailable or a node
        is loading; otherwise disables restarting, removes every loaded node,
        resets tracking and schedules the re-enabling block. */
    method RestartExperience()
      requires Valid()
      modifies this`isRestartAvailable, this`restartCooldownPending, this`loadedNodes, this`effects
      ensures Valid()
      ensures old(isRestartAvailable) && !isLoading ==>
        !isRestartAvailable && restartCooldownPending && loadedNodes == [] &&
        effects == old(effects) + [ResetTracking]
      ensures !(old(isRestartAvailable) && !isLoading) ==>
        isRestartAvailable == old(isRestartAvailable) && restartCooldownPending == old(restartCooldownPending) &&
        loadedNodes == old(loadedNodes) && effects == old(effects)
    {
      if !(isRestartAvailable && !isLoading) {
        return;
      }
      isRestartAvailable := false;
      loadedNodes := [];
      effects := effects + [ResetTracking];
      restartCooldownPending := true;
    }

    /** The block scheduled by `restartExperience` runs after its delay. */
    method RestartCooldownElapsed()
      requires Valid() && restartCooldownPending
      modifies this`isRestartAvailable, this`restartCooldownPending
      ensures Valid() && isRestartAvailable && !restartCooldownPending
    {
      restartCooldownPending := false;
      isRestartAvailable := true;
    }

    /** updateFocusSquare, once per frame: the square is hidden exactly when
        a loaded node is inside the camera frustum; a failed world-position
        query makes it Initializing on the camera and hides the placement
        buttons, a successful one makes it PlaneDetected or
        FeaturesDetected at the returned position and shows them. */
    method UpdateFocusSquare(isInsideFrustum: NodeId -> bool, hit: Option<WorldHit>, camera: Option<Pose>)
      requires Valid()
      modifies this`focusSquare, this`buttons
      ensures Valid()
      ensures focusSquare.hidden <==> IsAnyNodeVisible(loadedNodes, isInsideFrustum)
      ensures hit.None? ==>
        focusSquare.state == Initializing && focusSquare.onCamera && buttons == AllHidden
      ensures hit.Some? && hit.value.planeAnchor.Some? ==>
        focusSquare.state == PlaneDetected(hit.value.position, hit.value.planeAnchor.value, camera) &&
        !focusSquare.onCamera && buttons == AllShown
      ensures hit.Some? && hit.value.planeAnchor.None? ==>
        focusSquare.state == FeaturesDetected(hit.value.position, camera) &&
        !focusSquare.onCamera && buttons == AllShown
    {
      var isObjectVisible := IsAnyNodeVisible(loadedNodes, isInsideFrustum);
      focusSquare := focusSquare.(hidden := isObjectVisible);
      if hit.None? {
        focusSquare := focusSquare.(state := Initializing, onCamera := true);
        buttons := AllHidden;
        return;
      }
      var WorldHit(worldPosition, planeAnchor, _) := hit.value;
      focusSquare := focusSquare.(onCamera := false);
      if planeAnchor.Some? {
        focusSquare := focusSquare.(state := PlaneDetected(worldPosition, planeAnchor.value, camera));
      } else {
        focusSquare := focusSquare.(state := FeaturesDetected(worldPosition, camera));
      }
      buttons := AllShown;
    }

    /** placeNode: without a camera transform or a focus-square position the
        node is neither selected nor added and a message is shown; otherwise
        it becomes the selected node, sits at the focus square's position and
        is added to the scene. `node` is the state of a node not yet known
        to the handler; a known node keeps its own kind, flag and yaw. */
    method PlaceNode(id: NodeId, node: NodeState, cameraTransform: Option<Pose>, lastPosition: Option<Vec3>)
      requires Valid()
      modifies this`sceneRoot, this`effects, nodeGestureHandler`selectedNode, nodeGestureHandler`nodes
      ensures Valid()
      ensures cameraTransform.None? || lastPosition.None? ==>
        effects == old(effects) + [CannotPlaceMessage] && sceneRoot == old(sceneRoot) &&
        nodeGestureHandler.selectedNode == old(nodeGestureHandler.selectedNode) &&
        nodeGestureHandler.nodes == old(nodeGestureHandler.nodes)
      ensures cameraTransform.Some? && lastPosition.Some? ==>
        nodeGestureHandler.selectedNode == Some(id) &&
        nodeGestureHandler.nodes == old(nodeGestureHandler.nodes)[id :=
          (if id in old(nodeGestureHandler.nodes) then old(nodeGestureHandler.nodes)[id] else node)
            .(position := lastPosition.value)] &&
        sceneRoot == old(sceneRoot) + [id] && effects == old(effects)
    {
      if cameraTransform.None? || lastPosition.None? {
        effects := effects + [CannotPlaceMessage];
        return;
      }
      var state := if id in nodeGestureHandler.nodes then nodeGestureHandler.nodes[id] else node;
      nodeGestureHandler.nodes := nodeGestureHandler.nodes[id := state.(position := lastPosition.value)];
      nodeGestureHandler.selectedNode := Some(id);
      sceneRoot := sceneRoot + [id];
    }

    /** showEmojiSelectionVC: the selection popover is presented only while
        the add button is visible and no node is loading. */
    method ShowEmojiSelectionVC()
      requires Valid()
      modifies this`effects
      ensures Valid()
      ensures !buttons.addEmojiHidden && !isLoading ==> effects == old(effects) + [PresentEmojiSelection]
      ensures buttons.addEmojiHidden || isLoading ==> effects == old(effects)
    {
      if buttons.addEmojiHidden || isLoading {
        return;
      }
      effects := effects + [PresentEmojiSelection];
    }

    /** captureVideo: stops recording when capturing, starts it otherwise,
        and flips `isCapturing`. */
    method CaptureVideo()
      requires Valid()
      modifies this`isCapturing, this`effects
      ensures Valid()
      ensures isCapturing == !old(isCapturing)
      ensures effects == old(effects) + [if old(isCapturing) then StopRecording else StartRecording]
    {
      if isCapturing {
        effects := effects + [StopRecording];
      } else {
        effects := effects + [StartRecording];
      }
      isCapturing := !isCapturing;
    }

    /** gestureRecognizerShouldBegin: gestures begin only while no node is loaded. */
    function GestureRecognizerShouldBegin(): (r: bool)
      reads this
      ensures r <==> |loadedNodes| == 0
    {
      loadedNodes == []
    }
  }
}
