# ARKitInteraction gesture and scene-control core, in Dafny

This project models the decision logic of the ARKitInteraction app's two view-controller files:

- `NodeGestureHandler` is the gesture coordinator. It selects nodes on tap, double-tap and long-press. It tracks a node with pan and rotation gestures, then re-projects the tracked screen position into the world once per frame.
- `SceneVC` is the scene controller. It owns the restart guard and its cooldown, the focus-square state machine, placement of a node at the focus square, the add-emoji guard, the video-capture toggle and the gesture-begin predicate.

Every ARKit and SceneKit query is an input to the model:

- `sceneView.selectNode(at:)` is a function `Point -> Option<NodeId>`.
- `projectPoint` is a function `Vec3 -> Point`.
- `worldPosition(fromScreenPosition:objectPosition:infinitePlane:)` is a function returning `Option<WorldHit>`. The focus square receives its result as a value.
- `isNode(_:insideFrustumOf:)` is a function `NodeId -> bool`.
- The camera transform and the focus square's `lastPosition` are `Option` values.

The nodes are a store `map<NodeId, NodeState>` held by the handler. A node's state is its kind (emoji, or 3D text with its string), `isStanding`, its world position and its yaw.

The recognizers whose values the handler resets are classes: `PanGesture` (translation) and `RotationGesture` (rotation). Calls that the code makes on collaborators are appended to an effect log. These are the scene controller's `endEditing()` and its view's `endEditing(true)` (two separate entries), `hideDeleteButton`, `inputBeginHandler`, `longPressHandler`, `resetTracking`, presenting the emoji popover, the recorder's `record`/`stop`, and the "cannot place" message. Coordinates are `real`.

Files:

- `Basics.dfy` holds the shared values.
- `NodeGestureHandler.dfy` (module `NodeGestures`) holds the handler, `center`, `objectInteracting`, and the lemmas on pan and rotation accumulation.
- `SceneVC.dfy` (module `Scene`) holds the scene controller.
- `Scenarios.dfy` holds client sequences that use only the contracts. They cover:
  - a pan below and then past the threshold;
  - three 0.2 rad rotations;
  - a tap followed by a tap on empty space;
  - a restart followed by its cooldown.

Behaviour of the code worth knowing:

- Pan tracking is cleared in every state other than `.began` and `.changed`. That includes `.possible` and `.failed`, not only end and cancel.
- Re-projection never smooths the move. The code always passes `smoothMovement: false`.
- Double-tap hides the delete button on every call, including a hit on a text node. Tap, long-press, pan and rotate all end editing unconditionally.
- Restart does not itself set the focus square to Initializing. It also does not clear the handler's selected or tracked node. Removed nodes stay in the store and may stay selected.
- `gestureRecognizerShouldBegin` allows a gesture only when no node is loaded.

## Model

| member | source | states |
|---|---|---|
| `NodeGestures.NodeGestureHandler.SetTrackedObject` | ARKitInteraction/Main/VC/NodeGestureHandler.swift:31-36 | assigning a node to `trackedObject` also makes it `selectedNode`; assigning nil leaves `selectedNode` as it was |
| `NodeGestures.NodeGestureHandler.constructor` | ARKitInteraction/Main/VC/NodeGestureHandler.swift:15-39 | nothing is selected, tracked or positioned; translation assumes an infinite plane |
| `NodeGestures.NodeGestureHandler.SetText` | ARKitInteraction/Main/VC/NodeGestureHandler.swift:69-73 | the text changes only when the selected node is a Text3D node; only that node changes |
| `NodeGestures.NodeGestureHandler.DidTap` | ARKitInteraction/Main/VC/NodeGestureHandler.swift:76-101 | a hit selects the node and applies `Tapped` to it alone (a Text3D node's `isStanding` flips, an emoji is unchanged); a miss leaves the selection and every node unchanged (no teleport); tracking untouched; editing ends |
| `NodeGestures.Tapped` | ARKitInteraction/Main/VC/NodeGestureHandler.swift:85-95 | `isStanding` flips exactly when the node is a Text3D node; kind, position and yaw are kept |
| `NodeGestures.TappedTwice` | ARKitInteraction/Main/VC/NodeGestureHandler.swift:92 | two taps on the same node restore its state |
| `NodeGestures.NodeGestureHandler.DidDoubleTap` | ARKitInteraction/Main/VC/NodeGestureHandler.swift:103-121 | the delete button is hidden first; a Text3D hit selects the node and fires text input exactly once with its current text; a non-text hit selects without firing and ends the view's editing; a miss keeps the selection and ends the view's editing |
| `NodeGestures.NodeGestureHandler.DidLongPress` | ARKitInteraction/Main/VC/NodeGestureHandler.swift:123-135 | only `.began` with a node found by `objectInteracting` changes the selection and fires the long-press handler, once, with that node and the first touch's location; every other case only ends the view's editing |
| `NodeGestures.NodeGestureHandler.DidPan` | ARKitInteraction/Main/VC/NodeGestureHandler.swift:137-168 | `.began` tracks (and so selects) the node found, or changes nothing on a miss; `.changed` past the threshold with a tracked node sets the position to (previous position, or the projected node position) plus the translation and resets the translation to zero; `.changed` below the threshold or with nothing tracked changes nothing; any other state clears tracked node and position but keeps the selection |
| `NodeGestures.PanTrackAccumulates` | ARKitInteraction/Main/VC/NodeGestureHandler.swift:148-157 | over any non-empty sequence of committed updates the tracking position equals the start (previous position, or projected point) plus the sum of the deltas |
| `NodeGestures.NodeGestureHandler.UpdateObjectToCurrentTrackingPosition` | ARKitInteraction/Main/VC/NodeGestureHandler.swift:179-183 | nothing changes unless a node is tracked and a tracking position exists; then the node moves to the world position under the tracking position, queried with an infinite plane, when camera and query succeed |
| `NodeGestures.NodeGestureHandler.Translate` | ARKitInteraction/Main/VC/NodeGestureHandler.swift:226-239 | without a camera transform or a world position nothing changes; otherwise only the node's position changes, to the queried world position |
| `NodeGestures.NodeGestureHandler.DidRotate` | ARKitInteraction/Main/VC/NodeGestureHandler.swift:186-200 | only `.changed` acts: the tracked node's yaw decreases by the rotation (no node tracked: no node changes) and the recognizer's rotation becomes 0; other states change no node and keep the rotation |
| `NodeGestures.RotateTrackAccumulates` | ARKitInteraction/Main/VC/NodeGestureHandler.swift:197-199 | over any sequence of updates the yaw decreases by exactly the sum of the incremental angles |
| `NodeGestures.FirstTouchHit` | ARKitInteraction/Main/VC/NodeGestureHandler.swift:210-217 | the result is nothing or the hit of one of the touches |
| `NodeGestures.FirstTouchHitIsFirst` | ARKitInteraction/Main/VC/NodeGestureHandler.swift:210-217 | the loop returns the hit of the lowest-index touch that hits, and returns nothing exactly when no touch hits |
| `NodeGestures.InteractingPrefersTouches` | ARKitInteraction/Main/VC/NodeGestureHandler.swift:209-221 | a hitting touch wins (lowest index first); only when none hits is the centre of the touches hit-tested |
| `NodeGestures.ObjectInteracting` | ARKitInteraction/Main/VC/NodeGestureHandler.swift:209-221 | the loop with early return computes `Interacting`: the first touch's hit, else the hit at the centre |
| `NodeGestures.TouchBounds` | ARKitInteraction/Main/VC/NodeGestureHandler.swift:245-249 | the union-reduce over the touches is the tightest box: it contains every touch and each side is attained by a touch |
| `NodeGestures.Center` | ARKitInteraction/Main/VC/NodeGestureHandler.swift:243-252 | the centre lies inside the touches' bounding box, and is the touch itself for a single touch |
| `NodeGestures.ExtremesReached` | ARKitInteraction/Main/VC/NodeGestureHandler.swift:245-249 | along either axis, the lower and the upper side of the touches' bounding box are the coordinates of a lowest and a highest touch |
| `NodeGestures.CenterBetweenExtremes` | ARKitInteraction/Main/VC/NodeGestureHandler.swift:243-252 | on each axis the centre is the midpoint of the lowest and the highest touch |
| `Scene.SceneVC.constructor` | ARKitInteraction/Main/VC/SceneVC.swift:46-67 | after loading: restart available, not capturing, no node loaded or placed, a fresh gesture handler with nothing selected |
| `Scene.SceneVC.RestartExperience` | ARKitInteraction/Main/VC/SceneVC.swift:303-312 | a no-op when restart is unavailable or a load is in progress; otherwise loaded nodes become empty, tracking is reset, restart becomes unavailable and the re-enabling block is pending |
| `Scene.SceneVC.RestartCooldownElapsed` | ARKitInteraction/Main/VC/SceneVC.swift:309-311 | the delayed block, the only way back, makes restart available again; `Valid` keeps "unavailable exactly while the block is pending" |
| `Scene.SceneVC.UpdateFocusSquare` | ARKitInteraction/Main/VC/SceneVC.swift:248-286 | hidden exactly when some loaded node is inside the frustum; no world position: Initializing, on the camera, emoji/video/text buttons hidden; otherwise PlaneDetected with the anchor when one is present, else FeaturesDetected, at the returned position, on the root node, buttons shown |
| `Scene.SceneVC.PlaceNode` | ARKitInteraction/Main/VC/SceneVC.swift:315-327 | without a camera transform or a focus-square position the node is neither selected nor added and the message is shown; otherwise it becomes the selected node, is positioned at `lastPosition` and is appended to the scene root; a node the handler already holds keeps its kind, standing flag and yaw, since the node object carries its own state |
| `Scene.SceneVC.ShowEmojiSelectionVC` | ARKitInteraction/Main/VC/SceneVC.swift:177-197 | the selection popover is presented exactly when the add button is visible and no load is in progress |
| `Scene.SceneVC.CaptureVideo` | ARKitInteraction/Main/VC/SceneVC.swift:149-175 | each call flips `isCapturing`, stopping the recorder when it was capturing and starting it otherwise |
| `Scene.SceneVC.GestureRecognizerShouldBegin` | ARKitInteraction/Main/VC/SceneVC.swift:339-341 | true exactly when there are no loaded nodes |

## Left out

- ARKit session setup and tracking configuration are foreign framework calls: `resetTracking`'s configuration, `setupCamera`, lighting, `viewDidAppear` and `viewWillDisappear`. Only the `resetTracking` call is recorded.
- Hit-testing, projection, frustum tests and world-position geometry are oracle parameters, not computations.
- `BaseNode.setPosition(_:relativeTo:smoothMovement:)` is not part of this model. With smoothing off, which is all the code uses, it is taken to put the node at the given position.
- The serial `updateQueue` and the `DispatchQueue.main` blocks are concurrency. Each enqueued block takes effect at once. The 5-second `asyncAfter` is the explicit event `RestartCooldownElapsed`.
- Video recording and playback are I/O and foreign code: ARVideoKit, the movie player and file-size reading. Only the `record`/`stop` calls are recorded.
- Layout, button titles and images, popover configuration, and the scheduling and cancelling of status messages are presentation. The "cannot place" message is recorded; the others are not.
- `text3D` is not modelled, because it goes through `Text3DNode` and `NodeManager`, which are not part of this model. The same holds for `emojiSelectionVC(_:didSelectObject:)`.
- `NodeManager` is not part of this model. Its `isLoading` flag and loaded-node list are fields of the scene controller. Restart clears the list. Whether `removeAllNodes` also detaches nodes from the scene graph is not shown, so the modelled scene root is left as it is.
- `displayErrorMessage` is an alert whose only action calls `resetTracking`.
- The always-true `shouldRecognizeSimultaneouslyWith` delegate methods are not modelled. Neither is the recognizer wiring: tap requiring double-tap to fail, and the 1.5 s long-press duration. Both are UIKit behaviour.
- `ThresholdPanGesture`'s threshold computation is not shown. `isThresholdExceeded` is an input.
- The precision of Float and CGFloat angles and points is not modelled. Coordinates are unbounded reals.
- `MainVC+ObjectSelection.swift` is not part of this model. It extends a `MainVC` that is not shown and repeats `placeNode`.
- The weak `sceneVC` reference is taken to be set, so every `endEditing` and `hideDeleteButton` call is recorded. The force-unwrapped `isLoading!` and `arrLoadedNodes!` are taken to be non-nil.
- `NodeGestures.Center` and `NodeGestures.ObjectInteracting` require at least one touch. With no touches the Swift code traps on the range `1..<0`, and `location(ofTouch: 0)` has no touch to read.
- `FocusSquareNode` is not part of this model. The focus square is taken to start in Initializing and visible; `viewDidLoad` attaches it to the root node. Its `lastPosition` is an input to placement.
- `Scene.SceneVC.constructor` takes the node manager to be idle and empty, as at first launch. `viewDidLoad` does not touch the `NodeManager` singleton, which can outlive the controller.
