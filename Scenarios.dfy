/** Client sequences that use only the contracts of the handler and the
    scene controller: what a caller can conclude about a whole gesture. */
module Scenarios {
  import opened Basics
  import opened NodeGestures
  import opened Scene

  /** A pan that starts on a node, moves (3, 2) below the threshold and then
      to (12, 2) past it: only the second update moves the tracking
      position, by the whole accumulated translation; ending the pan clears
      tracking but keeps the node selected. */
  method PanScenario() {
    var start := Point(1.0, 1.0);
    var h := new NodeGestureHandler(map[7 := NodeState(Emoji, true, Vec3(0.0, 0.0, 0.0), 0.0)]);
    var selectNode := (p: Point) => if p == start then Some(7) else None;
    var projectPoint := (v: Vec3) => start;
    var g := new PanGesture(Began, false, Zero, [start]);
    h.DidPan(g, selectNode, projectPoint);
    assert h.trackedObject == Some(7) && h.selectedNode == Some(7);

    g.state, g.translation := Changed, Point(3.0, 2.0);
    h.DidPan(g, selectNode, projectPoint);
    assert h.currentTrackingPosition == None;

    g.translation, g.isThresholdExceeded := Point(12.0, 2.0), true;
    h.DidPan(g, selectNode, projectPoint);
    assert h.currentTrackingPosition == Some(Point(13.0, 3.0)) && g.translation == Zero;

    g.state := Ended;
    h.DidPan(g, selectNode, projectPoint);
    assert h.trackedObject == None && h.currentTrackingPosition == None && h.selectedNode == Some(7);
  }

  /** Three rotation updates of 0.2 rad each turn the tracked node by 0.6 rad,
      and the recognizer's rotation is zero after each. */
  method RotateScenario() {
    var start := Point(0.0, 0.0);
    var h := new NodeGestureHandler(map[3 := NodeState(Text3D("a"), true, Vec3(0.0, 0.0, 0.0), 1.0)]);
    var selectNode := (p: Point) => if p == start then Some(3) else None;
    var g := new PanGesture(Began, false, Zero, [start]);
    h.DidPan(g, selectNode, (v: Vec3) => start);
    var r := new RotationGesture(Changed, 0.2);
    h.DidRotate(r);
    assert r.rotation == 0.0;
    r.rotation := 0.2;
    h.DidRotate(r);
    r.rotation := 0.2;
    h.DidRotate(r);
    assert h.nodes[3].yaw == 1.0 - 0.6 && r.rotation == 0.0;
  }

  /** A tap on a text node selects it and makes it fall; a tap on empty
      space afterwards leaves both the selection and the node alone. */
  method TapScenario() {
    var on := Point(5.0, 5.0);
    var h := new NodeGestureHandler(map[2 := NodeState(Text3D("a"), true, Vec3(1.0, 0.0, 0.0), 0.0)]);
    var selectNode := (p: Point) => if p == on then Some(2) else None;
    h.DidTap(on, selectNode);
    assert h.selectedNode == Some(2) && !h.nodes[2].isStanding;
    var before := h.nodes;
    h.DidTap(Point(0.0, 0.0), selectNode);
    assert h.selectedNode == Some(2) && h.nodes == before;
  }

  /** Restart empties the loaded nodes and refuses a second restart until
      the cooldown block has run. */
  method RestartScenario() {
    var vc := new SceneVC();
    vc.loadedNodes := [4, 5];
    vc.RestartExperience();
    assert vc.loadedNodes == [] && !vc.isRestartAvailable;
    assert vc.GestureRecognizerShouldBegin();
    vc.loadedNodes := [6];
    vc.RestartExperience();
    assert vc.loadedNodes == [6];
    vc.RestartCooldownElapsed();
    vc.RestartExperience();
    assert vc.loadedNodes == [];
  }
}
