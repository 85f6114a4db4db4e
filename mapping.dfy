/** The per-frame geometry of the nail overlay: how one detection result, the
    camera facing mode and the live viewport size determine the transform of
    the nail mesh, and how the session state evolves over a stream of
    detection callbacks and flip clicks. Everything here is a pure value;
    module NailOverlay holds the mutable objects that follow it. */
module NailMapping {

  datatype Option<+T> = None | Some(value: T)

  /** A MediaPipe landmark, normalised to the input frame (depth unused). */
  datatype Landmark = Landmark(x: real, y: real)

  /** The landmarks of one detected hand, indexed by the hand-skeleton convention. */
  type Hand = seq<Landmark>

  const WRIST: nat := 0
  const INDEX_DIP: nat := 7
  const INDEX_TIP: nat := 8
  const MIDDLE_MCP: nat := 9

  /** The two values of the camera's facing mode: 'user' (front) and 'environment' (back). */
  datatype FacingMode = User | Environment

  /** Fixed render-space constants of the overlay. */
  const Y_OFFSET: real := -0.15
  const DEPTH: real := -1.0
  const SCALE_FACTOR: real := 1.8
  /** Math.PI, written as the shortest decimal that denotes that double. */
  const PI: real := 3.141592653589793

  /** The two library functions of the platform's Math object the mapping calls. */
  datatype MathLib = MathLib(atan2: (real, real) -> real, sqrt: real -> real)

  /** What a square root promises on the non-negative reals. */
  ghost predicate IsSqrt(sqrt: real -> real)
  {
    forall v: real :: 0.0 <= v ==> 0.0 <= sqrt(v) && sqrt(v) * sqrt(v) == v
  }

  /** Position, z-rotation and uniform scale of the nail mesh. */
  datatype Pose = Pose(x: real, y: real, z: real, rotZ: real, scale: real)

  /** The whole observable transform of the nail mesh. */
  datatype Mesh = Mesh(pose: Pose, visible: bool)

  /** The state the callbacks share: the facing mode and the nail mesh. */
  datatype Session = Session(mode: FacingMode, mesh: Mesh)

  /** The two things that happen to a session: a detection callback carrying
      `multiHandLandmarks` (None when the field is absent) together with the
      viewport size read during it, and a click on the flip button. */
  datatype Event =
    | Results(hands: Option<seq<Hand>>, width: nat, height: nat)
    | FlipClick

  /** Three.js's default transform for a new mesh, made invisible before the first frame. */
  const INITIAL_MESH: Mesh := Mesh(Pose(0.0, 0.0, 0.0, 0.0, 1.0), false)
  const INITIAL_SESSION: Session := Session(User, INITIAL_MESH)

  // ---------------------------------------------------------------------------
  // The facing-mode toggle

  function Flipped(mode: FacingMode): (r: FacingMode)
    ensures r != mode
    ensures r.User? <==> mode.Environment?
  {
    if mode == User then Environment else User
  }

  lemma FlipTwiceRestores(mode: FacingMode)
    ensures Flipped(Flipped(mode)) == mode
  {
  }

  // ---------------------------------------------------------------------------
  // Landmark normaliser and transform mapper

  predicate HandPresent(hands: Option<seq<Hand>>)
  {
    hands.Some? && |hands.value| > 0
  }

  /** The first hand carries every landmark the mapping reads. */
  predicate WellFormed(hands: Option<seq<Hand>>)
  {
    HandPresent(hands) ==> |hands.value[0]| > MIDDLE_MCP
  }

  /** What the mapping needs of one event: the landmarks it indexes exist and,
      when a hand is mapped, the viewport height it divides by is positive. */
  predicate Admissible(e: Event)
  {
    e.Results? ==> WellFormed(e.hands) && (HandPresent(e.hands) ==> e.height > 0)
  }

  /** Maps a normalised coordinate of [0, 1] onto the centred range [-1, 1]. */
  function Centred(v: real): (c: real)
    ensures c == 0.0 <==> v == 0.5
    ensures -1.0 <= c <= 1.0 <==> 0.0 <= v <= 1.0
    ensures v < 0.5 <==> c < 0.0
  {
    v * 2.0 - 1.0
  }

  /** The viewport's aspect ratio, recomputed from the live size. */
  function Aspect(width: nat, height: nat): (a: real)
    requires height > 0
    ensures a * height as real == width as real
    ensures 0.0 <= a
  {
    width as real / height as real
  }

  /** Horizontal render coordinate of the fingertip: centred, mirrored for the
      front camera, stretched by the aspect ratio. */
  function RenderX(tip: Landmark, mode: FacingMode, width: nat, height: nat): (x: real)
    requires height > 0
    ensures mode == Environment ==> x * height as real == (2.0 * tip.x - 1.0) * width as real
    ensures mode == User ==> x * height as real == (1.0 - 2.0 * tip.x) * width as real
  {
    var x2d := Centred(tip.x);
    (if mode == User then -x2d else x2d) * Aspect(width, height)
  }

  /** Vertical render coordinate of the fingertip: centred, inverted, offset. */
  function RenderY(tip: Landmark): (y: real)
    ensures y - Y_OFFSET == 1.0 - 2.0 * tip.y
    ensures tip.y < 0.5 <==> y > Y_OFFSET
  {
    -Centred(tip.y) + Y_OFFSET
  }

  /** Z-rotation from the direction DIP joint -> fingertip. */
  function Rotation(math: MathLib, tip: Landmark, dip: Landmark): real
  {
    var dx := tip.x - dip.x;
    var dy := tip.y - dip.y;
    -math.atan2(dy, -dx) - PI / 2.0
  }

  /** Squared distance between two landmarks in normalised image space. */
  function SquaredSpan(a: Landmark, b: Landmark): (d: real)
    ensures 0.0 <= d
  {
    (a.x - b.x) * (a.x - b.x) + (a.y - b.y) * (a.y - b.y)
  }

  /** Wrist-to-middle-MCP distance, the hand-size reference. */
  function HandSize(math: MathLib, wrist: Landmark, mcp: Landmark): (d: real)
    ensures IsSqrt(math.sqrt) ==> 0.0 <= d && d * d == SquaredSpan(wrist, mcp)
  {
    math.sqrt(SquaredSpan(wrist, mcp))
  }

  /** Scale is 1.8 times the wrist-to-MCP distance. */
  function Scale(math: MathLib, wrist: Landmark, mcp: Landmark): (s: real)
    ensures IsSqrt(math.sqrt) ==> 0.0 <= s
  {
    HandSize(math, wrist, mcp) * SCALE_FACTOR
  }

  /** The pose the overlay takes for a detected hand. */
  function HandPose(math: MathLib, hand: Hand, mode: FacingMode, width: nat, height: nat): (p: Pose)
    requires |hand| > MIDDLE_MCP && height > 0
    ensures var x2d := 2.0 * hand[INDEX_TIP].x - 1.0;
            p.x * height as real == (if mode == User then -x2d else x2d) * width as real
    ensures p.y == 0.85 - 2.0 * hand[INDEX_TIP].y
    ensures p.z == -1.0
    ensures p.rotZ + PI / 2.0
         == -math.atan2(hand[INDEX_TIP].y - hand[INDEX_DIP].y, hand[INDEX_DIP].x - hand[INDEX_TIP].x)
    ensures IsSqrt(math.sqrt) ==>
              0.0 <= p.scale && p.scale * p.scale == 3.24 * SquaredSpan(hand[WRIST], hand[MIDDLE_MCP])
  {
    var tip := hand[INDEX_TIP];
    var dip := hand[INDEX_DIP];
    Pose(RenderX(tip, mode, width, height), RenderY(tip), DEPTH,
         Rotation(math, tip, dip), Scale(math, hand[WRIST], hand[MIDDLE_MCP]))
  }

  /** One detection callback applied to the mesh: a present hand rewrites the
      whole pose and shows the mesh; otherwise only the visibility changes. */
  function OnFrame(math: MathLib, mesh: Mesh, hands: Option<seq<Hand>>, mode: FacingMode,
                   width: nat, height: nat): (m: Mesh)
    requires WellFormed(hands) && (HandPresent(hands) ==> height > 0)
    ensures m.visible <==> HandPresent(hands)
    ensures !HandPresent(hands) ==> m.pose == mesh.pose
    ensures HandPresent(hands) ==> m.pose == HandPose(math, hands.value[0], mode, width, height)
  {
    if HandPresent(hands) then Mesh(HandPose(math, hands.value[0], mode, width, height), true)
    else mesh.(visible := false)
  }

  /** One event applied to the session. */
  function Step(math: MathLib, s: Session, e: Event): (t: Session)
    requires Admissible(e)
    ensures e.FlipClick? ==> t.mode != s.mode && t.mesh == s.mesh
    ensures e.Results? ==> t.mode == s.mode && (t.mesh.visible <==> HandPresent(e.hands))
  {
    match e
    case Results(hands, width, height) => s.(mesh := OnFrame(math, s.mesh, hands, s.mode, width, height))
    case FlipClick => s.(mode := Flipped(s.mode))
  }

  predicate AllAdmissible(events: seq<Event>)
  {
    forall i :: 0 <= i < |events| ==> Admissible(events[i])
  }

  /** The session after a sequence of events, in order. */
  function Replay(math: MathLib, s: Session, events: seq<Event>): Session
    requires AllAdmissible(events)
    decreases |events|
  {
    if events == [] then s
    else
      var last := |events| - 1;
      Step(math, Replay(math, s, events[..last]), events[last])
  }

  /** Number of flip clicks among the events. */
  function FlipCount(events: seq<Event>): nat
  {
    if events == [] then 0
    else FlipCount(events[..|events| - 1]) + (if events[|events| - 1].FlipClick? then 1 else 0)
  }

  // ---------------------------------------------------------------------------
  // Properties of a single frame

  /** The front camera gives exactly the negated x of the back camera for the
      same landmarks and viewport; nothing else in the pose depends on the mode. */
  lemma MirrorNegatesOnlyX(math: MathLib, hand: Hand, width: nat, height: nat)
    requires |hand| > MIDDLE_MCP && height > 0
    ensures HandPose(math, hand, User, width, height).x == -HandPose(math, hand, Environment, width, height).x
    ensures HandPose(math, hand, User, width, height).(x := 0.0)
         == HandPose(math, hand, Environment, width, height).(x := 0.0)
  {
  }

  /** A fingertip at the horizontal centre of the frame maps to x = 0 for
      either facing mode and any viewport. */
  lemma CentreMapsToZero(math: MathLib, hand: Hand, mode: FacingMode, width: nat, height: nat)
    requires |hand| > MIDDLE_MCP && height > 0
    ensures HandPose(math, hand, mode, width, height).x == 0.0 <==> (hand[INDEX_TIP].x == 0.5 || width == 0)
  {
  }

  /** y, z, rotation and scale do not depend on the facing mode or the
      viewport, so a resize or a flip only moves the mesh horizontally. */
  lemma ResizeChangesOnlyX(math: MathLib, hand: Hand, m1: FacingMode, w1: nat, h1: nat,
                           m2: FacingMode, w2: nat, h2: nat)
    requires |hand| > MIDDLE_MCP && h1 > 0 && h2 > 0
    ensures HandPose(math, hand, m1, w1, h1).(x := 0.0) == HandPose(math, hand, m2, w2, h2).(x := 0.0)
  {
  }

  /** The rotation depends only on the fingertip and DIP joint, not on the
      facing mode, the viewport or the other landmarks. */
  lemma RotationFromTipAndDip(math: MathLib, h1: Hand, m1: FacingMode, w1: nat, ht1: nat,
                              h2: Hand, m2: FacingMode, w2: nat, ht2: nat)
    requires |h1| > MIDDLE_MCP && ht1 > 0 && |h2| > MIDDLE_MCP && ht2 > 0
    requires h1[INDEX_TIP] == h2[INDEX_TIP] && h1[INDEX_DIP] == h2[INDEX_DIP]
    ensures HandPose(math, h1, m1, w1, ht1).rotZ == HandPose(math, h2, m2, w2, ht2).rotZ
  {
  }

  /** The rotation depends only on the direction from the DIP joint to the
      fingertip: moving both landmarks by the same offset leaves it unchanged. */
  lemma RotationTranslationInvariant(math: MathLib, tip: Landmark, dip: Landmark, ox: real, oy: real)
    ensures Rotation(math, Landmark(tip.x + ox, tip.y + oy), Landmark(dip.x + ox, dip.y + oy))
         == Rotation(math, tip, dip)
  {
  }

  /** A square root is strictly increasing on the non-negative reals. */
  lemma SqrtStrictlyIncreasing(sqrt: real -> real, u: real, v: real)
    requires IsSqrt(sqrt)
    requires 0.0 <= u < v
    ensures sqrt(u) < sqrt(v)
  {
  }

  /** Scale is never negative, and a larger hand span gives a strictly larger scale. */
  lemma ScaleStrictlyIncreasing(math: MathLib, w1: Landmark, mcp1: Landmark, w2: Landmark, mcp2: Landmark)
    requires IsSqrt(math.sqrt)
    requires SquaredSpan(w1, mcp1) < SquaredSpan(w2, mcp2)
    ensures 0.0 <= Scale(math, w1, mcp1) < Scale(math, w2, mcp2)
  {
    SqrtStrictlyIncreasing(math.sqrt, SquaredSpan(w1, mcp1), SquaredSpan(w2, mcp2));
  }

  // ---------------------------------------------------------------------------
  // Properties over a stream of events

  /** A callback that carries a hand recomputes the whole pose from that hand
      and the session's own facing mode: x is mirrored exactly when the session
      is on the front camera, y comes from the fingertip, and the pose the mesh
      had before the callback plays no part. */
  lemma FrameWithHandUsesSessionMode(math: MathLib, s: Session, e: Event, m: Mesh)
    requires e.Results? && Admissible(e) && HandPresent(e.hands)
    ensures var tip := e.hands.value[0][INDEX_TIP];
            var x2d := 2.0 * tip.x - 1.0;
            var t := Step(math, s, e);
            t.mesh.pose.x * e.height as real == (if s.mode == User then -x2d else x2d) * e.width as real
            && t.mesh.pose.y == 0.85 - 2.0 * tip.y
            && t.mesh.pose.z == -1.0
    ensures Step(math, s.(mesh := m), e).mesh == Step(math, s, e).mesh
  {
  }

  /** From start-up (front camera), a frame with a hand that follows any stream
      of events is mirrored exactly when the flip button has been clicked an
      even number of times. */
  lemma {:induction false} MirroringFollowsFlipParity(math: MathLib, events: seq<Event>, frame: Event)
    requires AllAdmissible(events) && frame.Results? && Admissible(frame) && HandPresent(frame.hands)
    ensures AllAdmissible(events + [frame])
    ensures var x2d := 2.0 * frame.hands.value[0][INDEX_TIP].x - 1.0;
            Replay(math, INITIAL_SESSION, events + [frame]).mesh.pose.x * frame.height as real
            == (if FlipCount(events) % 2 == 0 then -x2d else x2d) * frame.width as real
  {
    var all := events + [frame];
    assert AllAdmissible(all) by {
      forall i | 0 <= i < |all| ensures Admissible(all[i]) {
        if i < |events| { assert all[i] == events[i]; }
      }
    }
    assert all[..|all| - 1] == events;
    var before := Replay(math, INITIAL_SESSION, events);
    ModeFollowsFlipParity(math, INITIAL_SESSION, events);
    FrameWithHandUsesSessionMode(math, before, frame, before.mesh);
  }

  /** Flipping twice between two frames restores the original mode and hence
      the original x mapping. */
  lemma FlipTwiceRestoresMapping(math: MathLib, s: Session, events: seq<Event>)
    requires AllAdmissible(events)
    ensures AllAdmissible(events + [FlipClick, FlipClick])
    ensures Replay(math, s, events + [FlipClick, FlipClick]) == Replay(math, s, events)
  {
    var e1 := events + [FlipClick];
    var e2 := e1 + [FlipClick];
    assert e2 == events + [FlipClick, FlipClick];
    assert e2[..|e2| - 1] == e1;
    assert e1[..|e1| - 1] == events;
  }

  /** The facing mode after a stream of events is the starting mode when the
      flip button was clicked an even number of times, and the other one
      otherwise. */
  lemma {:induction false} ModeFollowsFlipParity(math: MathLib, s: Session, events: seq<Event>)
    requires AllAdmissible(events)
    ensures Replay(math, s, events).mode == if FlipCount(events) % 2 == 0 then s.mode else Flipped(s.mode)
  {
    if events != [] {
      ModeFollowsFlipParity(math, s, events[..|events| - 1]);
    }
  }

  /** While no hand is detected the mesh stays hidden and keeps its previous
      position, rotation and scale, however many frames and flips pass. */
  lemma {:induction false} NoHandKeepsPose(math: MathLib, s: Session, events: seq<Event>)
    requires AllAdmissible(events)
    requires forall i :: 0 <= i < |events| ==> !(events[i].Results? && HandPresent(events[i].hands))
    ensures Replay(math, s, events).mesh.pose == s.mesh.pose
    ensures (exists i :: 0 <= i < |events| && events[i].Results?) ==> !Replay(math, s, events).mesh.visible
  {
    if events != [] {
      var last := |events| - 1;
      NoHandKeepsPose(math, s, events[..last]);
      if events[last].FlipClick? {
        if exists i :: 0 <= i < |events| && events[i].Results? {
          var i :| 0 <= i < |events| && events[i].Results?;
          assert events[..last][i].Results?;
        }
      }
    }
  }

  /** Visibility has no delay and no hysteresis: after a detection callback,
      and any flips that follow it, the mesh is visible exactly when that
      callback carried a hand. */
  lemma {:induction false} VisibilityFollowsLatestFrame(math: MathLib, s: Session, before: seq<Event>,
                                                         frame: Event, flips: seq<Event>)
    requires AllAdmissible(before) && frame.Results? && Admissible(frame)
    requires forall i :: 0 <= i < |flips| ==> flips[i].FlipClick?
    ensures AllAdmissible(before + [frame] + flips)
    ensures Replay(math, s, before + [frame] + flips).mesh.visible <==> HandPresent(frame.hands)
  {
    var all := before + [frame] + flips;
    assert AllAdmissible(all) by {
      forall i | 0 <= i < |all| ensures Admissible(all[i]) {
        if i < |before| { assert all[i] == before[i]; }
        else if i > |before| { assert all[i] == flips[i - |before| - 1]; }
      }
    }
    if flips == [] {
      assert all[..|all| - 1] == before;
    } else {
      var last := |flips| - 1;
      assert all[..|all| - 1] == before + [frame] + flips[..last];
      VisibilityFollowsLatestFrame(math, s, before, frame, flips[..last]);
    }
  }

  // ---------------------------------------------------------------------------
  // Worked scenarios

  /** A hand whose landmarks are all at `rest` except the four the mapping reads. */
  function ScenarioHand(wrist: Landmark, dip: Landmark, tip: Landmark, mcp: Landmark, rest: Landmark): (h: Hand)
    ensures |h| == 21 && h[WRIST] == wrist && h[INDEX_DIP] == dip && h[INDEX_TIP] == tip && h[MIDDLE_MCP] == mcp
  {
    [wrist] + seq(6, _ => rest) + [dip, tip, mcp] + seq(11, _ => rest)
  }

  /** Fingertip (0.75, 0.25) on a square viewport: x = -0.5 with the front
      camera, +0.5 with the back camera, y = 0.5 - 0.15 either way. */
  lemma SquareViewportScenario(math: MathLib)
    ensures var h := ScenarioHand(Landmark(0.5, 0.5), Landmark(0.70, 0.30), Landmark(0.75, 0.25),
                                  Landmark(0.55, 0.4), Landmark(0.5, 0.5));
            HandPose(math, h, User, 1000, 1000).x == -0.5
            && HandPose(math, h, Environment, 1000, 1000).x == 0.5
            && HandPose(math, h, User, 1000, 1000).y == 0.35
            && HandPose(math, h, Environment, 1000, 1000).y == 0.35
  {
  }

  /** Rotating the viewport from 1280x720 to 720x1280 moves an off-centre
      fingertip horizontally and leaves y unchanged. */
  lemma RotatedViewportScenario(math: MathLib, mode: FacingMode)
    ensures var h := ScenarioHand(Landmark(0.5, 0.5), Landmark(0.70, 0.30), Landmark(0.75, 0.25),
                                  Landmark(0.55, 0.4), Landmark(0.5, 0.5));
            HandPose(math, h, mode, 1280, 720).x != HandPose(math, h, mode, 720, 1280).x
            && HandPose(math, h, mode, 1280, 720).y == HandPose(math, h, mode, 720, 1280).y
  {
  }
}
