/** The mutable side of the overlay: the Three.js nail mesh whose fields the
    detection callback writes in place, and the session that owns it together
    with the facing mode the flip button toggles. Each method is proved to
    move the state exactly as NailMapping.Step says. */
module NailOverlay {
  import opened NailMapping

  /** The nail mesh's transform: position, z-rotation, uniform scale and visibility. */
  class NailMesh {
    var posX: real
    var posY: real
    var posZ: real
    var rotZ: real
    var scale: real
    var visible: bool

    /** A new mesh starts at the origin, unrotated, at scale 1 and visible. */
    constructor ()
      ensures Transform() == Mesh(Pose(0.0, 0.0, 0.0, 0.0, 1.0), true)
    {
      posX, posY, posZ := 0.0, 0.0, 0.0;
      rotZ := 0.0;
      scale := 1.0;
      visible := true;
    }

    function Transform(): Mesh
      reads this
    {
      Mesh(Pose(posX, posY, posZ, rotZ, scale), visible)
    }
  }

  /** The application state shared by the detection callback and the flip button. */
  class Overlay {
    var facingMode: FacingMode
    const nailMesh: NailMesh
    /** The platform's Math functions the mapping calls. */
    const math: MathLib

    /** Start-up: front camera, and a fresh mesh hidden until a hand is seen. */
    constructor (math: MathLib)
      ensures this.math == math && fresh(nailMesh)
      ensures State() == INITIAL_SESSION
    {
      this.math := math;
      facingMode := User;
      var mesh := new NailMesh();
      mesh.visible := false;
      nailMesh := mesh;
    }

    function State(): Session
      reads this, nailMesh
    {
      Session(facingMode, nailMesh.Transform())
    }

    /** The detection callback. With a hand present it maps the first hand's
        fingertip, DIP joint, wrist and middle MCP into the mesh transform and
        shows the mesh; otherwise it only hides the mesh. */
    method OnResults(hands: Option<seq<Hand>>, width: nat, height: nat)
      requires WellFormed(hands) && (HandPresent(hands) ==> height > 0)
      modifies nailMesh
      ensures State() == Step(math, old(State()), Results(hands, width, height))
      ensures facingMode == old(facingMode)
      ensures nailMesh.visible <==> HandPresent(hands)
      ensures !HandPresent(hands) ==> old(nailMesh.Transform()).pose == nailMesh.Transform().pose
      ensures HandPresent(hands) ==> nailMesh.posZ == DEPTH && nailMesh.posY == RenderY(hands.value[0][INDEX_TIP])
    {
      if hands.Some? && |hands.value| > 0 {
        var landmarks := hands.value[0];
        var tip := landmarks[INDEX_TIP];
        var dip := landmarks[INDEX_DIP];

        var x2d := tip.x * 2.0 - 1.0;
        var y2d := -(tip.y * 2.0 - 1.0);
        if facingMode == User {
          x2d := -x2d;
        }
        var aspect := width as real / height as real;
        var yOffset := -0.15;
        nailMesh.posX, nailMesh.posY, nailMesh.posZ := x2d * aspect, y2d + yOffset, -1.0;

        var dx := tip.x - dip.x;
        var dy := tip.y - dip.y;
        var angle := math.atan2(dy, -dx);
        nailMesh.rotZ := -angle - PI / 2.0;

        var wrist, mcp := landmarks[WRIST], landmarks[MIDDLE_MCP];
        var span := (wrist.x - mcp.x) * (wrist.x - mcp.x) + (wrist.y - mcp.y) * (wrist.y - mcp.y);
        assert span == SquaredSpan(wrist, mcp);
        var handSize := math.sqrt(span);
        nailMesh.scale := handSize * 1.8;
        nailMesh.visible := true;
      } else {
        nailMesh.visible := false;
      }
    }

    /** The flip button's click handler: switch to the other camera. */
    method Flip()
      modifies this
      ensures State() == Step(math, old(State()), FlipClick)
      ensures facingMode != old(facingMode)
      ensures unchanged(nailMesh)
    {
      facingMode := if facingMode == User then Environment else User;
    }
  }

  /** A session as a client sees it: the same landmarks before and after a
      flip land on mirror-image x positions, and a lost hand hides the mesh
      where it last was. */
  method MirrorScenario(math: MathLib, hand: Hand)
    requires |hand| > MIDDLE_MCP && hand[INDEX_TIP].x == 0.75
  {
    var overlay := new Overlay(math);
    overlay.OnResults(Some([hand]), 1000, 1000);
    assert overlay.nailMesh.visible && overlay.nailMesh.posX == -0.5;
    overlay.Flip();
    overlay.OnResults(Some([hand]), 1000, 1000);
    assert overlay.nailMesh.visible && overlay.nailMesh.posX == 0.5;
    overlay.OnResults(Some([]), 1000, 1000);
    assert !overlay.nailMesh.visible && overlay.nailMesh.posX == 0.5;
    overlay.OnResults(None, 0, 0);
    assert !overlay.nailMesh.visible && overlay.facingMode == Environment;
  }
}
