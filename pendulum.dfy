/** The per-frame bookkeeping of the pendulum page: the module-level state the
    draw loop mutates (body positions, sphere positions, the three-vertex arm
    line, the trail lists and the hue counter) held by one object, with the
    page's update functions as its methods. */
module Simulation {
  import opened TrailRecorder

  /** The fixed anchor, and the first vertex of the arm line. */
  const Origin := Vec(0.0, 0.0, 0.0)

  /** Where a reset puts the inner and the outer pendulum. */
  const Seed1 := Vec(-10.0, 0.0, 0.0)
  const Seed2 := Vec(-10.0, 0.0, -10.0)

  /** The trail length the page starts with (also the slider's maximum). */
  const InitialTrailLength := 150000

  /** What one call of the renderer draws: the two spheres, the arm line and
      the trail with its colours. */
  datatype Frame = Frame(sphere1: Vec, sphere2: Vec, armLine: seq<Vec>, trail: seq<Vec>, trailColors: seq<Color>)

  class Pendulum {
    /** Positions of the two physics bodies. */
    var body1: Vec
    var body2: Vec
    /** Positions of the two sphere meshes that are drawn. */
    var sphere1: Vec
    var sphere2: Vec
    /** The arm line's vertex array: anchor, inner pendulum, outer pendulum. */
    const arms: array<Vec>
    /** The hue counter and the trail length setting. */
    var trailColor: int
    var trailLength: nat
    /** The trail geometry's two parallel lists. */
    var vertices: seq<Vec>
    var colors: seq<Color>
    /** Every frame handed to the renderer so far. */
    var frames: seq<Frame>

    /** The arm line keeps three vertices with the anchor first, the hue
        counter stays in [0, 360] and the colour list is never shorter than the
        vertex list. */
    ghost predicate Valid()
      reads this, arms
    {
      arms.Length == 3 && arms[0] == Origin &&
      0 <= trailColor <= 360 &&
      |vertices| <= |colors|
    }

    /** The recorder's part of the state. */
    function TrailState(): Trail
      reads this
    {
      Trail(trailColor, vertices, colors)
    }

    /** Start-up: the bodies at their (random) start positions, the spheres at
        the origin until the first frame, the arm line through the anchor and
        both bodies, an empty trail and the hue counter at 0. */
    constructor (start1: Vec, start2: Vec)
      ensures Valid() && fresh(arms)
      ensures body1 == start1 && body2 == start2
      ensures sphere1 == Origin && sphere2 == Origin
      ensures arms[..] == [Origin, start1, start2]
      ensures trailColor == 0 && trailLength == InitialTrailLength
      ensures vertices == [] && colors == [] && frames == []
    {
      body1, body2 := start1, start2;
      sphere1, sphere2 := Origin, Origin;
      var a := new Vec[3](_ => Origin);
      a[1] := start1;
      a[2] := start2;
      arms := a;
      trailColor, trailLength := 0, InitialTrailLength;
      vertices, colors, frames := [], [], [];
    }

    /** The trail length slider (0 to 150000): a new setting only takes effect
        at the next trail update, so until then the trail may be longer. */
    method SetTrailLength(value: nat)
      requires Valid()
      requires value <= InitialTrailLength
      modifies this
      ensures Valid()
      ensures trailLength == value
      ensures TrailState() == old(TrailState())
      ensures body1 == old(body1) && body2 == old(body2)
      ensures sphere1 == old(sphere1) && sphere2 == old(sphere2) && frames == old(frames)
    {
      trailLength := value;
    }

    /** Moves the arm line's two free vertices onto the bodies; the anchor
        vertex is left as it is. */
    method UpdateArms()
      requires Valid()
      modifies arms
      ensures Valid()
      ensures arms[0] == old(arms[0]) && arms[1] == body1 && arms[2] == body2
    {
      arms[1] := body1;
      arms[2] := body2;
    }

    /** Steps the hue counter, records the outer body's position with the new
        hue's colour and cuts both lists back to the trail length. Afterwards
        the vertex list never exceeds the trail length. */
    method UpdateTrail()
      requires Valid()
      modifies this
      ensures Valid()
      ensures TrailState() == RecordSample(old(TrailState()), trailLength, body2)
      ensures |vertices| <= trailLength
      ensures trailLength == old(trailLength)
      ensures body1 == old(body1) && body2 == old(body2)
      ensures sphere1 == old(sphere1) && sphere2 == old(sphere2) && frames == old(frames)
    {
      ghost var before := TrailState();
      if trailColor > LastHueBeforeWrap {
        trailColor := 0;
      } else {
        trailColor := trailColor + 1;
      }
      assert trailColor == NextHue(before.hue);
      vertices := vertices + [body2];
      colors := colors + [Hsl(trailColor)];
      if |vertices| > trailLength {
        vertices := Splice(vertices, |vertices| - trailLength);
        colors := Splice(colors, |colors| - trailLength);
      }
      assert TrailState() == RecordSample(before, trailLength, body2);
      HueStep(before.hue);
      SampleWindow(before, trailLength, body2);
      SampleParallel(before, trailLength, body2);
    }

    /** Puts both bodies back at the seed positions, empties the vertex list
        (and only the vertex list), then redoes the arm and trail updates. With
        a trail length of at least 1 the trail then holds just the outer seed,
        while every old colour is still there. */
    method Reset()
      requires Valid()
      modifies this, arms
      ensures Valid()
      ensures body1 == Seed1 && body2 == Seed2
      ensures arms[..] == [Origin, Seed1, Seed2]
      ensures TrailState() == RecordSample(old(TrailState()).(vertices := []), trailLength, Seed2)
      ensures trailLength >= 1 ==>
        vertices == [Seed2] && colors == old(colors) + [Hsl(trailColor)]
      ensures trailLength == old(trailLength)
      ensures sphere1 == old(sphere1) && sphere2 == old(sphere2) && frames == old(frames)
    {
      ghost var before := TrailState();
      body1 := Seed1;
      body2 := Seed2;
      vertices := [];
      UpdateArms();
      UpdateTrail();
      if trailLength >= 1 {
        ResetLeavesColors(before, trailLength, Seed2);
      }
    }

    /** Hands the current scene to the renderer. */
    method Render()
      requires Valid()
      modifies this
      ensures Valid()
      ensures frames == old(frames) + [Frame(sphere1, sphere2, arms[..], vertices, colors)]
      ensures TrailState() == old(TrailState()) && trailLength == old(trailLength)
      ensures body1 == old(body1) && body2 == old(body2)
      ensures sphere1 == old(sphere1) && sphere2 == old(sphere2)
    {
      frames := frames + [Frame(sphere1, sphere2, arms[..], vertices, colors)];
    }

    /** One animation frame. The physics step is outside the model: `stepped1`
        and `stepped2` are the body positions it produced and `speed1`,
        `speed2` the bodies' velocity lengths. The spheres take the stepped
        positions, then the arms and the trail are updated. The stall test is
        modelled as the numeric comparison it is meant to be: when both speeds
        are exactly 0 a reset follows (so the trail is updated twice) before
        the frame is rendered. The rendered frame then shows the arm line at
        the seed positions but the spheres still at the stepped positions. */
    method Draw(stepped1: Vec, stepped2: Vec, speed1: real, speed2: real)
      requires Valid()
      modifies this, arms
      ensures Valid()
      ensures sphere1 == stepped1 && sphere2 == stepped2
      ensures var stalled := speed1 == 0.0 && speed2 == 0.0;
        var recorded := RecordSample(old(TrailState()), trailLength, stepped2);
        body1 == (if stalled then Seed1 else stepped1) &&
        body2 == (if stalled then Seed2 else stepped2) &&
        TrailState() == (if stalled then ResetFrame(old(TrailState()), trailLength, stepped2, Seed2)
                         else recorded) &&
        trailColor == (if stalled then NextHue(NextHue(old(trailColor))) else NextHue(old(trailColor)))
      ensures arms[..] == [Origin, body1, body2]
      ensures |vertices| <= trailLength
      ensures trailLength == old(trailLength)
      ensures frames == old(frames) + [Frame(stepped1, stepped2, [Origin, body1, body2], vertices, colors)]
    {
      body1, body2 := stepped1, stepped2;
      sphere1, sphere2 := body1, body2;
      UpdateArms();
      UpdateTrail();
      if speed1 == 0.0 && speed2 == 0.0 {
        Reset();
      }
      Render();
    }
  }

  /** Page start-up followed by the first animation frame. Whether or not that
      frame resets, the trail it shows holds exactly one vertex; after a reset
      the colour list already holds two colours for it. */
  method FirstFrame(start1: Vec, start2: Vec, stepped1: Vec, stepped2: Vec, speed1: real, speed2: real)
    returns (shown: Frame)
    ensures shown.sphere1 == stepped1 && shown.sphere2 == stepped2
    ensures shown.trail == if speed1 == 0.0 && speed2 == 0.0 then [Seed2] else [stepped2]
    ensures shown.trailColors == if speed1 == 0.0 && speed2 == 0.0 then [Hsl(1), Hsl(2)] else [Hsl(1)]
  {
    var page := new Pendulum(start1, start2);
    page.Draw(stepped1, stepped2, speed1, speed2);
    shown := page.frames[0];
  }
}
