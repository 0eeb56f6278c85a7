/** The trail recorder of the pendulum page, as pure functions over values.
    Each frame the recorder steps a hue counter, appends the outer pendulum's
    position and a colour to two parallel lists, and cuts both lists back to the
    configured trail length with `splice(0, len - trailLength)`. */
module TrailRecorder {

  /** A 3-vector as the physics library reports it. The model never computes
      with coordinates; it only copies them. */
  datatype Vec = Vec(x: real, y: real, z: real)

  /** The colour `hsl(hue, 100%, 50%)` that the recorder builds for a sample,
      recorded by the counter value it was built from. It names the counter
      value, not a distinct colour: hue 360 and hue 0 are the same red on
      screen, so the 361 counter values give 360 colours. */
  datatype Color = Hsl(hue: int)

  /** The largest hue the counter steps up from; above it the counter wraps. */
  const LastHueBeforeWrap := 359

  /** Number of distinct values the counter visits from 0: 0, 1, ..., 360. */
  const HuePeriod := 361

  /** One step of the hue counter: above 359 it goes back to 0, otherwise it
      counts up by one. */
  function NextHue(h: int): int
  {
    if h > LastHueBeforeWrap then 0 else h + 1
  }

  /** `s.splice(0, deleteCount)` on a JavaScript array, returning what is left in
      the array: the count is clamped to [0, |s|] and that many leading elements
      are removed. */
  function Splice<T>(s: seq<T>, deleteCount: int): (r: seq<T>)
    ensures deleteCount <= 0 ==> r == s
    ensures deleteCount >= |s| ==> r == []
    ensures 0 <= deleteCount <= |s| ==> |r| == |s| - deleteCount && s == s[..deleteCount] + r
  {
    if deleteCount <= 0 then s
    else if deleteCount >= |s| then []
    else s[deleteCount..]
  }

  /** Reference definition of a sliding window: the most recent `n` entries of
      a history, or all of it when it is shorter. */
  function LastN<T>(s: seq<T>, n: nat): (r: seq<T>)
    ensures |r| == if n < |s| then n else |s|
    ensures r == s[|s| - |r|..]
  {
    if n < |s| then s[|s| - n..] else s
  }

  /** The recorder's state: the hue counter and the two lists that the trail
      geometry holds (`vertices` and `colors`). */
  datatype Trail = Trail(hue: int, vertices: seq<Vec>, colors: seq<Color>)

  /** One call of the recorder with trail length `limit` while the outer
      pendulum is at `p`. The colour list is cut by its own length, under the
      test on the vertex list's length. */
  function RecordSample(t: Trail, limit: nat, p: Vec): Trail
  {
    var hue := NextHue(t.hue);
    var vs := t.vertices + [p];
    var cs := t.colors + [Hsl(hue)];
    if |vs| > limit then
      Trail(hue, Splice(vs, |vs| - limit), Splice(cs, |cs| - limit))
    else
      Trail(hue, vs, cs)
  }

  /** The recorder called once per sample of `samples`, in order. */
  function Replay(t: Trail, limit: nat, samples: seq<Vec>): Trail
    decreases |samples|
  {
    if samples == [] then t
    else Replay(RecordSample(t, limit, samples[0]), limit, samples[1..])
  }

  /** The recorder's part of a frame that resets: one sample at the stepped
      position `p`, then the vertex list (and only that list) is emptied and a
      second sample is taken at the seed position. */
  function ResetFrame(t: Trail, limit: nat, p: Vec, seed: Vec): Trail
  {
    RecordSample(RecordSample(t, limit, p).(vertices := []), limit, seed)
  }

  /** A run of frames that all reset, one per stepped position. */
  function ReplayResets(t: Trail, limit: nat, stepped: seq<Vec>, seed: Vec): Trail
    decreases |stepped|
  {
    if stepped == [] then t
    else ReplayResets(ResetFrame(t, limit, stepped[0], seed), limit, stepped[1..], seed)
  }

  // ---------------------------------------------------------------------------
  // The hue counter

  /** Inside [0, 360] the counter is addition modulo 361: it stays in range, it
      reaches 360, and only from 360 does it wrap to 0. */
  lemma HueStep(h: int)
    requires 0 <= h <= 360
    ensures 0 <= NextHue(h) <= 360
    ensures NextHue(h) == (h + 1) % HuePeriod
    ensures NextHue(h) == 0 <==> h == 360
  {
  }

  /** Started anywhere in [0, 360], after `n` samples the counter stands at
      (start + n) mod 361; from the initial value 0 it is n mod 361, so it shows
      360 after 360 samples and 0 after 361. */
  lemma {:induction false} ReplayHue(t: Trail, limit: nat, samples: seq<Vec>)
    requires 0 <= t.hue <= 360
    ensures Replay(t, limit, samples).hue == (t.hue + |samples|) % HuePeriod
    decreases |samples|
  {
    if samples != [] {
      var next := RecordSample(t, limit, samples[0]);
      var rest := samples[1..];
      SampleHue(t, limit, samples[0]);
      HueStep(t.hue);
      calc {
        Replay(t, limit, samples).hue;
        Replay(next, limit, rest).hue;
        { ReplayHue(next, limit, rest); }
        (next.hue + |rest|) % HuePeriod;
        ((t.hue + 1) % HuePeriod + |rest|) % HuePeriod;
        { ModAddOne(t.hue, |rest|); }
        (t.hue + |samples|) % HuePeriod;
      }
    }
  }

  /** A sample steps the counter once, whatever the trail length. */
  lemma SampleHue(t: Trail, limit: nat, p: Vec)
    ensures RecordSample(t, limit, p).hue == NextHue(t.hue)
  {
  }

  /** ((h + 1) mod 361 + k) mod 361 == (h + 1 + k) mod 361 for h in [0, 360]. */
  lemma ModAddOne(h: int, k: nat)
    requires 0 <= h <= 360
    ensures ((h + 1) % HuePeriod + k) % HuePeriod == (h + 1 + k) % HuePeriod
  {
  }

  // ---------------------------------------------------------------------------
  // One sample

  /** The colour appended by a sample is built from the counter AFTER that
      sample's step, never from the value it had before; when the trail keeps
      at least one entry that colour is the last one. */
  lemma SampleColor(t: Trail, limit: nat, p: Vec)
    requires limit >= 1
    ensures var r := RecordSample(t, limit, p);
      r.hue == NextHue(t.hue) && r.hue != t.hue &&
      |r.colors| > 0 && r.colors[|r.colors| - 1] == Hsl(r.hue)
  {
  }

  /** After a sample the vertex list is the most recent `limit` entries of the
      old list followed by `p`: its length is min(old length + 1, limit), the
      oldest entries go first, and `p` is the last entry whenever limit >= 1. */
  lemma SampleWindow(t: Trail, limit: nat, p: Vec)
    ensures var r := RecordSample(t, limit, p);
      r.vertices == LastN(t.vertices + [p], limit) &&
      |r.vertices| == (if |t.vertices| + 1 < limit then |t.vertices| + 1 else limit) &&
      |r.vertices| <= limit &&
      (limit >= 1 ==> r.vertices[|r.vertices| - 1] == p)
  {
  }

  /** With the slider at its minimum of 0 a sample leaves both lists empty,
      whatever they held before. */
  lemma SampleZeroLimit(t: Trail, p: Vec)
    ensures RecordSample(t, 0, p).vertices == [] && RecordSample(t, 0, p).colors == []
  {
  }

  /** The colour list is cut to its own last `limit` entries exactly when the
      vertex list overflows, and is otherwise only appended to: it is never
      bounded by `limit` on its own account. */
  lemma SampleColorsCut(t: Trail, limit: nat, p: Vec)
    ensures var r := RecordSample(t, limit, p);
      var cs := t.colors + [Hsl(r.hue)];
      r.colors == if |t.vertices| >= limit then LastN(cs, limit) else cs
  {
  }

  /** A sample keeps the colour list at least as long as the vertex list, and a
      sample that cuts the vertex list brings the two back to the same length. */
  lemma SampleParallel(t: Trail, limit: nat, p: Vec)
    requires |t.vertices| <= |t.colors|
    ensures var r := RecordSample(t, limit, p);
      |r.vertices| <= |r.colors| &&
      (|t.vertices| >= limit ==> |r.vertices| == |r.colors| == limit) &&
      (|t.vertices| < limit ==> |r.colors| - |r.vertices| == |t.colors| - |t.vertices|)
  {
    SampleWindow(t, limit, p);
    SampleColorsCut(t, limit, p);
  }

  /** Clearing only the vertex list and then sampling leaves exactly one
      vertex, while the colour list keeps every old colour: the two lists drift
      apart, and the colour paired with the new vertex is the oldest one kept,
      not the colour just built. */
  lemma ResetLeavesColors(t: Trail, limit: nat, p: Vec)
    requires limit >= 1
    ensures var r := RecordSample(t.(vertices := []), limit, p);
      r.vertices == [p] &&
      r.colors == t.colors + [Hsl(NextHue(t.hue))] &&
      (t.colors != [] ==> |r.colors| > |r.vertices| && r.colors[0] == t.colors[0])
  {
  }

  // ---------------------------------------------------------------------------
  // Many samples

  /** Windowing twice is windowing once: the last `n` of (last `n` of a) ++ b
      are the last `n` of a ++ b. */
  lemma LastNAbsorb<T>(a: seq<T>, b: seq<T>, n: nat)
    ensures LastN(LastN(a, n) + b, n) == LastN(a + b, n)
  {
    if n < |a| {
      var ab := a + b;
      var c := LastN(a, n) + b;
      assert c == ab[|a| - n..];
      assert LastN(c, n) == c[|b|..];
      assert c[|b|..] == ab[|ab| - n..];
    }
  }

  /** After any non-empty run of samples the vertex list is the most recent
      `limit` positions of the whole history: the old list followed by every
      sample. In particular it never holds more than `limit` entries. */
  lemma {:induction false} ReplayWindow(t: Trail, limit: nat, samples: seq<Vec>)
    requires samples != []
    ensures Replay(t, limit, samples).vertices == LastN(t.vertices + samples, limit)
    ensures |Replay(t, limit, samples).vertices| <= limit
    decreases |samples|
  {
    var next := RecordSample(t, limit, samples[0]);
    var rest := samples[1..];
    var history := t.vertices + [samples[0]];
    SampleWindow(t, limit, samples[0]);
    if rest == [] {
      assert samples == [samples[0]];
    } else {
      calc {
        Replay(t, limit, samples).vertices;
        Replay(next, limit, rest).vertices;
        { ReplayWindow(next, limit, rest); }
        LastN(next.vertices + rest, limit);
        LastN(LastN(history, limit) + rest, limit);
        { LastNAbsorb(history, rest, limit); }
        LastN(history + rest, limit);
        { assert history + rest == t.vertices + samples; }
        LastN(t.vertices + samples, limit);
      }
    }
  }

  /** Over any run of samples the colour list stays at least as long as the
      vertex list. */
  lemma {:induction false} ReplayParallel(t: Trail, limit: nat, samples: seq<Vec>)
    requires |t.vertices| <= |t.colors|
    ensures |Replay(t, limit, samples).vertices| <= |Replay(t, limit, samples).colors|
    decreases |samples|
  {
    if samples != [] {
      SampleParallel(t, limit, samples[0]);
      ReplayParallel(RecordSample(t, limit, samples[0]), limit, samples[1..]);
    }
  }

  /** With a trail length of at least 2, a frame that resets while the vertex
      list holds at most one entry cuts nothing: it leaves just the seed as
      vertex and adds two colours. */
  lemma ResetFrameGrowsColors(t: Trail, limit: nat, p: Vec, seed: Vec)
    requires limit >= 2 && |t.vertices| <= 1
    ensures ResetFrame(t, limit, p, seed).vertices == [seed]
    ensures |ResetFrame(t, limit, p, seed).colors| == |t.colors| + 2
  {
  }

  /** Frames that keep resetting leave one vertex but grow the colour list by
      two per frame without bound, past any trail length of at least 2: the
      cost of emptying only the vertex list. */
  lemma {:induction false} ReplayResetsGrowColors(t: Trail, limit: nat, stepped: seq<Vec>, seed: Vec)
    requires limit >= 2 && |t.vertices| <= 1
    ensures |ReplayResets(t, limit, stepped, seed).colors| == |t.colors| + 2 * |stepped|
    ensures stepped != [] ==> ReplayResets(t, limit, stepped, seed).vertices == [seed]
    decreases |stepped|
  {
    if stepped != [] {
      var next := ResetFrame(t, limit, stepped[0], seed);
      ResetFrameGrowsColors(t, limit, stepped[0], seed);
      ReplayResetsGrowColors(next, limit, stepped[1..], seed);
    }
  }
}
