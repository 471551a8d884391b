/** The animation part of the frame driver: a counter that advances the sprite's
    frame index every `frameDelay` rendered frames, wrapping at the number of
    frames of the animation, and the byte offset of the current frame inside the
    buffer that holds every decoded frame one after another (four bytes per
    pixel). The renderer is handed that offset; here it is only exposed. */
module FrameDriver {

  /** Largest value of a 32-bit signed C `int`. */
  const IntMax: int := 0x7FFF_FFFF

  /** Bytes per pixel of the decoded animation (8-bit RGBA). */
  const BytesPerPixel: int := 4

  /** The fixed parameters of the animation: frames to wait between advances,
      number of frames, and the size of one frame in pixels. */
  datatype AnimConfig = AnimConfig(frameDelay: int, animFrames: int, width: int, height: int)

  /** The counters the driver updates every rendered frame. */
  datatype AnimState = AnimState(frameCounter: int, currentAnimFrame: int, nextFrameDataOffset: int)

  /** The counters before the first frame. */
  const Start: AnimState := AnimState(0, 0, 0)

  /** Bytes of one frame in the decoded buffer. */
  function FrameBytes(c: AnimConfig): int
  {
    c.width * c.height * BytesPerPixel
  }

  /** Bytes of the whole decoded buffer. */
  function BufferBytes(c: AnimConfig): int
  {
    FrameBytes(c) * c.animFrames
  }

  /** Sensible parameters: a positive delay and frame count, a non-negative
      frame size, and a buffer small enough that no offset computed in C
      `int` arithmetic can overflow. */
  predicate ValidConfig(c: AnimConfig)
  {
    && c.frameDelay >= 1
    && c.animFrames >= 1
    && c.width >= 0
    && c.height >= 0
    && BufferBytes(c) <= IntMax
  }

  /** The invariant the driver keeps: both counters in range and the offset
      pointing at the start of the current frame. */
  predicate Inv(c: AnimConfig, s: AnimState)
  {
    && 0 <= s.frameCounter < c.frameDelay
    && 0 <= s.currentAnimFrame < c.animFrames
    && s.nextFrameDataOffset == FrameBytes(c) * s.currentAnimFrame
  }

  /** One rendered frame of the animation counters. */
  function Tick(c: AnimConfig, s: AnimState): (r: AnimState)
    ensures r.frameCounter == 0 || r.frameCounter == s.frameCounter + 1
    ensures r.frameCounter != 0 ==> r.currentAnimFrame == s.currentAnimFrame
  {
    var counter := s.frameCounter + 1;
    if counter >= c.frameDelay then
      var index := if s.currentAnimFrame + 1 >= c.animFrames then 0 else s.currentAnimFrame + 1;
      AnimState(0, index, FrameBytes(c) * index)
    else
      s.(frameCounter := counter)
  }

  /** The counters after `n` rendered frames. */
  function RunTicks(c: AnimConfig, s: AnimState, n: nat): AnimState
  {
    if n == 0 then s else Tick(c, RunTicks(c, s, n - 1))
  }

  /** The counters `m * frameDelay + j` frames after the start, as the closed form
      of the driver: the frame index is `m` modulo the frame count. */
  function AfterFrames(c: AnimConfig, m: nat, j: int): AnimState
    requires c.animFrames >= 1
  {
    AnimState(j, m % c.animFrames, FrameBytes(c) * (m % c.animFrames))
  }

  /** The initial counters satisfy the invariant. */
  lemma StartIsValid(c: AnimConfig)
    requires ValidConfig(c)
    ensures Inv(c, Start)
  {
  }

  /** `n` modulo `d` is determined by any decomposition `n == q * d + r` with `0 <= r < d`. */
  lemma ModOfDecomposition(n: int, d: int, q: int, r: int)
    requires d >= 1 && 0 <= r < d && n == q * d + r
    ensures n % d == r && n / d == q
  {
    var k := q - n / d;
    assert k * d == n % d - r;
    MultipleBound(k, d);
  }

  /** A non-zero multiple of a positive `d` is at least `d` away from zero. */
  lemma MultipleBound(k: int, d: int)
    requires d >= 1
    ensures k >= 1 ==> k * d >= d
    ensures k <= -1 ==> k * d <= -d
  {
  }

  /** Advancing an index modulo `k` by one. */
  lemma ModSuccessor(m: nat, k: int)
    requires k >= 1
    ensures (m % k + 1) % k == (m + 1) % k
  {
    var q, r := m / k, m % k;
    if r + 1 < k {
      ModOfDecomposition(m + 1, k, q, r + 1);
      ModOfDecomposition(r + 1, k, 0, r + 1);
    } else {
      assert m + 1 == (q + 1) * k;
      ModOfDecomposition(m + 1, k, q + 1, 0);
      ModOfDecomposition(r + 1, k, 1, 0);
    }
  }

  /** One tick keeps the invariant; the counter counts modulo `frameDelay`;
      the index advances by exactly one modulo `animFrames` on the tick where
      the counter reaches `frameDelay`, and stays put on every other tick. */
  lemma TickKeepsInv(c: AnimConfig, s: AnimState)
    requires ValidConfig(c) && Inv(c, s)
    ensures Inv(c, Tick(c, s))
    ensures Tick(c, s).frameCounter == (s.frameCounter + 1) % c.frameDelay
    ensures Tick(c, s).currentAnimFrame ==
      if s.frameCounter + 1 == c.frameDelay then (s.currentAnimFrame + 1) % c.animFrames
      else s.currentAnimFrame
  {
    if s.frameCounter + 1 == c.frameDelay {
      ModOfDecomposition(s.frameCounter + 1, c.frameDelay, 1, 0);
      if s.currentAnimFrame + 1 == c.animFrames {
        ModOfDecomposition(s.currentAnimFrame + 1, c.animFrames, 1, 0);
      } else {
        ModOfDecomposition(s.currentAnimFrame + 1, c.animFrames, 0, s.currentAnimFrame + 1);
      }
    } else {
      ModOfDecomposition(s.frameCounter + 1, c.frameDelay, 0, s.frameCounter + 1);
    }
  }

  /** The slice of the current frame lies inside the decoded buffer, so the
      offset also fits in a 32-bit signed `int` (the bound on the buffer size
      is part of `ValidConfig` and is repeated here for the caller). */
  lemma FrameSliceInBuffer(c: AnimConfig, s: AnimState)
    requires ValidConfig(c) && Inv(c, s)
    ensures 0 <= s.nextFrameDataOffset
    ensures s.nextFrameDataOffset + FrameBytes(c) <= BufferBytes(c) <= IntMax
  {
    var f, k, n := FrameBytes(c), s.currentAnimFrame, c.animFrames;
    NonNegativeProduct(c.width, c.height);
    assert f >= 0;
    NonNegativeProduct(f, k);
    NonNegativeProduct(f, n - (k + 1));
    assert f * n - f * (k + 1) == f * (n - (k + 1));
    assert f * k + f == f * (k + 1);
  }

  /** The product of two non-negative numbers is non-negative. */
  lemma NonNegativeProduct(x: int, y: int)
    requires x >= 0 && y >= 0
    ensures x * y >= 0
  {
  }

  /** Ticks compose: running `a` and then `b` frames is running `a + b`. */
  lemma {:induction false} RunTicksAdd(c: AnimConfig, s: AnimState, a: nat, b: nat)
    ensures RunTicks(c, s, a + b) == RunTicks(c, RunTicks(c, s, a), b)
    decreases b
  {
    if b > 0 {
      RunTicksAdd(c, s, a, b - 1);
    }
  }

  /** Within one period, starting with the counter at zero: for `j < frameDelay`
      ticks only the counter moves, to `j`; after exactly `frameDelay` ticks the
      counter is zero again and the index has advanced by one, modulo the frame
      count, with the offset pointing at the new frame. */
  lemma {:induction false} Period(c: AnimConfig, s: AnimState, j: nat)
    requires ValidConfig(c) && Inv(c, s) && s.frameCounter == 0
    requires j <= c.frameDelay
    ensures j < c.frameDelay ==> RunTicks(c, s, j) == s.(frameCounter := j)
    ensures j == c.frameDelay ==>
      var k := (s.currentAnimFrame + 1) % c.animFrames;
      RunTicks(c, s, j) == AnimState(0, k, FrameBytes(c) * k)
  {
    if j > 0 {
      Period(c, s, j - 1);
      TickKeepsInv(c, s.(frameCounter := j - 1));
    }
  }

  /** Closed form from the start: after `m * frameDelay + j` frames, with
      `j < frameDelay`, the counter is `j` and the index is `m` modulo the
      number of frames. */
  lemma {:induction false} TicksFromStart(c: AnimConfig, m: nat, j: nat)
    requires ValidConfig(c) && j < c.frameDelay
    ensures RunTicks(c, Start, m * c.frameDelay + j) == AfterFrames(c, m, j)
  {
    var d := c.frameDelay;
    if m == 0 {
      assert AfterFrames(c, 0, 0) == Start;
      Period(c, Start, j);
    } else {
      TicksFromStart(c, m - 1, 0);
      var s := RunTicks(c, Start, (m - 1) * d);
      assert s == AfterFrames(c, m - 1, 0);
      assert m * d + j == (m - 1) * d + d + j;
      RunTicksAdd(c, Start, (m - 1) * d, d + j);
      RunTicksAdd(c, s, d, j);
      Period(c, s, d);
      ModSuccessor(m - 1, c.animFrames);
      var t := RunTicks(c, s, d);
      assert t == AfterFrames(c, m, 0);
      Period(c, t, j);
    }
  }

  /** The counter after `n` frames from the start is `n` modulo `frameDelay`, and
      the index is the number of completed delays modulo the frame count. */
  lemma CountersAfter(c: AnimConfig, n: nat)
    requires ValidConfig(c)
    ensures RunTicks(c, Start, n).frameCounter == n % c.frameDelay
    ensures RunTicks(c, Start, n).currentAnimFrame == (n / c.frameDelay) % c.animFrames
  {
    var m, j := n / c.frameDelay, n % c.frameDelay;
    assert n == m * c.frameDelay + j;
    TicksFromStart(c, m, j);
  }

  /** The animation counters of the main loop, updated in place. */
  class Animation {
    const config: AnimConfig
    var frameCounter: int
    var currentAnimFrame: int
    var nextFrameDataOffset: int

    function State(): AnimState
      reads this
    {
      AnimState(frameCounter, currentAnimFrame, nextFrameDataOffset)
    }

    ghost predicate Valid()
      reads this
    {
      ValidConfig(config) && Inv(config, State())
    }

    /** The counters before the first frame. */
    constructor (config: AnimConfig)
      ensures this.config == config && State() == Start
      ensures ValidConfig(config) ==> Valid()
    {
      this.config := config;
      frameCounter := 0;
      currentAnimFrame := 0;
      nextFrameDataOffset := 0;
    }

    /** One rendered frame; returns whether the texture is to be refreshed from
        the buffer at `nextFrameDataOffset`. */
    method Update() returns (textureUpdated: bool)
      modifies this
      ensures State() == Tick(config, old(State()))
      ensures textureUpdated <==> old(frameCounter) + 1 >= config.frameDelay
      ensures old(Valid()) ==> Valid()
      ensures old(Valid()) ==>
        && 0 <= nextFrameDataOffset
        && nextFrameDataOffset + FrameBytes(config) <= BufferBytes(config)
    {
      ghost var before := State();
      frameCounter := frameCounter + 1;
      textureUpdated := false;
      if frameCounter >= config.frameDelay {
        currentAnimFrame := currentAnimFrame + 1;
        if currentAnimFrame >= config.animFrames {
          currentAnimFrame := 0;
        }
        nextFrameDataOffset := config.width * config.height * BytesPerPixel * currentAnimFrame;
        textureUpdated := true;
        frameCounter := 0;
      }
      if ValidConfig(config) && Inv(config, before) {
        TickKeepsInv(config, before);
        FrameSliceInBuffer(config, State());
      }
    }
  }
}
