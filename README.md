# Yobby Run: the per-frame simulation step

This project models the two parts of the platformer demo's frame that are
logic rather than engine calls, and proves properties of them in Dafny.

- **Player simulation** (`player_simulation.dfy`, module `PlayerSimulation`).
  This is `UpdatePlayer` acting on a `Player {position, speed, canJump}` and an
  array of `EnvItem {rect, blocking}`. The jump intake happens first: with the
  jump key held and `canJump` set, speed becomes `-jumpSpeed`, `canJump` is
  cleared and the jump sound plays. Then a collision scan in array order stops
  at the first blocking item that the player's x lies over and whose top edge
  lies between `y` and `y + speed*delta`. On a hit the player snaps to that top
  edge with zero speed and may jump again. With no hit one explicit Euler
  gravity step runs and `canJump` is cleared. The class `Player` keeps the
  source's fields and its `Update` method loops over the array with a `break`,
  exactly as the source does. `Update` is proved equal to the pure function
  `Step`, and the source's promises are proved as lemmas about `Step` and `Run`
  (`Run` repeats `Step` once per frame).
- **Animation stepping** (`frame_driver.dfy`, module `FrameDriver`). These are
  the main loop's counters `frameCounter`, `currentAnimFrame` and
  `nextFrameDataOffset`. The counter increments every frame. When it reaches
  `frameDelay` the frame index advances and wraps at `animFrames`, the counter
  resets, and the offset into the buffer of decoded frames is recomputed as
  `width*height*4*index`. The class `Animation` holds these counters and its
  `Update` method is proved equal to the pure function `Tick`. Lemmas cover the
  bounds, the one-step advance, the period of `frameDelay` frames, the closed
  form after `n` frames, and the frame slice lying inside the buffer.

The jump key (`IsKeyDown`) and the frame time (`GetFrameTime`) are inputs. The
sound (`PlaySound`) is a boolean result. The texture upload (`UpdateTexture`)
is a boolean result, with the offset left in its field. Floats are Dafny
`real`. `jumpSpeed = 350` and `gravity = 450` are module constants, because the
program never assigns them.

The model follows these details of the code:
- The no-hit branch moves the player with the speed left by the jump intake,
  not with the speed at the start of the frame.
- The animation advances when the counter is `>= frameDelay`. The index wraps
  when it is `>= animFrames`.
- `blocking` is an `int`, and any non-zero value is solid.
- The frame time is not required to be non-negative: the code does not guard
  it, and only the lemmas that need `delta > 0` assume it.

## Model

| member | source | states |
|---|---|---|
| `PlayerSimulation.Scanned` | core_basic_window.c:157 | the loop `i < envItemsLength` reaches exactly the first `envItemsLength` items, and none when the length is zero or negative |
| `PlayerSimulation.FirstHit` | core_basic_window.c:157-171 | the scan returns an index only if that item blocks and no earlier item does (first match in array order); it returns no hit exactly when no item blocks |
| `PlayerSimulation.JumpIntake` | core_basic_window.c:149-153 | the sound plays exactly when the key is held and `canJump` is set; then speed is `-jumpSpeed` and `canJump` is false; otherwise the player is untouched |
| `PlayerSimulation.Resolve` | core_basic_window.c:155-178 | x never changes; `canJump` afterwards holds iff some item blocks; on a hit speed is 0 and y is the top of the first blocking item; without one y and speed take one Euler step |
| `PlayerSimulation.Step` | core_basic_window.c:146-179 | one frame: the sound plays iff the key is held and `canJump` was set, x is unchanged, and a player who may jump afterwards has zero speed |
| `PlayerSimulation.Run` | core_basic_window.c:85-112 | the main loop's repeated update, with the key state and the frame time read anew in every frame: one frame per key sample, frame 0 is one `Step` from the initial player and every later frame is one `Step` from the player the previous frame left |
| `PlayerSimulation.LandingSnapsToFirstHit` | core_basic_window.c:157-178 | after a frame with a hit: `canJump`, speed 0, x unchanged and y equal to the top of the first matching item |
| `PlayerSimulation.FallingIsEulerStep` | core_basic_window.c:173-177 | after a frame without a hit: y grows by `s*delta` and speed by `gravity*delta`, with `s` the speed after intake, and `canJump` is false |
| `PlayerSimulation.CanJumpIffHit` | core_basic_window.c:156-178 | the `canJump` state machine: after a frame the player may jump if and only if some item blocked it |
| `PlayerSimulation.JumpNeverLandsSameFrame` | core_basic_window.c:149-177 | with `delta > 0` an accepted jump cannot hit anything that frame, so the player leaves airborne with `y - jumpSpeed*delta` and speed `-jumpSpeed + gravity*delta` |
| `PlayerSimulation.NoJumpWithoutPermission` | core_basic_window.c:149-153 | without the key or without `canJump` the intake changes nothing and no sound plays |
| `PlayerSimulation.RestingIsStable` | core_basic_window.c:161-178 | a player at rest exactly on a solid top edge spanning its x stays put and may jump |
| `PlayerSimulation.ScanIgnoresLaterItems` | core_basic_window.c:157-171 | items after the first hit are never examined: appending items does not change the outcome of a scan that hit |
| `PlayerSimulation.ScanSkipsNonBlocking` | core_basic_window.c:157-171 | items that do not block are passed over: prefixing them only shifts the hit index by their number |
| `PlayerSimulation.WithoutBlockersNeverLands` | core_basic_window.c:157-177 | with an empty list or only non-blocking items, over any number of frames and any frame times, the player never may jump after a frame, and no jump sound plays after the first frame |
| `PlayerSimulation.FirstMatchIsNotNearest` | core_basic_window.c:157-170 | the first match in list order wins over a nearer surface: a player falling past a ledge listed second lands on the floor listed first |
| `PlayerSimulation.FirstFrameOfFall` | core_basic_window.c:173-177 | in real arithmetic, one airborne frame from rest at `delta = 1/60` gives speed 7.5 and leaves the position unchanged |
| `PlayerSimulation.Player.constructor` | core_basic_window.c:74-77 | a new player is at the given position with speed 0 and `canJump` false |
| `PlayerSimulation.Player.Update` | core_basic_window.c:146-179 | the in-place update with its loop and `break` leaves exactly the fields `Step` gives and reports the sound as `Step` does |
| `FrameDriver.Tick` | core_basic_window.c:97-110 | the counter either resets to 0 or goes up by one, and the index only changes on a reset |
| `FrameDriver.StartIsValid` | core_basic_window.c:68-71 | the initial counters (all zero) satisfy the invariant |
| `FrameDriver.TickKeepsInv` | core_basic_window.c:97-110 | each frame keeps the counter in `[0, frameDelay)`, the index in `[0, animFrames)` and the offset at `width*height*4*index`; the counter counts modulo `frameDelay`; the index advances by exactly 1 modulo `animFrames` when the counter reaches `frameDelay` and is unchanged otherwise |
| `FrameDriver.FrameSliceInBuffer` | core_basic_window.c:105 | the offset is non-negative, offset plus one frame's bytes is at most the buffer size, and the buffer size fits in a 32-bit `int` |
| `FrameDriver.Period` | core_basic_window.c:97-110 | from a zero counter, the first `frameDelay - 1` frames only move the counter; after `frameDelay` frames the counter is 0 and the index and offset have advanced by one frame, wrapping |
| `FrameDriver.TicksFromStart` | core_basic_window.c:68-110 | after `m*frameDelay + j` frames from the start the counter is `j` and the index is `m mod animFrames` |
| `FrameDriver.CountersAfter` | core_basic_window.c:68-110 | after `n` frames from the start the counter is `n mod frameDelay` and the index is `(n div frameDelay) mod animFrames` |
| `FrameDriver.Animation.constructor` | core_basic_window.c:68-71 | the counters start at zero, and the invariant holds for valid parameters |
| `FrameDriver.Animation.Update` | core_basic_window.c:97-110 | the in-place update leaves exactly the counters `Tick` gives, reports a texture refresh exactly when the counter reached `frameDelay`, keeps the invariant, and leaves the offset pointing at a whole frame inside the decoded buffer |

## Left out

- Window creation, render-texture scaling, letterboxing and all drawing (core_basic_window.c:37-48, 88, 114-130): these are calls into the rendering engine with floating-point presentation math.
- Asset loading, GIF decoding, the `UpdateTexture` upload and unloading (core_basic_window.c:42-43, 53-65, 107, 135-141): engine I/O. `Animation.Update` reports when the upload would happen, and the offset stays in its field.
- The music loop-point seek at 39.0 s back to 0.69 s (core_basic_window.c:91-95): an audio-stream call driven by floating-point playback time.
- `IsKeyDown`, `GetFrameTime` and `PlaySound`: replaced by a boolean input, a `delta` input and a boolean result. The `Sound` handle passed to `UpdatePlayer` is dropped.
- IEEE-754 single-precision rounding: positions and speeds are `real`, so results such as the speed of 7.5 after one frame hold in the real-number model only.
- `FrameDriver.ValidConfig`: the offset is computed in C `int` and stored in an `unsigned int`. The model does not wrap around. Instead, the invariant lemmas assume the whole buffer fits in a 32-bit signed `int`, and under that bound no intermediate value overflows.
- The initial player placement from the screen size and the single floor item (core_basic_window.c:74-81): `Player.constructor` takes the position as a parameter. The item list is an input.
- Horizontal movement: it is commented out in the source (core_basic_window.c:147-148), so `position.x` never changes.
- The colour of an `EnvItem`: it is only used for drawing.
- The order of one iteration of the main loop (animation first, then the player) is not modelled as one operation. The two parts share no state.
- The `MIN`/`MAX` macros and the web-platform include: they play no part in the simulation.
