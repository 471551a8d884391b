/** The per-frame player update of the platformer demo: jump intake, a
    first-match collision scan over the environment items, and an explicit
    Euler gravity step when nothing was hit. Positions and speeds are in
    pixels and pixels per second, with y growing downwards, so an upward
    speed is negative. */
module PlayerSimulation {

  /** Magnitude of the jump impulse (pixels per second). */
  const JumpSpeed: real := 350.0
  /** Constant downward acceleration (pixels per second squared). */
  const Gravity: real := 450.0

  datatype Vector2 = Vector2(x: real, y: real)

  /** An axis-aligned rectangle given by its top-left corner and its size. */
  datatype Rectangle = Rectangle(x: real, y: real, width: real, height: real)

  /** A static environment item; any non-zero `blocking` makes it solid.
      Its display colour plays no part in the simulation and is left out. */
  datatype EnvItem = EnvItem(rect: Rectangle, blocking: int)

  /** The value of a player at one instant. */
  datatype PlayerState = PlayerState(position: Vector2, speed: real, canJump: bool)

  /** What one frame produces: the new player and whether the jump sound played. */
  datatype Frame = Frame(player: PlayerState, jumpSound: bool)

  /** The outcome of the collision scan: no item hit, or the index of the item hit. */
  datatype Scan = NoHit | HitAt(index: nat)

  /** The collision test of one item: the item is solid, the player's x lies in
      its horizontal span, and its top edge lies between the player's y and the y
      the player would reach with its current speed during `delta` seconds. */
  predicate Blocks(item: EnvItem, p: PlayerState, delta: real)
  {
    && item.blocking != 0
    && item.rect.x <= p.position.x
    && item.rect.x + item.rect.width >= p.position.x
    && item.rect.y >= p.position.y
    && item.rect.y <= p.position.y + p.speed * delta
  }

  /** Item `i` blocks the player and no item before it does. */
  predicate IsFirstHit(items: seq<EnvItem>, i: int, p: PlayerState, delta: real)
  {
    && 0 <= i < |items|
    && Blocks(items[i], p, delta)
    && forall j :: 0 <= j < i ==> !Blocks(items[j], p, delta)
  }

  /** Some item blocks the player. */
  predicate AnyHit(items: seq<EnvItem>, p: PlayerState, delta: real)
  {
    exists i :: 0 <= i < |items| && Blocks(items[i], p, delta)
  }

  /** The items the scan can reach when the caller passes `length` as the
      number of items: a length of zero or less scans nothing. */
  function Scanned(items: seq<EnvItem>, length: int): (r: seq<EnvItem>)
    requires length <= |items|
    ensures |r| == if length <= 0 then 0 else length
    ensures forall i :: 0 <= i < |r| ==> r[i] == items[i]
  {
    if length <= 0 then [] else items[..length]
  }

  /** The collision scan in array order, stopping at the first item that blocks. */
  function FirstHit(items: seq<EnvItem>, p: PlayerState, delta: real): (r: Scan)
    ensures r.HitAt? ==> IsFirstHit(items, r.index, p, delta)
    ensures r.NoHit? <==> !AnyHit(items, p, delta)
  {
    if items == [] then NoHit
    else if Blocks(items[0], p, delta) then HitAt(0)
    else match FirstHit(items[1..], p, delta)
      case NoHit => NoHit
      case HitAt(k) => HitAt(k + 1)
  }

  /** Jump intake: with the key held and the player allowed to jump, the speed
      becomes the upward jump impulse, jumping is disabled and the sound plays. */
  function JumpIntake(p: PlayerState, keyDown: bool): (r: Frame)
    ensures r.jumpSound <==> keyDown && p.canJump
    ensures r.jumpSound ==> r.player == p.(speed := -JumpSpeed, canJump := false)
    ensures !r.jumpSound ==> r.player == p
  {
    if keyDown && p.canJump then Frame(p.(speed := -JumpSpeed, canJump := false), true)
    else Frame(p, false)
  }

  /** Collision resolution and gravity, after the jump intake. */
  function Resolve(p: PlayerState, items: seq<EnvItem>, delta: real): (r: PlayerState)
    ensures r.position.x == p.position.x
    ensures r.canJump <==> AnyHit(items, p, delta)
    ensures r.canJump ==>
      r.speed == 0.0 && exists i :: IsFirstHit(items, i, p, delta) && r.position.y == items[i].rect.y
    ensures !r.canJump ==>
      r.position.y == p.position.y + p.speed * delta && r.speed == p.speed + Gravity * delta
  {
    match FirstHit(items, p, delta)
    case HitAt(i) => PlayerState(p.position.(y := items[i].rect.y), 0.0, true)
    case NoHit =>
      PlayerState(p.position.(y := p.position.y + p.speed * delta), p.speed + Gravity * delta, false)
  }

  /** One whole frame of the player update. */
  function Step(p: PlayerState, keyDown: bool, items: seq<EnvItem>, delta: real): (r: Frame)
    ensures r.jumpSound <==> keyDown && p.canJump
    ensures r.player.position.x == p.position.x
    ensures r.player.canJump ==> r.player.speed == 0.0
  {
    var intake := JumpIntake(p, keyDown);
    Frame(Resolve(intake.player, items, delta), intake.jumpSound)
  }

  /** The frames produced by running the update once per frame of the main
      loop: in frame `i` the jump key is held when `keys[i]` holds, and
      `deltas[i]` is the frame time read in that frame. Each frame starts from
      the player the previous frame left. */
  function Run(p: PlayerState, keys: seq<bool>, deltas: seq<real>, items: seq<EnvItem>): (frames: seq<Frame>)
    requires |deltas| == |keys|
    ensures |frames| == |keys|
    ensures keys != [] ==> frames[0] == Step(p, keys[0], items, deltas[0])
    ensures forall i :: 0 < i < |keys| ==>
      frames[i] == Step(frames[i - 1].player, keys[i], items, deltas[i])
    decreases |keys|
  {
    if keys == [] then []
    else
      var f := Step(p, keys[0], items, deltas[0]);
      [f] + Run(f.player, keys[1..], deltas[1..], items)
  }

  /** After a frame with a hit the player rests on the top edge of the FIRST
      item that blocked it, with zero speed, and may jump again. */
  lemma LandingSnapsToFirstHit(p: PlayerState, keyDown: bool, items: seq<EnvItem>, delta: real)
    requires FirstHit(items, JumpIntake(p, keyDown).player, delta).HitAt?
    ensures var i := FirstHit(items, JumpIntake(p, keyDown).player, delta).index;
      var r := Step(p, keyDown, items, delta).player;
      && r.canJump && r.speed == 0.0
      && r.position == Vector2(p.position.x, items[i].rect.y)
  {
  }

  /** After a frame without a hit the player has taken one Euler step from the
      speed left by the jump intake, and may not jump. */
  lemma FallingIsEulerStep(p: PlayerState, keyDown: bool, items: seq<EnvItem>, delta: real)
    requires !AnyHit(items, JumpIntake(p, keyDown).player, delta)
    ensures var s := JumpIntake(p, keyDown).player.speed;
      var r := Step(p, keyDown, items, delta).player;
      && !r.canJump
      && r.position == Vector2(p.position.x, p.position.y + s * delta)
      && r.speed == s + Gravity * delta
  {
  }

  /** The canJump state machine: after a frame the player may jump exactly when
      some item blocked it, and a frame that lands re-enables jumping at once. */
  lemma CanJumpIffHit(p: PlayerState, keyDown: bool, items: seq<EnvItem>, delta: real)
    ensures Step(p, keyDown, items, delta).player.canJump
      <==> AnyHit(items, JumpIntake(p, keyDown).player, delta)
  {
  }

  /** A jump accepted with a positive frame time can never land in the same
      frame: the interval from y up to y - JumpSpeed * delta holds no top edge,
      so the player leaves the ground with exactly the jump impulse plus one
      frame of gravity. */
  lemma JumpNeverLandsSameFrame(p: PlayerState, items: seq<EnvItem>, delta: real)
    requires p.canJump && delta > 0.0
    ensures var r := Step(p, true, items, delta);
      && r.jumpSound
      && !r.player.canJump
      && r.player.position.y == p.position.y - JumpSpeed * delta
      && r.player.speed == -JumpSpeed + Gravity * delta
  {
    var q := JumpIntake(p, true).player;
    forall i | 0 <= i < |items| ensures !Blocks(items[i], q, delta) {
      assert q.position.y + q.speed * delta < q.position.y;
    }
  }

  /** A held key without permission to jump changes nothing in the intake. */
  lemma NoJumpWithoutPermission(p: PlayerState, keyDown: bool, items: seq<EnvItem>, delta: real)
    requires !p.canJump || !keyDown
    ensures Step(p, keyDown, items, delta) == Frame(Resolve(p, items, delta), false)
  {
  }

  /** A player at rest exactly on the top edge of a solid item spanning its x
      stays where it is and may jump, whichever blocking item the scan meets first. */
  lemma RestingIsStable(p: PlayerState, keyDown: bool, items: seq<EnvItem>, delta: real, k: nat)
    requires k < |items| && items[k].blocking != 0
    requires items[k].rect.x <= p.position.x <= items[k].rect.x + items[k].rect.width
    requires items[k].rect.y == p.position.y && p.speed == 0.0
    requires !(keyDown && p.canJump)
    ensures Step(p, keyDown, items, delta) == Frame(p.(canJump := true), false)
  {
    assert Blocks(items[k], p, delta);
  }

  /** The scan never looks past the first hit: items appended after it do not
      change the outcome. */
  lemma {:induction false} ScanIgnoresLaterItems(items: seq<EnvItem>, more: seq<EnvItem>, p: PlayerState, delta: real)
    requires FirstHit(items, p, delta).HitAt?
    ensures FirstHit(items + more, p, delta) == FirstHit(items, p, delta)
  {
    assert items != [];
    if !Blocks(items[0], p, delta) {
      assert (items + more)[1..] == items[1..] + more;
      ScanIgnoresLaterItems(items[1..], more, p, delta);
    }
  }

  /** Items that do not block this frame may be skipped: prefixing them shifts
      the index of the hit by their number and changes nothing else. */
  lemma {:induction false} ScanSkipsNonBlocking(skipped: seq<EnvItem>, items: seq<EnvItem>, p: PlayerState, delta: real)
    requires forall j :: 0 <= j < |skipped| ==> !Blocks(skipped[j], p, delta)
    ensures FirstHit(skipped + items, p, delta) ==
      match FirstHit(items, p, delta)
      case NoHit => NoHit
      case HitAt(k) => HitAt(k + |skipped|)
  {
    if skipped == [] {
      assert skipped + items == items;
    } else {
      assert (skipped + items)[0] == skipped[0];
      assert (skipped + items)[1..] == skipped[1..] + items;
      ScanSkipsNonBlocking(skipped[1..], items, p, delta);
    }
  }

  /** In every frame of `frames` the player ends airborne, and no jump sound
      plays after the first frame. */
  predicate StaysAirborne(frames: seq<Frame>)
  {
    && (forall i :: 0 <= i < |frames| ==> !frames[i].player.canJump)
    && (forall i :: 1 <= i < |frames| ==> !frames[i].jumpSound)
  }

  /** With no solid item (an empty list in particular) the player never lands:
      it cannot jump after any frame, and no jump sound plays after the first. */
  lemma WithoutBlockersNeverLands(p: PlayerState, keys: seq<bool>, deltas: seq<real>, items: seq<EnvItem>)
    requires |deltas| == |keys|
    requires forall i :: 0 <= i < |items| ==> items[i].blocking == 0
    ensures StaysAirborne(Run(p, keys, deltas, items))
  {
    var frames := Run(p, keys, deltas, items);
    forall i | 0 <= i < |frames| ensures !frames[i].player.canJump {
      var before := if i == 0 then p else frames[i - 1].player;
      CanJumpIffHit(before, keys[i], items, deltas[i]);
    }
    forall i | 1 <= i < |frames| ensures !frames[i].jumpSound {
      assert !frames[i - 1].player.canJump;
    }
  }

  /** The scan takes the first match in list order, not the nearest surface:
      with a lower floor listed before a nearer ledge, a fast-falling player
      passes the ledge and lands on the floor. */
  lemma FirstMatchIsNotNearest()
    ensures var ledge := EnvItem(Rectangle(0.0, 20.0, 100.0, 10.0), 1);
      var floor := EnvItem(Rectangle(0.0, 80.0, 100.0, 10.0), 1);
      var p := PlayerState(Vector2(50.0, 0.0), 100.0, false);
      && Blocks(ledge, p, 1.0)
      && Step(p, false, [floor, ledge], 1.0).player.position.y == 80.0
  {
    var floor := EnvItem(Rectangle(0.0, 80.0, 100.0, 10.0), 1);
    var p := PlayerState(Vector2(50.0, 0.0), 100.0, false);
    assert Blocks(floor, p, 1.0);
  }

  /** With real arithmetic, one frame of free fall from rest at 60 frames per
      second gives the player a downward speed of 7.5 pixels per second. */
  lemma FirstFrameOfFall(start: Vector2)
    ensures var r := Step(PlayerState(start, 0.0, false), false, [], 1.0 / 60.0).player;
      && r == PlayerState(start, 7.5, false)
  {
  }

  /** A player whose fields the update changes in place. */
  class Player {
    var position: Vector2
    var speed: real
    var canJump: bool

    function State(): PlayerState
      reads this
    {
      PlayerState(position, speed, canJump)
    }

    /** A player placed at `position`, at rest and not yet allowed to jump. */
    constructor (position: Vector2)
      ensures State() == PlayerState(position, 0.0, false)
    {
      this.position := position;
      speed := 0.0;
      canJump := false;
    }

    /** One frame of the update over the first `envItemsLength` items of
        `envItems`; returns whether the jump sound is played. */
    method Update(keyDown: bool, envItems: array<EnvItem>, envItemsLength: int, delta: real)
      returns (jumpSound: bool)
      requires envItemsLength <= envItems.Length
      modifies this
      ensures Frame(State(), jumpSound)
        == Step(old(State()), keyDown, Scanned(envItems[..], envItemsLength), delta)
    {
      jumpSound := false;
      if keyDown && canJump {
        jumpSound := true;
        speed := -JumpSpeed;
        canJump := false;
      }

      ghost var items := Scanned(envItems[..], envItemsLength);
      ghost var intake := State();
      assert intake == JumpIntake(old(State()), keyDown).player;

      var hitObstacle := false;
      var i := 0;
      while i < envItemsLength
        invariant 0 <= i <= |items|
        invariant State() == intake && !hitObstacle
        invariant forall j :: 0 <= j < i ==> !Blocks(items[j], intake, delta)
      {
        var ei := envItems[i];
        if ei.blocking != 0
          && ei.rect.x <= position.x
          && ei.rect.x + ei.rect.width >= position.x
          && ei.rect.y >= position.y
          && ei.rect.y <= position.y + speed * delta
        {
          assert IsFirstHit(items, i, intake, delta);
          hitObstacle := true;
          speed := 0.0;
          position := position.(y := ei.rect.y);
          break;
        }
        i := i + 1;
      }

      if !hitObstacle {
        position := position.(y := position.y + speed * delta);
        speed := speed + Gravity * delta;
        canJump := false;
      } else {
        canJump := true;
      }
    }
  }
}
