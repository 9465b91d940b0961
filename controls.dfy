/**
 * The input controller and the steering step of the per-frame update: two
 * movement flags set by touches and cleared on release, an upward swipe that
 * jumps only when the player is nearly at rest vertically, and a velocity
 * command in which moving left wins over moving right.
 */
module Controls {
  import opened Effects

  /** The two movement flags. */
  datatype Intent = Intent(moveLeft: bool, moveRight: bool)

  const Idle: Intent := Intent(false, false)

  const TargetSpeed: real := 180.0
  const Damping: real := 0.9
  /** A touch must move up by more than this in one event to count as a swipe. */
  const SwipeThreshold: real := 40.0
  /** The jump guard: |vy| must be below this. */
  const GroundedSpeed: real := 10.0
  const JumpImpulse: real := 420.0

  function Abs(x: real): real { if x < 0.0 then -x else x }

  /**
   * `touchesBegan`: a touch whose scene x is below half the scene width sets
   * the left flag, any other touch the right flag; the other flag is left alone.
   */
  function TouchBegan(i: Intent, x: real, width: real): Intent
  {
    if x < width / 2.0 then i.(moveLeft := true) else i.(moveRight := true)
  }

  /** `touchesEnded`: any lifted touch clears both flags. */
  function TouchEnded(i: Intent): Intent
  {
    Idle
  }

  /** The jump impulses `touchesMoved` requests for a touch moving from `prevY` to `y`. */
  function SwipeEffects(y: real, prevY: real, playerVy: real): seq<Effect>
  {
    if y - prevY > SwipeThreshold then JumpEffects(playerVy) else []
  }

  /** `jumpPlayer`: an upward impulse only when the player is nearly at rest vertically. */
  function JumpEffects(playerVy: real): seq<Effect>
  {
    if Abs(playerVy) < GroundedSpeed then [Impulse(0.0, JumpImpulse)] else []
  }

  /** The player's new horizontal velocity after one update. */
  function Steer(i: Intent, vx: real): real
  {
    if i.moveLeft then -TargetSpeed
    else if i.moveRight then TargetSpeed
    else vx * Damping
  }

  // ---------------------------------------------------------------------
  // Properties
  // ---------------------------------------------------------------------

  /** A touch sets the left flag exactly when its scene x is below width / 2, the right flag otherwise, and clears nothing. */
  lemma TouchBeganSetsOneFlag(i: Intent, x: real, width: real)
    ensures var i' := TouchBegan(i, x, width);
      (x < width / 2.0 ==> i'.moveLeft && i'.moveRight == i.moveRight) &&
      (x >= width / 2.0 ==> i'.moveRight && i'.moveLeft == i.moveLeft)
    ensures i == Idle ==> (TouchBegan(i, x, width).moveLeft != TouchBegan(i, x, width).moveRight)
  {
  }

  /** Two overlapping touches, one below and one at or past width / 2, set both flags; steering then moves left. */
  lemma OverlappingTouches(width: real, xl: real, xr: real, vx: real)
    requires xl < width / 2.0 <= xr
    ensures TouchBegan(TouchBegan(Idle, xl, width), xr, width) == Intent(true, true)
    ensures Steer(Intent(true, true), vx) == -180.0
  {
  }

  /** A jump is requested exactly when the swipe rises by more than 40 and |vy| < 10, and then it is one impulse of (0, 420). */
  lemma SwipeJumpGuard(y: real, prevY: real, playerVy: real)
    ensures SwipeEffects(y, prevY, playerVy) != [] <==> (y - prevY > 40.0 && -10.0 < playerVy < 10.0)
    ensures SwipeEffects(y, prevY, playerVy) == [] || SwipeEffects(y, prevY, playerVy) == [Impulse(0.0, 420.0)]
  {
  }

  /** Left wins over right; right alone gives +180; with neither, the velocity decays towards 0 without reaching it and without changing sign. */
  lemma SteerPrecedence(i: Intent, vx: real)
    ensures i.moveLeft ==> Steer(i, vx) == -180.0
    ensures !i.moveLeft && i.moveRight ==> Steer(i, vx) == 180.0
    ensures i == Idle ==> Abs(Steer(i, vx)) <= Abs(vx) && (Steer(i, vx) == 0.0 <==> vx == 0.0)
    ensures i == Idle ==> (vx > 0.0 ==> 0.0 < Steer(i, vx) < vx) && (vx < 0.0 ==> vx < Steer(i, vx) < 0.0)
  {
  }

  /** The horizontal velocity after `n` updates with no flag set. */
  function IdleTicks(vx: real, n: nat): real
  {
    if n == 0 then vx else Steer(Idle, IdleTicks(vx, n - 1))
  }

  /** Idle updates never bring a moving player exactly to rest, and never speed it up. */
  lemma {:induction false} IdleNeverStops(vx: real, n: nat)
    ensures (IdleTicks(vx, n) == 0.0 <==> vx == 0.0) && Abs(IdleTicks(vx, n)) <= Abs(vx)
  {
    if n > 0 {
      IdleNeverStops(vx, n - 1);
      SteerPrecedence(Idle, IdleTicks(vx, n - 1));
    }
  }

  // ---------------------------------------------------------------------
  // Sequences of touches
  // ---------------------------------------------------------------------

  datatype TouchEvent = Down(x: real) | Up | Moved(y: real, prevY: real)

  /** The flags after the events, in order. */
  function Replay(i: Intent, width: real, events: seq<TouchEvent>): Intent
    decreases |events|
  {
    if |events| == 0 then i
    else
      var i' := match events[0]
        case Down(x) => TouchBegan(i, x, width)
        case Up => TouchEnded(i)
        case Moved(_, _) => i;
      Replay(i', width, events[1..])
  }

  /** One finger at a time: no touch goes down while another is down. */
  predicate SingleFinger(events: seq<TouchEvent>, down: bool)
    decreases |events|
  {
    |events| == 0 ||
    match events[0]
    case Down(_) => !down && SingleFinger(events[1..], true)
    case Up => SingleFinger(events[1..], false)
    case Moved(_, _) => SingleFinger(events[1..], down)
  }

  /** The flags agree with the finger: none while no finger is down, exactly one while one is. */
  predicate Consistent(i: Intent, down: bool) {
    if down then i.moveLeft != i.moveRight else i == Idle
  }

  /** With one finger at a time, the two flags are never both set. */
  lemma {:induction false} SingleFingerExclusive(i: Intent, down: bool, width: real, events: seq<TouchEvent>)
    requires Consistent(i, down) && SingleFinger(events, down)
    ensures !(Replay(i, width, events).moveLeft && Replay(i, width, events).moveRight)
    decreases |events|
  {
    if |events| > 0 {
      match events[0]
      case Down(x) =>
        SingleFingerExclusive(TouchBegan(i, x, width), true, width, events[1..]);
      case Up =>
        SingleFingerExclusive(Idle, false, width, events[1..]);
      case Moved(_, _) =>
        SingleFingerExclusive(i, down, width, events[1..]);
    }
  }
}
