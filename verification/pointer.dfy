/** The `pointerdown` handler. The circle tests for the pause and on-screen
    buttons are floating-point geometry over the page layout; the host
    reports which circle, if any, it found the press in (checked in the order
    pause, up, down, shoot), and the model takes that as a parameter. */
module Pointer {
  import opened Players
  import opened Simulation

  datatype Control = PauseButton | UpButton | DownButton | ShootButton | Elsewhere

  /** The restart button rectangle set by `Game.reset`. */
  const RestartX: int := 420
  const RestartY: int := 250
  const RestartW: int := 160
  const RestartH: int := 50

  /** The press lies in the restart rectangle, edges included. */
  predicate OnRestart(x: real, y: real)
  {
    && x >= RestartX as real && x <= (RestartX + RestartW) as real
    && y >= RestartY as real && y <= (RestartY + RestartH) as real
  }

  /** A press at canvas position (x, y): after the game is over only the
      restart rectangle does anything; otherwise the pause button toggles
      pause and the on-screen buttons set their input flag. */
  function PointerDown(g: Game, inp: Input, x: real, y: real, c: Control): (r: (Game, Input))
    ensures g.gameOver ==> r.1 == inp
    ensures g.gameOver ==> (r.0 == Reset() <==> OnRestart(x, y))
    ensures g.gameOver && !OnRestart(x, y) ==> r.0 == g
    ensures !g.gameOver ==> r.0 == g.(paused := r.0.paused)
    ensures !g.gameOver ==> (r.0.paused != g.paused <==> c == PauseButton)
    ensures r.1.up <==> inp.up || (!g.gameOver && c == UpButton)
    ensures r.1.down <==> inp.down || (!g.gameOver && c == DownButton)
    ensures r.1.shoot <==> inp.shoot || (!g.gameOver && c == ShootButton)
  {
    if g.gameOver then
      (if OnRestart(x, y) then Reset() else g, inp)
    else
      match c
      case PauseButton => (g.(paused := !g.paused), inp)
      case UpButton => (g, inp.(up := true))
      case DownButton => (g, inp.(down := true))
      case ShootButton => (g, inp.(shoot := true))
      case Elsewhere => (g, inp)
  }
}
