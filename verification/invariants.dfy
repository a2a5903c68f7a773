/** The state invariant every reachable game satisfies, and its preservation
    by frames and pointer presses. */
module Invariants {
  import opened Geometry
  import opened Entities
  import opened Players
  import opened Simulation
  import opened Pointer

  /** Bounds on the player, at most four live enemies, health a multiple of
      25 between -75 and 100, the game over exactly when health is at or
      below 0 and never paused then, and a non-negative kill score. */
  predicate Inv(g: Game)
  {
    && 0 <= g.player.y <= MaxY
    && 0 <= g.player.cooldown <= FireDelay
    && (forall p :: p in g.player.projectiles ==> p.x <= CanvasWidth)
    && |g.enemies| <= MaxEnemies
    && (forall e :: e in g.enemies ==> !e.dead)
    && CollisionDamage * (1 - MaxEnemies) <= g.player.health <= MaxHealth
    && g.player.health % CollisionDamage == 0
    && (g.gameOver <==> g.player.health <= 0)
    && (g.gameOver ==> !g.paused)
    && g.score >= 0 && g.score % KillPoints == 0
  }

  lemma ResetInv()
    ensures Inv(Reset())
  {
  }

  /** A frame preserves the invariant. */
  lemma StepInv(g: Game, inp: Input, dt: int, sp: SpawnParams)
    requires Inv(g)
    ensures Inv(Step(g, inp, dt, sp))
  {
    if !g.paused && !g.gameOver {
      var pl := PlayerStep(g.player, inp);
      var es := Spawned(g, pl, sp);
      var r := Step(g, inp, dt, sp);
      StepTally(g, inp, dt, sp);
      StepProjectiles(g, inp, dt, sp);
      var k := PlayerHits(pl, es);
      assert k <= MaxEnemies;
      assert g.player.health >= CollisionDamage;
      assert r.player.health == g.player.health - CollisionDamage * k;
      forall p | p in r.player.projectiles
        ensures p.x <= CanvasWidth
      {
        var i :| 0 <= i < |r.player.projectiles| && r.player.projectiles[i] == p;
        assert pl.projectiles[i] in pl.projectiles;
      }
    }
  }

  /** A pointer press preserves the invariant. */
  lemma PointerInv(g: Game, inp: Input, x: real, y: real, c: Control)
    requires Inv(g)
    ensures Inv(PointerDown(g, inp, x, y, c).0)
  {
  }

  /** Once the game is over only a restart changes it: frames leave it alone
      and a press either leaves it alone or resets it. */
  lemma GameOverSticky(g: Game, inp: Input, dt: int, sp: SpawnParams, x: real, y: real, c: Control)
    requires g.gameOver
    ensures Step(g, inp, dt, sp) == g
    ensures var r := PointerDown(g, inp, x, y, c).0;
      r == g || (r == Reset() && !r.gameOver && r.player.health == MaxHealth)
  {
  }

  /** What reaches the game: a frame with its input flags, elapsed
      milliseconds and spawn draws, or a pointer press. */
  datatype Event =
    | Tick(inp: Input, dt: int, spawn: SpawnParams)
    | Press(x: real, y: real, target: Control)

  function Apply(g: Game, ev: Event): Game
  {
    match ev
    case Tick(inp, dt, sp) => Step(g, inp, dt, sp)
    case Press(x, y, c) => PointerDown(g, Input(false, false, false), x, y, c).0
  }

  function Run(g: Game, evs: seq<Event>): Game
    decreases |evs|
  {
    if |evs| == 0 then g else Run(Apply(g, evs[0]), evs[1..])
  }

  /** Every sequence of events keeps the invariant. */
  lemma {:induction false} RunInv(g: Game, evs: seq<Event>)
    requires Inv(g)
    ensures Inv(Run(g, evs))
    decreases |evs|
  {
    if |evs| > 0 {
      match evs[0] {
        case Tick(inp, dt, sp) => StepInv(g, inp, dt, sp);
        case Press(x, y, c) => PointerInv(g, Input(false, false, false), x, y, c);
      }
      RunInv(Apply(g, evs[0]), evs[1..]);
    }
  }

  /** Every game reachable from a reset satisfies the invariant; in
      particular it never holds more than four enemies. */
  lemma ReachableInv(evs: seq<Event>)
    ensures Inv(Run(Reset(), evs))
    ensures |Run(Reset(), evs).enemies| <= MaxEnemies
  {
    ResetInv();
    RunInv(Reset(), evs);
  }
}
