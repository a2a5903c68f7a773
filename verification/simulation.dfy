/** The game: `Game.reset`, the enemy-by-enemy collision pass and
    `Game.update`. The score here is the integer kill score only. */
module Simulation {
  import opened Geometry
  import opened Entities
  import opened Players
  import Seqs

  /** Milliseconds the spawn timer must exceed before an enemy appears. */
  const EnemyInterval: int := 1200
  const MaxEnemies: int := 4
  const CollisionDamage: int := 25
  const KillPoints: int := 10

  datatype Game = Game(
    player: Player,
    enemies: seq<Enemy>,
    enemyTimer: int,
    score: int,
    gameOver: bool,
    paused: bool)

  /** `Game.reset`: a fresh player, no enemies, timer and score at zero, and
      neither paused nor over. */
  function Reset(): (g: Game)
    ensures g.player.y == StartY && g.player.y == 215
    ensures g.player.health == MaxHealth && g.player.projectiles == [] && g.player.cooldown == 0
    ensures g.enemies == [] && g.enemyTimer == 0 && g.score == 0
    ensures !g.gameOver && !g.paused
  {
    Game(InitialPlayer, [], 0, 0, false, false)
  }

  /** The enemy overlaps the player. */
  predicate Touches(pl: Player, e: Enemy)
  {
    Hit(pl.Bounds(), e.Bounds())
  }

  /** The number of projectiles of `ps` that overlap `e`. */
  function HitCount(ps: seq<Projectile>, e: Enemy): (n: nat)
    ensures n <= |ps|
  {
    if |ps| == 0 then 0
    else (if Hit(ps[0].Bounds(), e.Bounds()) then 1 else 0) + HitCount(ps[1..], e)
  }

  /** Marks dead every projectile that overlaps `e`; positions are kept. */
  function Strike(ps: seq<Projectile>, e: Enemy): seq<Projectile>
  {
    seq(|ps|, i requires 0 <= i < |ps| =>
      if Hit(ps[i].Bounds(), e.Bounds()) then ps[i].(dead := true) else ps[i])
  }

  /** What the collision pass threads from one enemy to the next. */
  datatype Tally = Tally(health: int, gameOver: bool, score: int, projectiles: seq<Projectile>)

  /** One iteration of the `enemies.forEach` body of `Game.update`: move the
      enemy, charge the player 25 health on contact (ending the game once
      health reaches 0), then score 10 for each projectile overlapping it. */
  function ResolveEnemy(pl: Player, t: Tally, e: Enemy): (Tally, Enemy)
  {
    var moved := EnemyStep(e);
    var touched := Touches(pl, moved);
    var health := if touched then t.health - CollisionDamage else t.health;
    var over := t.gameOver || (touched && health <= 0);
    var kills := HitCount(t.projectiles, moved);
    (Tally(health, over, t.score + KillPoints * kills, Strike(t.projectiles, moved)),
     moved.(dead := moved.dead || touched || kills > 0))
  }

  /** The whole `enemies.forEach`, left to right. */
  function ResolveAll(pl: Player, t: Tally, es: seq<Enemy>): (r: (Tally, seq<Enemy>))
    ensures |r.1| == |es|
    decreases |es|
  {
    if |es| == 0 then (t, [])
    else
      var (t1, e1) := ResolveEnemy(pl, t, es[0]);
      var (t2, rest) := ResolveAll(pl, t1, es[1..]);
      (t2, [e1] + rest)
  }

  // Reference definitions of what one collision pass does, stated enemy by
  // enemy without threading any state.

  /** The number of enemies that overlap the player once moved. */
  function PlayerHits(pl: Player, es: seq<Enemy>): (n: nat)
    ensures n <= |es|
  {
    if |es| == 0 then 0
    else (if Touches(pl, EnemyStep(es[0])) then 1 else 0) + PlayerHits(pl, es[1..])
  }

  /** The number of (projectile, moved enemy) pairs that overlap. */
  function PairHits(ps: seq<Projectile>, es: seq<Enemy>): nat
  {
    if |es| == 0 then 0 else HitCount(ps, EnemyStep(es[0])) + PairHits(ps, es[1..])
  }

  /** Some enemy of `es`, once moved, overlaps the projectile. */
  predicate StruckBy(p: Projectile, es: seq<Enemy>)
  {
    exists j :: 0 <= j < |es| && Hit(p.Bounds(), EnemyStep(es[j]).Bounds())
  }

  /** A moved enemy is kept when it is on screen, clear of the player and
      clear of every projectile. */
  predicate Survives(pl: Player, ps: seq<Projectile>, e: Enemy)
  {
    !e.dead && !Touches(pl, e) && HitCount(ps, e) == 0
  }

  function SurvivorTest(pl: Player, ps: seq<Projectile>): Enemy -> bool
  {
    e => Survives(pl, ps, e)
  }

  function Moved(es: seq<Enemy>): seq<Enemy>
  {
    seq(|es|, i requires 0 <= i < |es| => EnemyStep(es[i]))
  }

  predicate Alive(e: Enemy)
  {
    !e.dead
  }

  /** The spawn condition of `Game.update`. */
  predicate SpawnDue(g: Game)
  {
    g.enemyTimer > EnemyInterval && |g.enemies| < MaxEnemies
  }

  /** The enemy list after the spawn check; the new enemy reads the player's
      y after this frame's movement. */
  function Spawned(g: Game, pl: Player, sp: SpawnParams): (es: seq<Enemy>)
    ensures SpawnDue(g) ==> |es| == |g.enemies| + 1 <= MaxEnemies
    ensures SpawnDue(g) ==> es[..|g.enemies|] == g.enemies && es[|g.enemies|] == SpawnEnemy(sp, pl.y)
    ensures !SpawnDue(g) ==> es == g.enemies
  {
    if SpawnDue(g) then g.enemies + [SpawnEnemy(sp, pl.y)] else g.enemies
  }

  /** `Game.update(dt)` without the floating-point time score: `sp` holds the
      random draws of an enemy spawned in this frame. */
  function Step(g: Game, inp: Input, dt: int, sp: SpawnParams): (r: Game)
    ensures r.paused == g.paused
    ensures |r.enemies| <= |g.enemies| + 1
    ensures |g.enemies| >= MaxEnemies ==> |r.enemies| <= |g.enemies|
    ensures |g.enemies| <= MaxEnemies ==> |r.enemies| <= MaxEnemies
    ensures !g.paused && !g.gameOver ==> forall e :: e in r.enemies ==> !e.dead
  {
    if g.paused || g.gameOver then g
    else
      var pl := PlayerStep(g.player, inp);
      var timer := if SpawnDue(g) then 0 else g.enemyTimer + dt;
      var (t, es) := ResolveAll(pl, Tally(pl.health, g.gameOver, g.score, pl.projectiles),
                                Spawned(g, pl, sp));
      var kept := Seqs.Filter(es, Alive);
      Game(pl.(health := t.health, projectiles := t.projectiles),
           kept, timer, t.score, t.gameOver, g.paused)
  }

  /** What the collision pass makes of one moved enemy: dead once off screen,
      on contact with the player, or when any projectile overlaps it. */
  function Judge(pl: Player, ps: seq<Projectile>, m: Enemy): Enemy
  {
    m.(dead := m.dead || Touches(pl, m) || HitCount(ps, m) > 0)
  }

  /** Marking projectiles dead does not change which of them overlap an enemy. */
  lemma {:induction false} HitCountStrike(ps: seq<Projectile>, e: Enemy, b: Enemy)
    ensures HitCount(Strike(ps, e), b) == HitCount(ps, b)
    decreases |ps|
  {
    if |ps| > 0 {
      assert Strike(ps, e)[1..] == Strike(ps[1..], e);
      HitCountStrike(ps[1..], e, b);
    }
  }

  lemma {:induction false} PairHitsStrike(ps: seq<Projectile>, e: Enemy, es: seq<Enemy>)
    ensures PairHits(Strike(ps, e), es) == PairHits(ps, es)
    decreases |es|
  {
    if |es| > 0 {
      HitCountStrike(ps, e, EnemyStep(es[0]));
      PairHitsStrike(ps, e, es[1..]);
    }
  }

  lemma StruckBySplit(p: Projectile, es: seq<Enemy>)
    requires |es| > 0
    ensures StruckBy(p, es) <==> Hit(p.Bounds(), EnemyStep(es[0]).Bounds()) || StruckBy(p, es[1..])
  {
  }

  /** The collision pass charges 25 health per enemy touching the player and
      10 points per overlapping (projectile, enemy) pair; the game ends in it
      exactly when some enemy touched the player and health ended at or
      below 0. */
  lemma {:induction false} ResolveAllTally(pl: Player, t: Tally, es: seq<Enemy>)
    ensures var r := ResolveAll(pl, t, es).0;
      && r.health == t.health - CollisionDamage * PlayerHits(pl, es)
      && r.score == t.score + KillPoints * PairHits(t.projectiles, es)
      && (r.gameOver <==> t.gameOver || (PlayerHits(pl, es) > 0 && r.health <= 0))
    decreases |es|
  {
    if |es| > 0 {
      var (t1, e1) := ResolveEnemy(pl, t, es[0]);
      ResolveAllTally(pl, t1, es[1..]);
      PairHitsStrike(t.projectiles, EnemyStep(es[0]), es[1..]);
    }
  }

  /** After the collision pass each projectile is where it was, and it is
      dead exactly when it was dead already or some moved enemy overlaps it. */
  lemma {:induction false} ResolveAllProjectiles(pl: Player, t: Tally, es: seq<Enemy>)
    ensures var ps := ResolveAll(pl, t, es).0.projectiles;
      && |ps| == |t.projectiles|
      && forall i :: 0 <= i < |ps| ==>
           ps[i] == t.projectiles[i].(dead := t.projectiles[i].dead || StruckBy(t.projectiles[i], es))
    decreases |es|
  {
    if |es| > 0 {
      var (t1, e1) := ResolveEnemy(pl, t, es[0]);
      ResolveAllProjectiles(pl, t1, es[1..]);
      forall i | 0 <= i < |t.projectiles| {
        StruckBySplit(t.projectiles[i], es);
      }
    }
  }

  /** The collision pass judges every enemy against the projectile positions
      the frame started with, in list order. */
  lemma {:induction false} ResolveAllEnemies(pl: Player, t: Tally, es: seq<Enemy>)
    ensures var out := ResolveAll(pl, t, es).1;
      forall i :: 0 <= i < |es| ==> out[i] == Judge(pl, t.projectiles, EnemyStep(es[i]))
    decreases |es|
  {
    if |es| > 0 {
      var (t1, e1) := ResolveEnemy(pl, t, es[0]);
      ResolveAllEnemies(pl, t1, es[1..]);
      forall m: Enemy
        ensures HitCount(t1.projectiles, m) == HitCount(t.projectiles, m)
      {
        HitCountStrike(t.projectiles, EnemyStep(es[0]), m);
      }
    }
  }

  /** While paused or over, a frame changes nothing. */
  lemma StepFreezes(g: Game, inp: Input, dt: int, sp: SpawnParams)
    requires g.paused || g.gameOver
    ensures Step(g, inp, dt, sp) == g
  {
  }

  /** In a running frame the spawn timer restarts from 0 exactly when an
      enemy is appended, and otherwise advances by `dt`. */
  lemma StepTimer(g: Game, inp: Input, dt: int, sp: SpawnParams)
    requires !g.paused && !g.gameOver
    ensures var es := Spawned(g, PlayerStep(g.player, inp), sp);
      if SpawnDue(g)
      then Step(g, inp, dt, sp).enemyTimer == 0 && |es| == |g.enemies| + 1
      else Step(g, inp, dt, sp).enemyTimer == g.enemyTimer + dt && es == g.enemies
  {
  }

  /** A running frame costs exactly 25 health per enemy that touches the
      player once moved, scores 10 per overlapping (projectile, enemy) pair,
      and ends the game exactly when a touch left health at or below 0. */
  lemma StepTally(g: Game, inp: Input, dt: int, sp: SpawnParams)
    requires !g.paused && !g.gameOver
    ensures var pl := PlayerStep(g.player, inp);
      var es := Spawned(g, pl, sp);
      var r := Step(g, inp, dt, sp);
      && r.player.health == g.player.health - CollisionDamage * PlayerHits(pl, es)
      && r.score == g.score + KillPoints * PairHits(pl.projectiles, es)
      && (r.gameOver <==> PlayerHits(pl, es) > 0 && r.player.health <= 0)
  {
    var pl := PlayerStep(g.player, inp);
    ResolveAllTally(pl, Tally(pl.health, g.gameOver, g.score, pl.projectiles), Spawned(g, pl, sp));
  }

  /** Health never rises and the kill score never falls in a frame. */
  lemma StepMonotone(g: Game, inp: Input, dt: int, sp: SpawnParams)
    ensures Step(g, inp, dt, sp).player.health <= g.player.health
    ensures Step(g, inp, dt, sp).score >= g.score
  {
    if !g.paused && !g.gameOver {
      StepTally(g, inp, dt, sp);
    }
  }

  /** In a running frame the player moves as `Player.update` says, and the
      projectiles it keeps die exactly when some moved enemy overlaps them. */
  lemma StepProjectiles(g: Game, inp: Input, dt: int, sp: SpawnParams)
    requires !g.paused && !g.gameOver
    ensures var pl := PlayerStep(g.player, inp);
      var es := Spawned(g, pl, sp);
      var ps := Step(g, inp, dt, sp).player.projectiles;
      && Step(g, inp, dt, sp).player.y == pl.y
      && Step(g, inp, dt, sp).player.cooldown == pl.cooldown
      && |ps| == |pl.projectiles|
      && forall i :: 0 <= i < |ps| ==>
           ps[i] == pl.projectiles[i].(dead := StruckBy(pl.projectiles[i], es))
  {
    var pl := PlayerStep(g.player, inp);
    ResolveAllProjectiles(pl, Tally(pl.health, g.gameOver, g.score, pl.projectiles), Spawned(g, pl, sp));
  }

  /** The enemies kept by a running frame are, in order, the moved enemies
      (after the spawn) that survive the player and every projectile. */
  lemma StepSurvivors(g: Game, inp: Input, dt: int, sp: SpawnParams)
    requires !g.paused && !g.gameOver
    ensures var pl := PlayerStep(g.player, inp);
      Step(g, inp, dt, sp).enemies
        == Seqs.Filter(Moved(Spawned(g, pl, sp)), SurvivorTest(pl, pl.projectiles))
  {
    var pl := PlayerStep(g.player, inp);
    var es := Spawned(g, pl, sp);
    var t := Tally(pl.health, g.gameOver, g.score, pl.projectiles);
    var out := ResolveAll(pl, t, es).1;
    ResolveAllEnemies(pl, t, es);
    Seqs.FilterPointwise(out, Moved(es), Alive, SurvivorTest(pl, pl.projectiles));
  }
}
