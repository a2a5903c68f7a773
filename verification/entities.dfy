/** Projectiles and enemies: `Projectile.update`, the `Enemy` constructor and
    `Enemy.update`. Sizes and speeds are the constants the constructors set. */
module Entities {
  import opened Geometry

  const ProjectileW: int := 14
  const ProjectileH: int := 5
  const ProjectileSpeed: int := 8

  const EnemyW: int := 90
  const EnemyH: int := 90
  /** A spawn closer than this (vertically) to the player is shifted away. */
  const DodgeDistance: int := 120
  const DodgeShift: int := 150

  datatype Projectile = Projectile(x: int, y: int, dead: bool)
  {
    function Bounds(): Box { Box(x, y, ProjectileW, ProjectileH) }
  }

  /** An enemy; `speed` is the leftward distance it covers per frame. */
  datatype Enemy = Enemy(x: int, y: int, speed: int, dead: bool)
  {
    function Bounds(): Box { Box(x, y, EnemyW, EnemyH) }
  }

  /** The random draws of the `Enemy` constructor, supplied by the caller:
      the source draws x in [1000, 1300), y in [0, 410) and speed in [2, 4). */
  datatype SpawnParams = SpawnParams(x: int, y: int, speed: int)

  function Abs(v: int): nat
  {
    if v < 0 then -v else v
  }

  /** `a % canvas.height` with JavaScript's `%`, which truncates toward zero:
      the remainder takes the sign of the dividend. */
  function JsRemHeight(a: int): (r: int)
    ensures a >= 0 ==> 0 <= r < CanvasHeight
    ensures a < 0 ==> -CanvasHeight < r <= 0
    ensures (a - r) % CanvasHeight == 0
  {
    if a >= 0 then a % CanvasHeight else -((-a) % CanvasHeight)
  }

  /** `Projectile.update`: advance by the projectile speed and die once past
      the right edge of the canvas. */
  function ProjectileStep(p: Projectile): (q: Projectile)
    ensures q.y == p.y && q.x == p.x + ProjectileSpeed
    ensures !q.dead ==> q.x <= CanvasWidth
    ensures p.dead ==> q.dead
    ensures !p.dead && q.x <= CanvasWidth ==> !q.dead
  {
    var x := p.x + ProjectileSpeed;
    Projectile(x, p.y, p.dead || x > CanvasWidth)
  }

  /** `Enemy.update`: move left by the enemy's speed and die once wholly past
      the left edge of the canvas. */
  function EnemyStep(e: Enemy): (q: Enemy)
    ensures q.y == e.y && q.speed == e.speed && q.x == e.x - e.speed
    ensures !q.dead ==> q.x + EnemyW >= 0
    ensures e.dead ==> q.dead
    ensures !e.dead && q.x + EnemyW >= 0 ==> !q.dead
  {
    var x := e.x - e.speed;
    Enemy(x, e.y, e.speed, e.dead || x + EnemyW < 0)
  }

  /** The `Enemy` constructor given its random draws and the player's
      current y: a spawn too close to the player is shifted down by 150,
      wrapping at the canvas height. */
  function SpawnEnemy(sp: SpawnParams, playerY: int): (e: Enemy)
    ensures e.x == sp.x && e.speed == sp.speed && !e.dead
    ensures Abs(sp.y - playerY) >= DodgeDistance ==> e.y == sp.y
    ensures Abs(sp.y - playerY) < DodgeDistance ==> (sp.y + DodgeShift - e.y) % CanvasHeight == 0
    ensures Abs(sp.y - playerY) < DodgeDistance && playerY >= 0 ==> 0 <= e.y < CanvasHeight
  {
    var y := if Abs(sp.y - playerY) < DodgeDistance
             then JsRemHeight(sp.y + DodgeShift)
             else sp.y;
    Enemy(sp.x, y, sp.speed, false)
  }
}
