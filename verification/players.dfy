/** The player: the `Player` constructor and `Player.update`. */
module Players {
  import opened Geometry
  import opened Entities
  import Seqs

  const PlayerX: int := 30
  const PlayerW: int := 70
  const PlayerH: int := 70
  const PlayerSpeed: int := 5
  const MaxHealth: int := 100
  /** Frames between shots: a shot sets the cooldown to this value. */
  const FireDelay: int := 15
  /** The lowest y the player may reach: `canvas.height - h`. */
  const MaxY: int := CanvasHeight - PlayerH
  /** `canvas.height / 2 - h / 2`; both halves are exact, so this is 215. */
  const StartY: int := CanvasHeight / 2 - PlayerH / 2

  /** The three input flags the frame reads. */
  datatype Input = Input(up: bool, down: bool, shoot: bool)

  datatype Player = Player(y: int, health: int, cooldown: int, projectiles: seq<Projectile>)
  {
    function Bounds(): Box { Box(PlayerX, y, PlayerW, PlayerH) }
  }

  /** The state the `Player` constructor builds. */
  const InitialPlayer: Player := Player(StartY, MaxHealth, 0, [])

  /** `Math.max(0, Math.min(canvas.height - h, v))`. */
  function Clamp(v: int): (r: int)
    ensures 0 <= r <= MaxY
    ensures 0 <= v <= MaxY ==> r == v
    ensures v < 0 ==> r == 0
    ensures v > MaxY ==> r == MaxY
  {
    if v < 0 then 0 else if v > MaxY then MaxY else v
  }

  /** The player's y after this frame's movement. */
  function Aim(p: Player, inp: Input): int
  {
    var afterUp := if inp.up then p.y - PlayerSpeed else p.y;
    var afterDown := if inp.down then afterUp + PlayerSpeed else afterUp;
    Clamp(afterDown)
  }

  /** A shot is fired when shoot is held and the cooldown has run out. */
  predicate Fires(p: Player, inp: Input)
  {
    inp.shoot && p.cooldown <= 0
  }

  /** The projectile a shot creates, at the player's right edge, mid-height. */
  function Muzzle(y: int): Projectile
  {
    Projectile(PlayerX + PlayerW, y + PlayerH / 2, false)
  }

  /** The projectile list after an eventual shot, before it is advanced. */
  function Fired(p: Player, inp: Input): seq<Projectile>
  {
    p.projectiles + if Fires(p, inp) then [Muzzle(Aim(p, inp))] else []
  }

  function Advance(ps: seq<Projectile>): seq<Projectile>
  {
    seq(|ps|, i requires 0 <= i < |ps| => ProjectileStep(ps[i]))
  }

  predicate Live(p: Projectile)
  {
    !p.dead
  }

  /** `Player.update`: move and clamp, maybe shoot, count the cooldown down,
      advance the projectiles and drop the dead ones. */
  function PlayerStep(p: Player, inp: Input): (q: Player)
    ensures 0 <= q.y <= MaxY
    ensures q.y == Clamp(p.y - (if inp.up then PlayerSpeed else 0) + (if inp.down then PlayerSpeed else 0))
    ensures q.health == p.health
    ensures |q.projectiles| <= |p.projectiles| + if Fires(p, inp) then 1 else 0
    ensures Fires(p, inp) ==> q.cooldown == FireDelay - 1
    ensures !Fires(p, inp) ==> q.cooldown == if p.cooldown > 0 then p.cooldown - 1 else p.cooldown
    ensures 0 <= p.cooldown <= FireDelay ==> 0 <= q.cooldown < FireDelay
    ensures forall r :: r in q.projectiles ==> !r.dead && r.x <= CanvasWidth
  {
    var cooldown := if Fires(p, inp) then FireDelay else p.cooldown;
    Player(Aim(p, inp), p.health,
           if cooldown > 0 then cooldown - 1 else cooldown,
           Seqs.Filter(Advance(Fired(p, inp)), Live))
  }

  /** The projectiles kept by `PlayerStep` are exactly the live ones that are
      still on screen after moving 8 to the right; a new shot is among them. */
  lemma PlayerStepProjectiles(p: Player, inp: Input)
    ensures forall r :: r in PlayerStep(p, inp).projectiles <==>
      exists r0 :: r0 in Fired(p, inp) && !r0.dead && r0.x + ProjectileSpeed <= CanvasWidth
                   && r == r0.(x := r0.x + ProjectileSpeed)
    ensures Fires(p, inp) ==> ProjectileStep(Muzzle(PlayerStep(p, inp).y)) in PlayerStep(p, inp).projectiles
  {
    var fired := Fired(p, inp);
    var moved := Advance(fired);
    var kept := PlayerStep(p, inp).projectiles;
    assert kept == Seqs.Filter(moved, Live);
    forall r | r in kept
      ensures exists r0 :: r0 in fired && !r0.dead && r0.x + ProjectileSpeed <= CanvasWidth
                           && r == r0.(x := r0.x + ProjectileSpeed)
    {
      var i :| 0 <= i < |moved| && moved[i] == r;
      assert fired[i] in fired;
    }
    forall r0 | r0 in fired && !r0.dead && r0.x + ProjectileSpeed <= CanvasWidth
      ensures r0.(x := r0.x + ProjectileSpeed) in kept
    {
      var i :| 0 <= i < |fired| && fired[i] == r0;
      assert moved[i] == r0.(x := r0.x + ProjectileSpeed);
      assert Live(moved[i]);
    }
    if Fires(p, inp) {
      assert fired[|fired| - 1] == Muzzle(PlayerStep(p, inp).y);
    }
  }

  /** The number of shots fired over a run of frames with the given inputs. */
  function Shots(p: Player, ins: seq<Input>): (n: nat)
    ensures n <= |ins|
    decreases |ins|
  {
    if |ins| == 0 then 0
    else (if Fires(p, ins[0]) then 1 else 0) + Shots(PlayerStep(p, ins[0]), ins[1..])
  }

  /** The fire rate: starting from a cooldown c >= 0, n frames hold at most
      (n + 14 - min(c, 14)) / 15 shots, whatever the inputs. */
  lemma {:induction false} FireRate(p: Player, ins: seq<Input>)
    requires p.cooldown >= 0
    ensures var wait := if p.cooldown < FireDelay - 1 then p.cooldown else FireDelay - 1;
      FireDelay * Shots(p, ins) <= |ins| + FireDelay - 1 - wait
    decreases |ins|
  {
    if |ins| > 0 {
      FireRate(PlayerStep(p, ins[0]), ins[1..]);
    }
  }

  /** Corollary: any 15 consecutive frames contain at most one shot. */
  lemma OneShotPerWindow(p: Player, ins: seq<Input>)
    requires p.cooldown >= 0
    requires |ins| <= FireDelay
    ensures Shots(p, ins) <= 1
  {
    FireRate(p, ins);
  }
}
