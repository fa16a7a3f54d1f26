/**
 * A planted plant and its per-frame behaviour (src/Plant.h, src/Plant.cpp).
 *
 * The program's class hierarchy becomes one class whose `kind` says which
 * concrete plant it is; fields that only one subclass has are present on
 * every plant and ignored by the other kinds. Fields the program never
 * reassigns after construction are `const`. The frame's shared state is
 * passed in: the zombies, the projectile list (returned with any new shots
 * appended) and the sun counter (returned updated).
 */
module Plants {
  import opened Geometry
  import opened Zombies
  import opened Projectiles
  import opened PlantKinds
  import opened CherryBlast
  import opened SunProduction

  /** Zombie `z` is a target for a shooter in `row` standing at `x`: live, in the lane, strictly ahead. */
  ghost predicate InLaneAhead(z: Zombie, row: int, x: real)
    reads z
  {
    z.active && z.row == row && z.rect.x > x
  }

  ghost predicate LaneHasTarget(zombies: seq<Zombie>, row: int, x: real)
    reads zombies
  {
    exists i :: 0 <= i < |zombies| && InLaneAhead(zombies[i], row, x)
  }

  /** The lane scan every shooter runs before firing; it stops at the first target. */
  method ZombieInLane(zombies: seq<Zombie>, row: int, x: real) returns (found: bool)
    ensures found <==> LaneHasTarget(zombies, row, x)
  {
    found := false;
    var i := 0;
    while i < |zombies|
      invariant 0 <= i <= |zombies|
      invariant forall j :: 0 <= j < i ==> !InLaneAhead(zombies[j], row, x)
    {
      var zombie := zombies[i];
      if zombie.active && zombie.row == row && zombie.rect.x > x {
        found := true;
        break;
      }
      i := i + 1;
    }
  }

  /**
   * The blast of a Cherry Bomb: every live zombie whose rectangle collides
   * with `area` loses `damage` health, by direct subtraction; nothing else
   * about any zombie changes.
   */
  method ApplyBlast(zombies: seq<Zombie>, area: Rect, damage: int, collide: (Rect, Rect) -> bool)
    requires Distinct(zombies)
    modifies zombies`health
    ensures forall i :: 0 <= i < |zombies| ==>
      zombies[i].health ==
        old(zombies[i].health) - if old(zombies[i].active) && collide(area, old(zombies[i].rect)) then damage else 0
    ensures forall i :: 0 <= i < |zombies| ==>
      zombies[i].active == old(zombies[i].active) && zombies[i].rect == old(zombies[i].rect) &&
      zombies[i].row == old(zombies[i].row) && zombies[i].calls == old(zombies[i].calls)
  {
    var i := 0;
    while i < |zombies|
      invariant 0 <= i <= |zombies|
      invariant forall j :: 0 <= j < i ==>
        zombies[j].health ==
          old(zombies[j].health) - if zombies[j].active && collide(area, zombies[j].rect) then damage else 0
      invariant forall j :: i <= j < |zombies| ==> zombies[j].health == old(zombies[j].health)
    {
      var zombie := zombies[i];
      if zombie.active && collide(area, zombie.rect) {
        zombie.health := zombie.health - damage;
      }
      i := i + 1;
    }
  }

  /** A shot fired by a plant standing at `from`. */
  ghost predicate IsShot(p: Projectile, from: Rect, t: ProjectileType, tex: Texture)
    reads p
  {
    p.rect == Muzzle(from) && p.speed == PeaSpeed && p.damage == PeaDamage &&
    p.kind == t && p.texture == tex && p.active && p.color == ProjectileColor(t)
  }

  class Plant {
    const kind: Species
    const rect: Rect
    var health: int
    var active: bool
    const color: Color
    const texture: Texture
    /** The current frame's rectangle in the sprite sheet. */
    var sourceRect: Rect
    const row: int
    const col: int

    var currentFrame: int
    var frameTimer: real
    const frameSpeed: real
    const numFrames: int

    // Peashooter, Repeater and IcePea
    const fireRate: real
    var fireTimer: real
    // Sunflower
    const sunProductionInterval: real
    var sunProductionTimer: real
    // CherryBomb
    var fuseTimer: real
    var exploded: bool
    const explosionSound: Sound
    // IcePea
    const icePeaProjectileTex: Texture

    /** The sounds this plant has triggered, in order. */
    ghost var soundsPlayed: seq<Sound>
    /** How many times this plant has detonated. */
    ghost var detonations: nat

    ghost predicate Valid()
      reads this
    {
      (health <= 0 ==> !active) &&
      1 <= numFrames && 0 <= currentFrame < numFrames &&
      sourceRect.x == currentFrame as real * sourceRect.width &&
      (kind.IsShooter() ==> fireRate == FireRate(kind)) &&
      (kind.Sunflower? ==> sunProductionInterval == SunInterval && sunProductionTimer < SunInterval) &&
      (exploded ==> kind.CherryBomb? && !active) &&
      detonations == (if exploded then 1 else 0)
    }

    /** The state every plant starts in, whatever its kind. */
    ghost predicate Planted(k: Species, r: Rect, rw: int, cl: int, tex: Texture)
      reads this
    {
      kind == k && rect == r && row == rw && col == cl && texture == tex &&
      health == BaseHealth(k) && color == PlantColor(k) && active &&
      currentFrame == 0 && frameTimer == 0.0 && frameSpeed == 0.0 && numFrames == 1 &&
      sourceRect == Rect(0.0, 0.0, tex.width as real, tex.height as real) &&
      soundsPlayed == [] && detonations == 0
    }

    constructor Peashooter(r: Rect, rw: int, cl: int, tex: Texture)
      ensures Valid() && Planted(Species.Peashooter, r, rw, cl, tex)
      ensures fireRate == 1.5 && fireTimer == fireRate
    {
      kind := Species.Peashooter;
      rect, health, active, color, texture := r, 100, true, Green, tex;
      row, col := rw, cl;
      currentFrame, frameTimer, frameSpeed, numFrames := 0, 0.0, 0.0, 1;
      sourceRect := Rect(0.0, 0.0, tex.width as real / 1 as real, tex.height as real);
      fireRate, fireTimer := 1.5, 1.5;
      sunProductionInterval, sunProductionTimer := 0.0, 0.0;
      fuseTimer, exploded, explosionSound := 0.0, false, Sound(0);
      icePeaProjectileTex := Texture(0, 0, 0);
      soundsPlayed, detonations := [], 0;
    }

    constructor Sunflower(r: Rect, rw: int, cl: int, tex: Texture)
      ensures Valid() && Planted(Species.Sunflower, r, rw, cl, tex)
      ensures sunProductionInterval == 10.0 && sunProductionTimer == 0.0
    {
      kind := Species.Sunflower;
      rect, health, active, color, texture := r, 80, true, Yellow, tex;
      row, col := rw, cl;
      currentFrame, frameTimer, frameSpeed, numFrames := 0, 0.0, 0.0, 1;
      sourceRect := Rect(0.0, 0.0, tex.width as real / 1 as real, tex.height as real);
      fireRate, fireTimer := 0.0, 0.0;
      sunProductionInterval, sunProductionTimer := 10.0, 0.0;
      fuseTimer, exploded, explosionSound := 0.0, false, Sound(0);
      icePeaProjectileTex := Texture(0, 0, 0);
      soundsPlayed, detonations := [], 0;
    }

    constructor CherryBomb(r: Rect, rw: int, cl: int, tex: Texture, expSound: Sound)
      ensures Valid() && Planted(Species.CherryBomb, r, rw, cl, tex)
      ensures fuseTimer == 0.0 && !exploded && explosionSound == expSound
    {
      kind := Species.CherryBomb;
      rect, health, active, color, texture := r, 1, true, Red, tex;
      row, col := rw, cl;
      currentFrame, frameTimer, frameSpeed, numFrames := 0, 0.0, 0.0, 1;
      sourceRect := Rect(0.0, 0.0, tex.width as real / 1 as real, tex.height as real);
      fireRate, fireTimer := 0.0, 0.0;
      sunProductionInterval, sunProductionTimer := 0.0, 0.0;
      fuseTimer, exploded, explosionSound := 0.0, false, expSound;
      icePeaProjectileTex := Texture(0, 0, 0);
      soundsPlayed, detonations := [], 0;
    }

    constructor WallNut(r: Rect, rw: int, cl: int, tex: Texture)
      ensures Valid() && Planted(Species.WallNut, r, rw, cl, tex)
    {
      kind := Species.WallNut;
      rect, health, active, color, texture := r, 400, true, Brown, tex;
      row, col := rw, cl;
      currentFrame, frameTimer, frameSpeed, numFrames := 0, 0.0, 0.0, 1;
      sourceRect := Rect(0.0, 0.0, tex.width as real / 1 as real, tex.height as real);
      fireRate, fireTimer := 0.0, 0.0;
      sunProductionInterval, sunProductionTimer := 0.0, 0.0;
      fuseTimer, exploded, explosionSound := 0.0, false, Sound(0);
      icePeaProjectileTex := Texture(0, 0, 0);
      soundsPlayed, detonations := [], 0;
    }

    /** A Peashooter with a faster cadence; its health is set after the base constructor. */
    constructor Repeater(r: Rect, rw: int, cl: int, tex: Texture)
      ensures Valid() && Planted(Species.Repeater, r, rw, cl, tex)
      ensures fireRate == 1.0 && fireTimer == fireRate
    {
      kind := Species.Repeater;
      rect, health, active, color, texture := r, 100, true, Green, tex;
      row, col := rw, cl;
      currentFrame, frameTimer, frameSpeed, numFrames := 0, 0.0, 0.0, 1;
      sourceRect := Rect(0.0, 0.0, tex.width as real / 1 as real, tex.height as real);
      fireRate, fireTimer := 1.0, 1.0;
      sunProductionInterval, sunProductionTimer := 0.0, 0.0;
      fuseTimer, exploded, explosionSound := 0.0, false, Sound(0);
      icePeaProjectileTex := Texture(0, 0, 0);
      soundsPlayed, detonations := [], 0;
    }

    /** A Peashooter with a slower cadence that fires frozen peas. */
    constructor IcePea(r: Rect, rw: int, cl: int, tex: Texture, icePeaProjTex: Texture)
      ensures Valid() && Planted(Species.IcePea, r, rw, cl, tex)
      ensures fireRate == 1.8 && fireTimer == fireRate && icePeaProjectileTex == icePeaProjTex
    {
      kind := Species.IcePea;
      rect, health, active, color, texture := r, 200, true, Green, tex;
      row, col := rw, cl;
      currentFrame, frameTimer, frameSpeed, numFrames := 0, 0.0, 0.0, 1;
      sourceRect := Rect(0.0, 0.0, tex.width as real / 1 as real, tex.height as real);
      fireRate, fireTimer := 1.8, 1.8;
      sunProductionInterval, sunProductionTimer := 0.0, 0.0;
      fuseTimer, exploded, explosionSound := 0.0, false, Sound(0);
      icePeaProjectileTex := icePeaProjTex;
      soundsPlayed, detonations := [], 0;
    }

    /**
     * The single kill path: health drops by exactly `damage`, also on a plant
     * that is already inactive, and the plant becomes inactive once health
     * is at most zero. Nothing else changes.
     */
    method TakeDamage(damage: int)
      requires Valid()
      modifies this`health, this`active
      ensures Valid()
      ensures health == old(health) - damage
      ensures active == (old(active) && health > 0)
      ensures health <= 0 ==> !active
    {
      health := health - damage;
      if health <= 0 {
        active := false;
      }
    }

    /** The animation step of one frame, relating the state before and after. */
    twostate predicate Animated(dt: real)
      reads this
    {
      1 <= numFrames &&
      if old(frameTimer) + dt >= frameSpeed then
        frameTimer == 0.0 && currentFrame == (old(currentFrame) + 1) % numFrames &&
        sourceRect == old(sourceRect).(x := currentFrame as real * sourceRect.width)
      else
        frameTimer == old(frameTimer) + dt && currentFrame == old(currentFrame) &&
        sourceRect == old(sourceRect)
    }

    /**
     * The frame-animation tick every plant runs: the timer accumulates and,
     * once it reaches the frame duration, restarts while the frame advances
     * cyclically and the sprite-sheet window follows it.
     */
    method Animate(dt: real)
      requires Valid()
      modifies this`frameTimer, this`currentFrame, this`sourceRect
      ensures Valid() && Animated(dt)
    {
      frameTimer := frameTimer + dt;
      if frameTimer >= frameSpeed {
        frameTimer := 0.0;
        currentFrame := (currentFrame + 1) % numFrames;
        sourceRect := sourceRect.(x := currentFrame as real * sourceRect.width);
      }
    }

    /** Single-frame plants never leave frame 0. */
    lemma SingleFrameStaysAtZero()
      requires Valid() && numFrames == 1
      ensures currentFrame == 0 && sourceRect.x == 0.0
    {
    }

    /**
     * Peashooter: when the fire timer has reached the cadence and a zombie
     * is in the lane ahead, one Normal pea is appended and the timer
     * restarts; otherwise the timer keeps growing.
     */
    method UpdatePeashooter(dt: real, zombies: seq<Zombie>, projectiles: seq<Projectile>,
                            shootSound: Sound, peaTex: Texture)
      returns (projectiles': seq<Projectile>, ghost fired: bool)
      requires Valid() && kind.Peashooter?
      modifies this`frameTimer, this`currentFrame, this`sourceRect, this`fireTimer, this`soundsPlayed
      ensures Valid()
      ensures fired == (old(active) && old(fireTimer) + dt >= fireRate && LaneHasTarget(zombies, row, rect.x))
      ensures !old(active) ==> unchanged(this) && projectiles' == projectiles
      ensures old(active) ==> Animated(dt)
      ensures old(active) ==> fireTimer == if fired then 0.0 else old(fireTimer) + dt
      ensures soundsPlayed == old(soundsPlayed) + if fired then [shootSound] else []
      ensures |projectiles'| == |projectiles| + (if fired then 1 else 0)
      ensures projectiles'[..|projectiles|] == projectiles
      ensures fired ==>
        fresh(projectiles'[|projectiles|]) && IsShot(projectiles'[|projectiles|], rect, Normal, peaTex)
    {
      projectiles', fired := projectiles, false;
      if !active {
        return;
      }
      Animate(dt);
      fireTimer := fireTimer + dt;
      if fireTimer >= fireRate {
        var zombieInLane := ZombieInLane(zombies, row, rect.x);
        if zombieInLane {
          fireTimer := 0.0;
          var pea := new Projectile(Muzzle(rect), PeaSpeed, PeaDamage, peaTex, Normal);
          projectiles' := projectiles' + [pea];
          soundsPlayed := soundsPlayed + [shootSound];
          fired := true;
        }
      }
    }

    /**
     * Repeater: the Peashooter's policy with two identical Normal peas per
     * volley, of which only the first triggers the shoot sound.
     */
    method UpdateRepeater(dt: real, zombies: seq<Zombie>, projectiles: seq<Projectile>,
                          shootSound: Sound, peaTex: Texture)
      returns (projectiles': seq<Projectile>, ghost fired: bool)
      requires Valid() && kind.Repeater?
      modifies this`frameTimer, this`currentFrame, this`sourceRect, this`fireTimer, this`soundsPlayed
      ensures Valid()
      ensures fired == (old(active) && old(fireTimer) + dt >= fireRate && LaneHasTarget(zombies, row, rect.x))
      ensures !old(active) ==> unchanged(this) && projectiles' == projectiles
      ensures old(active) ==> Animated(dt)
      ensures old(active) ==> fireTimer == if fired then 0.0 else old(fireTimer) + dt
      ensures soundsPlayed == old(soundsPlayed) + if fired then [shootSound] else []
      ensures |projectiles'| == |projectiles| + (if fired then 2 else 0)
      ensures projectiles'[..|projectiles|] == projectiles
      ensures fired ==>
        var first, second := projectiles'[|projectiles|], projectiles'[|projectiles| + 1];
        fresh(first) && fresh(second) && first != second &&
        IsShot(first, rect, Normal, peaTex) && IsShot(second, rect, Normal, peaTex)
    {
      projectiles', fired := projectiles, false;
      if !active {
        return;
      }
      Animate(dt);
      fireTimer := fireTimer + dt;
      if fireTimer >= fireRate {
        var zombieInLane := ZombieInLane(zombies, row, rect.x);
        if zombieInLane {
          fireTimer := 0.0;
          var first := new Projectile(Muzzle(rect), PeaSpeed, PeaDamage, peaTex, Normal);
          projectiles' := projectiles' + [first];
          soundsPlayed := soundsPlayed + [shootSound];
          var second := new Projectile(Muzzle(rect), PeaSpeed, PeaDamage, peaTex, Normal);
          projectiles' := projectiles' + [second];
          fired := true;
        }
      }
    }

    /**
     * IcePea: the Peashooter's policy with one Frozen pea that uses the
     * plant's own projectile texture instead of the one passed in.
     */
    method UpdateIcePea(dt: real, zombies: seq<Zombie>, projectiles: seq<Projectile>,
                        shootSound: Sound, peaTex: Texture)
      returns (projectiles': seq<Projectile>, ghost fired: bool)
      requires Valid() && kind.IcePea?
      modifies this`frameTimer, this`currentFrame, this`sourceRect, this`fireTimer, this`soundsPlayed
      ensures Valid()
      ensures fired == (old(active) && old(fireTimer) + dt >= fireRate && LaneHasTarget(zombies, row, rect.x))
      ensures !old(active) ==> unchanged(this) && projectiles' == projectiles
      ensures old(active) ==> Animated(dt)
      ensures old(active) ==> fireTimer == if fired then 0.0 else old(fireTimer) + dt
      ensures soundsPlayed == old(soundsPlayed) + if fired then [shootSound] else []
      ensures |projectiles'| == |projectiles| + (if fired then 1 else 0)
      ensures projectiles'[..|projectiles|] == projectiles
      ensures fired ==>
        fresh(projectiles'[|projectiles|]) &&
        IsShot(projectiles'[|projectiles|], rect, Frozen, icePeaProjectileTex)
    {
      projectiles', fired := projectiles, false;
      if !active {
        return;
      }
      Animate(dt);
      fireTimer := fireTimer + dt;
      if fireTimer >= fireRate {
        var zombieInLane := ZombieInLane(zombies, row, rect.x);
        if zombieInLane {
          fireTimer := 0.0;
          var pea := new Projectile(Muzzle(rect), PeaSpeed, PeaDamage, icePeaProjectileTex, Frozen);
          projectiles' := projectiles' + [pea];
          soundsPlayed := soundsPlayed + [shootSound];
          fired := true;
        }
      }
    }

    /**
     * Sunflower: the production timer advances and, once it reaches the
     * interval, 25 sun is added to the counter and the timer restarts.
     */
    method UpdateSunflower(dt: real, sun: int) returns (sun': int)
      requires Valid() && kind.Sunflower?
      modifies this`frameTimer, this`currentFrame, this`sourceRect, this`sunProductionTimer
      ensures Valid()
      ensures !old(active) ==> unchanged(this) && sun' == sun
      ensures old(active) ==>
        Animated(dt) &&
        var tick := SunflowerTick(old(sunProductionTimer), dt);
        sunProductionTimer == tick.timer && sun' == sun + tick.produced
      ensures sun' == sun || sun' == sun + SunDrop
    {
      sun' := sun;
      if !active {
        return;
      }
      Animate(dt);
      sunProductionTimer := sunProductionTimer + dt;
      if sunProductionTimer >= sunProductionInterval {
        sunProductionTimer := 0.0;
        sun' := sun' + 25;
      }
    }

    /**
     * CherryBomb: the fuse burns; once it reaches its duration the bomb
     * marks itself exploded and inactive, plays its sound, and subtracts
     * 9999 health from every live zombie colliding with the blast area. An
     * inactive or exploded bomb does nothing.
     */
    method UpdateCherryBomb(dt: real, zombies: seq<Zombie>, g: Grid, collide: (Rect, Rect) -> bool)
      requires Valid() && kind.CherryBomb? && Distinct(zombies)
      modifies this`frameTimer, this`currentFrame, this`sourceRect, this`fuseTimer, this`exploded
      modifies this`active, this`soundsPlayed, this`detonations, zombies`health
      ensures Valid()
      ensures !old(active) || old(exploded) ==>
        unchanged(this) && forall i :: 0 <= i < |zombies| ==> unchanged(zombies[i])
      ensures old(active) && !old(exploded) ==>
        Animated(dt) && fuseTimer == old(fuseTimer) + dt &&
        var blast := fuseTimer >= FuseDuration;
        exploded == blast && active == !blast &&
        soundsPlayed == old(soundsPlayed) + (if blast then [explosionSound] else []) &&
        forall i :: 0 <= i < |zombies| ==>
          zombies[i].health == old(zombies[i].health) -
            if blast && old(zombies[i].active) && collide(BlastArea(g, row, col), old(zombies[i].rect))
            then ExplosionDamage else 0
      ensures old(active) && !old(exploded) ==> detonations == (if exploded then 1 else 0)
      ensures detonations <= 1
    {
      if !active || exploded {
        return;
      }
      Animate(dt);
      fuseTimer := fuseTimer + dt;
      if fuseTimer >= FuseDuration {
        exploded := true;
        active := false;
        soundsPlayed := soundsPlayed + [explosionSound];
        detonations := detonations + 1;
        ApplyBlast(zombies, BlastArea(g, row, col), ExplosionDamage, collide);
      }
    }

    /** WallNut: only the animation runs. */
    method UpdateWallNut(dt: real)
      requires Valid() && kind.WallNut?
      modifies this`frameTimer, this`currentFrame, this`sourceRect
      ensures Valid()
      ensures !old(active) ==> unchanged(this)
      ensures old(active) ==> Animated(dt)
    {
      if !active {
        return;
      }
      Animate(dt);
    }

    /**
     * The per-frame update every plant offers, dispatched on its kind. What
     * holds for all kinds: an inactive plant changes nothing; existing
     * projectiles are kept, in order; only the Peashooter family adds any,
     * only a Sunflower changes the sun, and it only ever increases it; only a
     * Cherry Bomb touches zombies.
     */
    method Update(dt: real, zombies: seq<Zombie>, projectiles: seq<Projectile>, sun: int,
                  shootSound: Sound, peaTex: Texture, g: Grid, collide: (Rect, Rect) -> bool)
      returns (projectiles': seq<Projectile>, sun': int)
      requires Valid() && Distinct(zombies)
      modifies this, zombies`health
      ensures Valid()
      ensures !old(active) ==>
        unchanged(this) && projectiles' == projectiles && sun' == sun &&
        forall i :: 0 <= i < |zombies| ==> unchanged(zombies[i])
      ensures |projectiles'| >= |projectiles| && projectiles'[..|projectiles|] == projectiles
      ensures !kind.IsShooter() ==> projectiles' == projectiles
      ensures kind.Sunflower? ==> sun <= sun'
      ensures !kind.Sunflower? ==> sun' == sun
      ensures !kind.CherryBomb? ==> forall i :: 0 <= i < |zombies| ==> unchanged(zombies[i])
      ensures health == old(health)
      ensures active ==> old(active)
    {
      projectiles', sun' := projectiles, sun;
      match kind
      case Peashooter =>
        ghost var fired;
        projectiles', fired := UpdatePeashooter(dt, zombies, projectiles, shootSound, peaTex);
      case Repeater =>
        ghost var fired;
        projectiles', fired := UpdateRepeater(dt, zombies, projectiles, shootSound, peaTex);
      case IcePea =>
        ghost var fired;
        projectiles', fired := UpdateIcePea(dt, zombies, projectiles, shootSound, peaTex);
      case Sunflower =>
        sun' := UpdateSunflower(dt, sun);
      case CherryBomb =>
        UpdateCherryBomb(dt, zombies, g, collide);
      case WallNut =>
        UpdateWallNut(dt);
    }
  }
}
