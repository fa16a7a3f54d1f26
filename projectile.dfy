/**
 * Peas in flight (src/Projectile.h, src/Projectile.cpp): a moving rectangle
 * that hits the first live zombie it overlaps, once, and disappears on
 * impact or when its corner leaves the screen.
 */
module Projectiles {
  import opened Geometry
  import opened Zombies

  datatype ProjectileType = Normal | Frozen

  /** The placeholder colour a projectile is drawn with when it has no texture. */
  function ProjectileColor(t: ProjectileType): (c: Color)
    ensures c == Blue <==> t.Frozen?
    ensures c == Blue || c == Lime
  {
    match t
    case Frozen => Blue
    case Normal => Lime
  }

  /** `r` moved by velocity `v` for `dt` seconds. */
  function Advance(r: Rect, v: Vec2, dt: real): Rect {
    r.(x := r.x + v.x * dt, y := r.y + v.y * dt)
  }

  /**
   * Off-screen test: only the top-left corner is compared, strictly, with
   * the screen's width and height.
   */
  predicate OffScreen(r: Rect, screenWidth: int, screenHeight: int) {
    r.x > screenWidth as real || r.y > screenHeight as real || r.x < 0.0 || r.y < 0.0
  }

  /** A projectile at `r` hits zombie `z`: the zombie is live and the rectangles collide. */
  ghost predicate Hits(z: Zombie, r: Rect, collide: (Rect, Rect) -> bool)
    reads z
  {
    z.active && collide(r, z.rect)
  }

  /**
   * The index of the first zombie at or after `i` that a projectile at `r`
   * hits, or -1 when there is none.
   */
  ghost function FirstHitFrom(zombies: seq<Zombie>, r: Rect, collide: (Rect, Rect) -> bool, i: nat): (k: int)
    requires i <= |zombies|
    reads zombies
    decreases |zombies| - i
    ensures k == -1 || i <= k < |zombies|
    ensures k >= 0 ==> Hits(zombies[k], r, collide)
    ensures forall j :: i <= j < |zombies| && (k < 0 || j < k) ==> !Hits(zombies[j], r, collide)
  {
    if i == |zombies| then -1
    else if zombies[i].active && collide(r, zombies[i].rect) then i
    else FirstHitFrom(zombies, r, collide, i + 1)
  }

  ghost function FirstHit(zombies: seq<Zombie>, r: Rect, collide: (Rect, Rect) -> bool): int
    reads zombies
  {
    FirstHitFrom(zombies, r, collide, 0)
  }

  /** The calls an impact makes on the zombie it hits. */
  function HitEffects(damage: int, t: ProjectileType): seq<ZombieCall> {
    [Damaged(damage)] + if t.Frozen? then [Slowed] else []
  }

  class Projectile {
    var rect: Rect
    const speed: Vec2
    var active: bool
    const color: Color
    const texture: Texture
    const sourceRect: Rect
    const currentFrame: int
    const frameTimer: real
    const frameSpeed: real
    const numFrames: int
    const damage: int
    /** The projectile's type tag (`type` in the program). */
    const kind: ProjectileType

    /** A new projectile is live, single-frame, and Normal unless told otherwise. */
    constructor (pRect: Rect, pSpeed: Vec2, pDamage: int, pTex: Texture, pType: ProjectileType := Normal)
      ensures rect == pRect && speed == pSpeed && damage == pDamage && texture == pTex && kind == pType
      ensures active
      ensures color == ProjectileColor(pType)
      ensures currentFrame == 0 && frameTimer == 0.0 && frameSpeed == 0.1 && numFrames == 1
      ensures sourceRect == Rect(0.0, 0.0, pTex.width as real, pTex.height as real)
    {
      rect := pRect;
      speed := pSpeed;
      active := true;
      damage := pDamage;
      texture := pTex;
      kind := pType;
      currentFrame := 0;
      frameTimer := 0.0;
      frameSpeed := 0.1;
      numFrames := 1;
      sourceRect := Rect(0.0, 0.0, pTex.width as real / 1 as real, pTex.height as real);
      color := if pType.Frozen? then Blue else Lime;
    }

    /**
     * One frame: move by speed times `dt`, damage the first live zombie the
     * moved rectangle collides with (slowing it too when Frozen) and stop,
     * then drop out when the corner is off screen.
     */
    method Update(dt: real, zombies: seq<Zombie>, screenWidth: int, screenHeight: int,
                  collide: (Rect, Rect) -> bool)
      requires Distinct(zombies)
      modifies this`rect, this`active, zombies
      ensures !old(active) ==>
        rect == old(rect) && !active &&
        forall j :: 0 <= j < |zombies| ==> unchanged(zombies[j])
      ensures old(active) ==> rect == Advance(old(rect), speed, dt)
      ensures old(active) ==>
        var k := old(FirstHit(zombies, Advance(rect, speed, dt), collide));
        (forall j :: 0 <= j < |zombies| && j != k ==> unchanged(zombies[j])) &&
        (k >= 0 ==> zombies[k].calls == old(zombies[k].calls) + HitEffects(damage, kind)) &&
        active == (k < 0 && !OffScreen(rect, screenWidth, screenHeight))
      ensures active ==> old(active)
    {
      if !active {
        return;
      }
      rect := Advance(rect, speed, dt);
      ghost var k := FirstHit(zombies, rect, collide);
      var i := 0;
      while i < |zombies|
        invariant 0 <= i <= |zombies|
        invariant active && rect == Advance(old(rect), speed, dt)
        invariant k == FirstHitFrom(zombies, rect, collide, i)
        invariant forall j :: 0 <= j < |zombies| ==> unchanged(zombies[j])
      {
        var zombie := zombies[i];
        if zombie.active && collide(rect, zombie.rect) {
          zombie.TakeDamage(damage);
          if kind.Frozen? {
            zombie.ApplySlowEffect();
          }
          active := false;
          break;
        }
        i := i + 1;
      }
      if OffScreen(rect, screenWidth, screenHeight) {
        active := false;
      }
    }
  }
}
