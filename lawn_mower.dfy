/**
 * The lawn mower of one row (src/LawnMower.cpp): parked until the host sets
 * `activated`, then driven right at a fixed speed. Removing it once it is
 * off screen is the host's job, not the mower's.
 */
module Mowers {
  import opened Geometry

  class LawnMower {
    var rect: Rect
    const row: int
    const texture: Texture
    /** Cleared by the host once the mower has left the screen. */
    var active: bool
    /** Set by the host when a zombie reaches the mower's row. */
    var activated: bool
    /** Pixels per second, the same for every mower. */
    const speed: real := 300.0

    constructor (r: Rect, rw: int, tex: Texture)
      ensures rect == r && row == rw && texture == tex
      ensures active && !activated && speed == 300.0
    {
      rect, row, texture := r, rw, tex;
      active, activated := true, false;
    }

    /**
     * One frame: an activated, active mower moves right by speed times `dt`;
     * any other mower stays put. The flags are never changed here, and a
     * non-negative `dt` never moves the mower left.
     */
    method Update(dt: real)
      modifies this`rect
      ensures activated && active ==> rect == old(rect).(x := old(rect.x) + speed * dt)
      ensures !(activated && active) ==> rect == old(rect)
      ensures dt >= 0.0 ==> rect.x >= old(rect.x)
    {
      if activated && active {
        rect := rect.(x := rect.x + speed * dt);
      }
    }
  }
}
