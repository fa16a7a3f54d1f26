/**
 * The part of a zombie that plants and projectiles touch. The zombie's own
 * class is not part of this model: only the four fields the core reads or
 * writes are kept, and the two zombie methods the core calls are recorded in
 * a ghost log instead of being given an effect the model cannot know.
 */
module Zombies {
  import opened Geometry

  /** A call the core made on a zombie. */
  datatype ZombieCall = Damaged(amount: int) | Slowed

  class Zombie {
    var active: bool
    var row: int
    var rect: Rect
    var health: int
    /** The calls made on this zombie through its own methods, in order. */
    ghost var calls: seq<ZombieCall>

    /**
     * The zombie's damage path. What it does to the zombie's fields is
     * defined outside this model, so the contract records the call and
     * promises nothing else.
     */
    method TakeDamage(damage: int)
      modifies this
      ensures calls == old(calls) + [Damaged(damage)]
    {
      calls := calls + [Damaged(damage)];
    }

    /** The zombie's slow effect; recorded, effect unknown to the model. */
    method ApplySlowEffect()
      modifies this
      ensures calls == old(calls) + [Slowed]
    {
      calls := calls + [Slowed];
    }
  }

  /** The host keeps each zombie behind its own unique pointer. */
  ghost predicate Distinct(zombies: seq<Zombie>) {
    forall i, j :: 0 <= i < j < |zombies| ==> zombies[i] != zombies[j]
  }
}
