/**
 * The closed set of plant kinds (src/Plant.h) and their fixed per-kind
 * stats: price, type tag, starting health, debug colour and, for the
 * Peashooter family, firing cadence and volley.
 */
module PlantKinds {
  import opened Geometry
  import opened Projectiles

  /** One value per concrete plant class. */
  datatype Species = Peashooter | Sunflower | CherryBomb | WallNut | Repeater | IcePea {
    /** Repeater and IcePea derive from Peashooter and share its firing state. */
    predicate IsShooter() {
      Peashooter? || Repeater? || IcePea?
    }
  }

  /** The type tags the game uses, including two that name no plant class. */
  datatype PlantType = PEASHOOTER | SUNFLOWER | CHERRY_BOMB | WALNUT | SHOVEL | REPEATER | ICE_PEA | NONE

  /** The sun a Sunflower produces at a time; every price is a whole number of drops. */
  const SunDrop: int := 25

  /** Price in sun. */
  function Cost(s: Species): (c: int)
    ensures c > 0 && c % SunDrop == 0
  {
    match s
    case Peashooter => 50
    case Sunflower => 25
    case CherryBomb => 50
    case WallNut => 75
    case Repeater => 200
    case IcePea => 150
  }

  lemma CostCatalogue()
    ensures Cost(Peashooter) == 50 && Cost(Sunflower) == 25 && Cost(CherryBomb) == 50
    ensures Cost(WallNut) == 75 && Cost(Repeater) == 200 && Cost(IcePea) == 150
  {
  }

  /** The tag a plant reports for itself. */
  function TypeOf(s: Species): (t: PlantType)
    ensures t != SHOVEL && t != NONE
  {
    match s
    case Peashooter => PEASHOOTER
    case Sunflower => SUNFLOWER
    case CherryBomb => CHERRY_BOMB
    case WallNut => WALNUT
    case Repeater => REPEATER
    case IcePea => ICE_PEA
  }

  /** Distinct kinds report distinct tags, so the tag identifies the class. */
  lemma TypeOfInjective(a: Species, b: Species)
    ensures TypeOf(a) == TypeOf(b) ==> a == b
  {
  }

  /** Health a plant of this kind is built with. */
  function BaseHealth(s: Species): (h: int)
    ensures h > 0
  {
    match s
    case Peashooter => 100
    case Sunflower => 80
    case CherryBomb => 1
    case WallNut => 400
    case Repeater => 100
    case IcePea => 200
  }

  /** Debug colour; Repeater and IcePea keep the one their Peashooter base sets. */
  function PlantColor(s: Species): Color {
    match s
    case Sunflower => Yellow
    case CherryBomb => Red
    case WallNut => Brown
    case _ => Green
  }

  /** Seconds between shots of the Peashooter family. */
  function FireRate(s: Species): (r: real)
    requires s.IsShooter()
    ensures r > 0.0
  {
    match s
    case Peashooter => 1.5
    case Repeater => 1.0
    case IcePea => 1.8
  }

  /** What every shot of the Peashooter family carries. */
  const PeaDamage: int := 50
  const PeaSpeed: Vec2 := Vec2(300.0, 0.0)

  /** Where a shot starts: at the plant's right edge, a quarter of the way down, 20 by 10. */
  function Muzzle(plant: Rect): Rect {
    Rect(plant.x + plant.width, plant.y + plant.height / 4.0, 20.0, 10.0)
  }
}
