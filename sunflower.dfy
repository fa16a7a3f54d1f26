/**
 * Sun production of a Sunflower (src/Plant.cpp:86, 101-106) as a function of
 * its production timer and the frame time, and what it adds up to over a
 * run of frames.
 */
module SunProduction {
  import opened PlantKinds

  /** Seconds between two sun drops. */
  const SunInterval: real := 10.0

  /** The production timer after a frame and the sun produced in it. */
  datatype SunTick = SunTick(timer: real, produced: int)

  /**
   * One frame: the timer advances by `dt`; once it reaches the interval,
   * one drop is produced and the timer restarts from zero, discarding the
   * overshoot.
   */
  function SunflowerTick(timer: real, dt: real): (t: SunTick)
    ensures t.produced == 0 || t.produced == SunDrop
    ensures t.produced == SunDrop <==> timer + dt >= SunInterval
    ensures t.produced == 0 ==> t.timer == timer + dt
    ensures t.produced == SunDrop ==> t.timer == 0.0
    ensures t.timer < SunInterval
    ensures timer >= 0.0 && dt >= 0.0 ==> t.timer >= 0.0
  {
    var advanced := timer + dt;
    if advanced >= SunInterval then SunTick(0.0, SunDrop) else SunTick(advanced, 0)
  }

  function Sum(dts: seq<real>): real {
    if dts == [] then 0.0 else dts[0] + Sum(dts[1..])
  }

  /** The final timer and the total sun over a run of frames. */
  function Harvest(timer: real, dts: seq<real>): SunTick
    decreases |dts|
  {
    if dts == [] then SunTick(timer, 0)
    else
      var first := SunflowerTick(timer, dts[0]);
      var rest := Harvest(first.timer, dts[1..]);
      SunTick(rest.timer, first.produced + rest.produced)
  }

  /** `n` frames of one second each. */
  function Seconds(n: nat): seq<real> {
    seq(n, _ => 1.0)
  }

  /**
   * Over any run of frames, production never beats one drop per interval of
   * time that was spent on the timer: the time a drop discards is at least
   * the interval.
   */
  lemma {:induction false} HarvestRate(timer: real, dts: seq<real>)
    decreases |dts|
    ensures var h := Harvest(timer, dts);
      h.produced % SunDrop == 0 && h.produced >= 0 &&
      SunInterval * h.produced as real <= SunDrop as real * (timer + Sum(dts) - h.timer)
  {
    if dts != [] {
      var first := SunflowerTick(timer, dts[0]);
      HarvestRate(first.timer, dts[1..]);
    }
  }

  /**
   * Starting below the interval, one-second frames produce nothing until
   * the timer has run for the full interval, and then exactly one drop.
   */
  lemma {:induction false} OneSecondFrames(timer: real, n: nat)
    requires 0.0 <= timer < SunInterval && timer + n as real <= SunInterval
    decreases n
    ensures Harvest(timer, Seconds(n)) ==
      if timer + n as real < SunInterval then SunTick(timer + n as real, 0) else SunTick(0.0, SunDrop)
  {
    if n > 0 {
      assert Seconds(n)[1..] == Seconds(n - 1);
      var first := SunflowerTick(timer, 1.0);
      if timer + 1.0 < SunInterval {
        OneSecondFrames(timer + 1.0, n - 1);
      }
    }
  }

  /**
   * A new Sunflower fed ten one-second frames: no sun after the first nine,
   * exactly one drop of 25 on the tenth.
   */
  lemma TenSecondsOneDrop()
    ensures forall n: nat :: n < 10 ==> Harvest(0.0, Seconds(n)).produced == 0
    ensures Harvest(0.0, Seconds(10)) == SunTick(0.0, 25)
  {
    forall n: nat | n < 10
      ensures Harvest(0.0, Seconds(n)).produced == 0
    {
      OneSecondFrames(0.0, n);
    }
    OneSecondFrames(0.0, 10);
  }
}
