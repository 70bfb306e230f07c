/** The three kinds of cell, the health ceiling, the initial draw and the
    colour channels a cell is painted with. */
module Creatures {

  datatype Creature = Empty | Predator | Prey

  /** Health never exceeds this value. */
  const MaxHealth: int := 100

  /** A value of the uniform draw over [0, 100] that picks an initial kind. */
  type Draw = v: int | 0 <= v <= 100

  /** The kind a draw selects: above 50 is Empty, above 5 is Prey, the rest
      Predator. */
  function RandomCreature(v: Draw): (c: Creature)
    ensures c == Empty <==> 50 < v
    ensures c == Prey <==> 6 <= v <= 50
    ensures c == Predator <==> v <= 5
  {
    if v > 50 then Empty
    else if v > 5 then Prey
    else Predator
  }

  /** The draws, out of the 101 equally likely ones, that select kind `c`. */
  ghost function DrawsFor(c: Creature): (draws: set<int>)
  {
    set v | 0 <= v <= 100 && RandomCreature(v) == c
  }

  /** The integers in [lo, hi). */
  ghost function Range(lo: int, hi: int): (s: set<int>)
    decreases hi - lo
  {
    if hi <= lo then {} else Range(lo, hi - 1) + {hi - 1}
  }

  lemma {:induction false} RangeSize(lo: int, hi: int)
    requires lo <= hi
    ensures |Range(lo, hi)| == hi - lo
    ensures forall v :: v in Range(lo, hi) <==> lo <= v < hi
    decreases hi - lo
  {
    if lo < hi {
      RangeSize(lo, hi - 1);
    }
  }

  /** Of the 101 draws, 50 give Empty, 45 give Prey and 6 give Predator. */
  lemma DrawShares()
    ensures |DrawsFor(Empty)| == 50
    ensures |DrawsFor(Prey)| == 45
    ensures |DrawsFor(Predator)| == 6
  {
    DrawsInBand(Empty, 51, 101);
    DrawsInBand(Prey, 6, 51);
    DrawsInBand(Predator, 0, 6);
  }

  /** A kind selected by exactly the draws in [lo, hi) is selected by
      hi - lo of them. */
  lemma DrawsInBand(c: Creature, lo: int, hi: int)
    requires 0 <= lo <= hi <= 101
    requires forall v: Draw :: RandomCreature(v) == c <==> lo <= v < hi
    ensures |DrawsFor(c)| == hi - lo
  {
    RangeSize(lo, hi);
    assert DrawsFor(c) == Range(lo, hi);
  }

  /** The red, green and blue channels of a cell's colour. */
  datatype Rgb = Rgb(red: int, green: int, blue: int)

  /** Empty is transparent black, a Predator pure red, a Prey pure green. */
  function Channels(c: Creature): (rgb: Rgb)
  {
    match c
    case Empty => Rgb(0, 0, 0)
    case Predator => Rgb(255, 0, 0)
    case Prey => Rgb(0, 255, 0)
  }

  /** Every channel fits in a byte and blue is never used; a cell is black
      exactly when Empty, pure red (255, 0, 0) exactly when a Predator and
      pure green (0, 255, 0) exactly when a Prey. */
  lemma ChannelValues(c: Creature)
    ensures var rgb := Channels(c);
            && 0 <= rgb.red <= 255 && 0 <= rgb.green <= 255 && rgb.blue == 0
            && (rgb == Rgb(0, 0, 0) <==> c == Empty)
            && (rgb.red == 255 <==> c == Predator)
            && (rgb.green == 255 <==> c == Prey)
            && (c == Predator ==> rgb.green == 0)
            && (c == Prey ==> rgb.red == 0)
  {
  }

  /** Distinct kinds are painted with distinct channels. */
  lemma ChannelsIdentifyCreature(a: Creature, b: Creature)
    requires Channels(a) == Channels(b)
    ensures a == b
  {
  }
}
