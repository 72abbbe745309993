/**
 The random draws of the duel. The generator itself is not modelled: a draw
 is a value the caller supplies, and all that is known of it is that it lies
 in the inclusive range it was drawn from, which is exactly what
 `randomInt(lo, hi)` promises when `lo <= hi`.
 */
module Dice {

  /** An inclusive range of integers. */
  datatype Range = Range(lo: int, hi: int) {
    predicate Contains(x: int) { lo <= x <= hi }
    predicate NonEmpty() { lo <= hi }
  }

  /** A plain attack: the attack stat plus or minus 20%, truncated. The
      stat itself is always a possible draw, and no draw is negative. */
  function AttackRange(atk: int): (r: Range)
    requires atk >= 0
    ensures 0 <= r.lo <= atk <= r.hi
    ensures r.Contains(atk) && r.NonEmpty()
  {
    Range(atk * 8 / 10, atk * 12 / 10)
  }

  /** A heavy strike: 150% of the attack stat (truncated), then plus or
      minus 20%. */
  function HeavyRange(atk: int): (r: Range)
    requires atk >= 0
    ensures 0 <= r.lo <= atk * 3 / 2 <= r.hi
    ensures atk <= r.hi
    ensures r.NonEmpty()
  {
    var base := atk * 3 / 2;
    Range(base * 8 / 10, base * 12 / 10)
  }

  /** A life steal: between 30% and 50% of the attack stat, truncated; never
      more than half the stat. */
  function StealRange(atk: int): (r: Range)
    requires atk >= 0
    ensures 0 <= r.lo <= r.hi
    ensures 2 * r.hi <= atk
  {
    Range(atk * 3 / 10, atk * 5 / 10)
  }

  /** The enemy's reaction roll. */
  const ReactionRoll := Range(1, 10)
}
