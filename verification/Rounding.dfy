/** `round(x, 6)`.
    To the nearest multiple of one millionth, with either choice at a tie.
    All that is used is that the error is at most half a unit, that the order is kept,
    and that zero and one stay what they are. */
module Rounding {

  type Round = real -> real

  const HALF_UNIT := 0.0000005

  predicate RoundsAt(round: Round, x: real) {
    -HALF_UNIT <= round(x) - x <= HALF_UNIT
  }

  predicate OrderedAt(round: Round, x: real, y: real) {
    x <= y ==> round(x) <= round(y)
  }

  ghost predicate RoundsToSix(round: Round) {
    && (forall x {:trigger round(x)} :: RoundsAt(round, x))
    && (forall x, y {:trigger round(x), round(y)} :: OrderedAt(round, x, y))
    && round(0.0) == 0.0
    && round(1.0) == 1.0
  }

  lemma RoundKeepsUnit(round: Round, x: real)
    requires RoundsToSix(round) && 0.0 <= x <= 1.0
    ensures 0.0 <= round(x) <= 1.0
    ensures -HALF_UNIT <= round(x) - x <= HALF_UNIT
  {
    assert OrderedAt(round, 0.0, x) && OrderedAt(round, x, 1.0) && RoundsAt(round, x);
  }
}
