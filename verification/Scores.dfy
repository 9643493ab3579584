/** Score normalization at the end of `handle_match`.
    Candidate scores are rescaled in place, from their own minimum and maximum to 0 and 1.
    Scores that are all equal stay as they are, unless there is only one.
    Only a dictionary can hold a score. */
module Scores {

  import opened Options
  import opened RealArithmetic
  import R = Rounding

  /** A result row; only a dictionary can hold a score. */
  datatype Candidate = NotADict | Dict(score: Option<real>)

  predicate Scored(c: Candidate) {
    c.Dict? && c.score.Some?
  }

  /** A missing score counts as zero. */
  function Raw(c: Candidate): real {
    if Scored(c) then c.score.value else 0.0
  }

  function MaxOf(s: seq<Candidate>): (m: real)
    requires s != []
    ensures forall i | 0 <= i < |s| :: Raw(s[i]) <= m
    ensures exists i :: 0 <= i < |s| && Raw(s[i]) == m
  {
    if |s| == 1 then Raw(s[0])
    else
      var m, last := MaxOf(s[..|s| - 1]), Raw(s[|s| - 1]);
      if last > m then last else m
  }

  function MinOf(s: seq<Candidate>): (m: real)
    requires s != []
    ensures forall i | 0 <= i < |s| :: m <= Raw(s[i])
    ensures exists i :: 0 <= i < |s| && Raw(s[i]) == m
  {
    if |s| == 1 then Raw(s[0])
    else
      var m, last := MinOf(s[..|s| - 1]), Raw(s[|s| - 1]);
      if last < m then last else m
  }

  function Rescaled(x: real, low: real, high: real, round: R.Round): real
    requires high > low
  {
    round((x - low) / (high - low))
  }

  function RescaledCandidate(c: Candidate, low: real, high: real, round: R.Round): Candidate
    requires high > low
  {
    if Scored(c) then Dict(Some(Rescaled(c.score.value, low, high, round))) else c
  }

  function Normalised(s: seq<Candidate>, round: R.Round): seq<Candidate> {
    if s == [] then []
    else
      var low, high := MinOf(s), MaxOf(s);
      if high > low then seq(|s|, i requires 0 <= i < |s| => RescaledCandidate(s[i], low, high, round))
      else if |s| == 1 && s[0].Dict? then [Dict(Some(1.0))]
      else s
  }

  /** The loop, over candidates that are updated where they stand. */
  method Normalize(a: array<Candidate>, round: R.Round) returns (rawMin: real, rawMax: real)
    modifies a
    ensures a[..] == Normalised(old(a[..]), round)
    ensures a.Length > 0 ==> rawMin == MinOf(old(a[..])) && rawMax == MaxOf(old(a[..]))
    ensures a.Length == 0 ==> rawMin == 0.0 && rawMax == 0.0
  {
    if a.Length == 0 {
      return 0.0, 0.0;
    }
    rawMin, rawMax := MinOf(a[..]), MaxOf(a[..]);
    var range := rawMax - rawMin;
    if range > 0.0 {
      for i := 0 to a.Length
        invariant forall j | 0 <= j < i :: a[j] == RescaledCandidate(old(a[j]), rawMin, rawMax, round)
        invariant forall j | i <= j < a.Length :: a[j] == old(a[j])
      {
        if Scored(a[i]) {
          a[i] := Dict(Some(round((a[i].score.value - rawMin) / range)));
        }
      }
    } else if a.Length == 1 && a[0].Dict? {
      a[0] := Dict(Some(1.0));
    }
  }

  // ----- what normalized scores are -----

  lemma RescaledInUnit(x: real, low: real, high: real, round: R.Round)
    requires R.RoundsToSix(round) && low <= x <= high && low < high
    ensures 0.0 <= Rescaled(x, low, high, round) <= 1.0
    ensures x == low ==> Rescaled(x, low, high, round) == 0.0
    ensures x == high ==> Rescaled(x, low, high, round) == 1.0
  {
    DivideOrder(x - low, high - low, 1.0);
    R.RoundKeepsUnit(round, (x - low) / (high - low));
    if x == high {
      QuotientOfProduct(high - low, 1.0, x - low);
    }
  }

  lemma RescaledOrder(x: real, y: real, low: real, high: real, round: R.Round)
    requires R.RoundsToSix(round) && low < high && x <= y
    ensures Rescaled(x, low, high, round) <= Rescaled(y, low, high, round)
  {
    OrderedQuotients(x - low, y - low, high - low);
    assert R.OrderedAt(round, (x - low) / (high - low), (y - low) / (high - low));
  }

  ghost predicate ScoresInUnit(s: seq<Candidate>) {
    forall i | 0 <= i < |s| && Scored(s[i]) :: 0.0 <= s[i].score.value <= 1.0
  }

  /** After normalization every score lies in [0, 1], exactly when the raw scores differ, or there is one
      candidate and it is a dictionary, or they were in [0, 1] before: equal scores are left as they are. */
  lemma NormalisedInUnitExactly(s: seq<Candidate>, round: R.Round)
    requires s != [] && R.RoundsToSix(round)
    ensures ScoresInUnit(Normalised(s, round)) <==>
            MinOf(s) < MaxOf(s) || (|s| == 1 && s[0].Dict?) || ScoresInUnit(s)
  {
    if MinOf(s) < MaxOf(s) {
      forall i | 0 <= i < |s| && Scored(s[i]) ensures 0.0 <= Normalised(s, round)[i].score.value <= 1.0 {
        RescaledInUnit(s[i].score.value, MinOf(s), MaxOf(s), round);
      }
    }
  }

  /** When the raw scores differ, each ends within half a unit of its share of the way from the lowest to the
      highest; when they do not, and for what holds no score, nothing changes, but for a single dictionary. */
  lemma NormalisedMeaning(s: seq<Candidate>, round: R.Round, low: real, high: real, i: nat)
    requires R.RoundsToSix(round) && i < |s|
    requires forall k | 0 <= k < |s| :: low <= (if Scored(s[k]) then s[k].score.value else 0.0) <= high
    requires exists k :: 0 <= k < |s| && (if Scored(s[k]) then s[k].score.value else 0.0) == low
    requires exists k :: 0 <= k < |s| && (if Scored(s[k]) then s[k].score.value else 0.0) == high
    ensures var r := Normalised(s, round);
            && |r| == |s|
            && (low < high && Scored(s[i]) ==>
                  Scored(r[i]) && NearShare(r[i].score.value, s[i].score.value, low, high))
            && (low < high && !Scored(s[i]) ==> r[i] == s[i])
            && (low == high ==> r[i] == if |s| == 1 && s[0].Dict? then Dict(Some(1.0)) else s[i])
  {
    assert low == MinOf(s) && high == MaxOf(s);
    if low < high && Scored(s[i]) {
      RescaledNear(s[i].score.value, low, high, round);
    }
  }

  /** `y` is, within half a unit, the share of the way from `low` to `high` at which `x` lies. */
  ghost predicate NearShare(y: real, x: real, low: real, high: real)
    requires low < high
  {
    -R.HALF_UNIT <= y - (x - low) / (high - low) <= R.HALF_UNIT
  }

  lemma RescaledNear(x: real, low: real, high: real, round: R.Round)
    requires R.RoundsToSix(round) && low <= x <= high && low < high
    ensures NearShare(Rescaled(x, low, high, round), x, low, high)
  {
    DivideOrder(x - low, high - low, 1.0);
    R.RoundKeepsUnit(round, (x - low) / (high - low));
  }

  /** No candidate overtakes another; a candidate holding the highest raw score ends at 1, one holding the
      lowest at 0, when those differ. */
  lemma NormalisedKeepsOrder(s: seq<Candidate>, round: R.Round, i: nat, j: nat)
    requires i < |s| && j < |s| && Scored(s[i]) && Scored(s[j]) && R.RoundsToSix(round)
    ensures var r := Normalised(s, round);
            && Scored(r[i]) && Scored(r[j])
            && (Raw(s[i]) <= Raw(s[j]) ==> Raw(r[i]) <= Raw(r[j]))
            && (MinOf(s) < MaxOf(s) && Raw(s[i]) == MaxOf(s) ==> Raw(r[i]) == 1.0)
            && (MinOf(s) < MaxOf(s) && Raw(s[i]) == MinOf(s) ==> Raw(r[i]) == 0.0)
  {
    var low, high := MinOf(s), MaxOf(s);
    if low < high {
      RescaledInUnit(Raw(s[i]), low, high, round);
      if Raw(s[i]) <= Raw(s[j]) {
        RescaledOrder(Raw(s[i]), Raw(s[j]), low, high, round);
      }
    }
  }
}
